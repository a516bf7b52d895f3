/** The states of resting orders over whole runs: each is new or partly filled, and can be withdrawn. */
module Lifecycle {
  import opened Types
  import opened BookSpec
  import opened MatchSpec
  import opened EngineSpec
  import opened Safety
  import opened Modifying

  ghost predicate Working(s: seq<Order>) {
    forall k :: 0 <= k < |s| ==> s[k].status.New? || s[k].status.PartiallyFilled?
  }

  ghost predicate BookWorking(b: Book) {
    Working(b.bids) && Working(b.asks)
  }

  ghost predicate AllWorking(e: Engine) {
    forall i :: i in e.books ==> BookWorking(e.books[i])
  }

  /** Orders are submitted with the status that a new order has. */
  predicate EntersNew(c: Command) {
    c.Enter? ==> c.order.status.New?
  }

  lemma InsertWorking(b: Book, o: Order)
    requires BookWorking(b) && o.status.New?
    ensures BookWorking(Insert(b, o))
  {
    hide Rank;
    hide Insertable;
  }

  lemma SettleWorking(b: Book, taker: Order)
    requires BookWorking(b) && taker.status.New?
    ensures BookWorking(Settle(b, taker).book)
  {
    var far := taker.side.Opposite();
    var r := Sweep(b.Get(far), taker);
    SweepTrims(b.Get(far), taker);
    SettleCases(b, taker);
    hide Settle;
    hide Sweep;
    hide Insert;
    hide Insertable;
    assert BookWorking(b.With(far, r.rest));
    if Settle(b, taker).book != b.With(far, r.rest) {
      InsertWorking(b.With(far, r.rest), taker.(remaining := r.left));
    }
  }

  /**
   What a sweep leaves of a side is its last orders as they were, the first of them perhaps with
   less remaining, and then marked as partly filled.
   */
  lemma PartlyFilled(s: seq<Order>, taker: Order)
    ensures var rest := Sweep(s, taker).rest;
            var d := |s| - |rest|;
            && 0 <= d
            && (forall k :: 1 <= k < |rest| ==> rest[k] == s[k + d])
            && (rest != [] && rest[0] != s[d] ==>
                  && 0 < rest[0].remaining < s[d].remaining
                  && rest[0] == s[d].(remaining := rest[0].remaining,
                                      status := if s[d].status.New? then OrderStatus.PartiallyFilled else s[d].status))
  {
    SweepTrims(s, taker);
    hide Sweep;
  }

  lemma CancelWorking(b: Book, id: nat)
    requires BookWorking(b)
    ensures BookWorking(BookSpec.Cancel(b, id))
  {
  }

  lemma ReduceWorking(b: Book, id: nat, q: int)
    requires BookWorking(b)
    ensures BookWorking(Reduce(b, id, q))
  {
  }

  lemma ModifyWorking(b: Book, id: nat, q: int, p: int)
    requires BookWorking(b)
    ensures BookWorking(Modify(b, id, q, p))
  {
    CancelWorking(b, id);
    hide PosOf;
    hide Insert;
    hide BookSpec.Cancel;
    if ModifyKind(b, id, q, p).Replaced? {
      InsertWorking(BookSpec.Cancel(b, id), Requoted(OrderOf(b, id), q, p));
    }
  }

  lemma StepWorking(e: Engine, c: Command)
    requires AllWorking(e) && EntersNew(c)
    ensures AllWorking(Next(e, c))
  {
    assert BookWorking(EMPTY);
    hide BookWorking;
    hide Settle;
    hide BookSpec.Cancel;
    hide Modify;
    hide Reduce;
    if c.Enter? {
      if Objection(e, c.order, c.gate).None? {
        SettleWorking(e.books[c.order.instrument], Sequenced(e, c.order));
      }
    } else if c.instrument in e.books {
      var b := e.books[c.instrument];
      match c
      case Withdraw(i, id) => CancelWorking(b, id);
      case Change(i, id, q, p) => ModifyWorking(b, id, q, p);
      case Trim(i, id, q) => ReduceWorking(b, id, q);
      case _ =>
    }
  }

  /** Over every run, each resting order is new or partly filled. */
  lemma {:induction false} RunWorking(e: Engine, cs: seq<Command>)
    requires AllWorking(e) && forall k :: 0 <= k < |cs| ==> EntersNew(cs[k])
    ensures AllWorking(Run(e, cs))
    decreases |cs|
  {
    hide AllWorking;
    hide EntersNew;
    hide Next;
    if cs != [] {
      StepWorking(e, cs[0]);
      RunWorking(Next(e, cs[0]), cs[1..]);
    }
  }

  /** `on` is `was` without the order at this position of a book; its id rests nowhere in that book. */
  ghost predicate Withdrawn(was: Engine, on: Engine, i: nat, side: Side, k: nat) {
    && i in was.books && on.books.Keys == was.books.Keys && on.next == was.next
    && (forall j :: j in was.books && j != i ==> on.books[j] == was.books[j])
    && var s := was.books[i].Get(side);
       && k < |s|
       && on.books[i].Get(side) == s[..k] + s[k + 1..]
       && on.books[i].Get(side.Opposite()) == was.books[i].Get(side.Opposite())
       && forall far: Side, j :: 0 <= j < |on.books[i].Get(far)| ==> on.books[i].Get(far)[j].id != s[k].id
  }

  /** Withdrawing a resting order removes it and nothing else. */
  lemma WithdrawRemoves(e: Engine, i: nat, side: Side, k: nat)
    requires AllValid(e) && AllWorking(e) && i in e.books && k < |e.books[i].Get(side)|
    ensures var id := e.books[i].Get(side)[k].id;
            Cancellable(e.books[i], id) && Withdrawn(e, Next(e, Withdraw(i, id)), i, side, k)
  {
    hide BookSpec.Cancel;
    hide Cancellable;
    hide Live;
    hide Valid;
    var b := e.books[i];
    var id := b.Get(side)[k].id;
    CancelIff(b, side, k);
    CancelValid(b, id);
    NowhereLeft(BookSpec.Cancel(b, id), id);
  }

  lemma NowhereLeft(b: Book, id: nat)
    requires !Live(b, id)
    ensures forall side: Side, j :: 0 <= j < |b.Get(side)| ==> b.Get(side)[j].id != id
  {
  }

  /** After every run of new orders and allowed commands, every resting order can be withdrawn. */
  lemma RunThenWithdraw(e: Engine, cs: seq<Command>, i: nat, side: Side, k: nat)
    requires AllValid(e) && AllWorking(e) && AllowedRun(e, cs) && forall j :: 0 <= j < |cs| ==> EntersNew(cs[j])
    requires i in Run(e, cs).books && k < |Run(e, cs).books[i].Get(side)|
    ensures var last := Run(e, cs);
            var id := last.books[i].Get(side)[k].id;
            Cancellable(last.books[i], id) && Withdrawn(last, Next(last, Withdraw(i, id)), i, side, k)
  {
    RunWorking(e, cs);
    RunValid(e, cs);
    hide Run;
    WithdrawRemoves(Run(e, cs), i, side, k);
  }
}
