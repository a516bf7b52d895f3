/** Price-time priority over whole runs: no order is overtaken while it rests. */
module Priority {
  import opened Types
  import opened BookSpec
  import opened MatchSpec
  import opened EngineSpec
  import opened Safety

  /** Both orders rest on this side and a has priority over b. */
  predicate Ahead(s: seq<Order>, a: nat, b: nat) {
    PosOf(s, a) < PosOf(s, b) < |s|
  }

  lemma AheadAt(s: seq<Order>, j: nat, k: nat)
    requires DistinctIds(s) && j < k < |s|
    ensures Ahead(s, s[j].id, s[k].id)
  {
    PosOfUnique(s, j);
    PosOfUnique(s, k);
  }

  lemma EnqueueAhead(s: seq<Order>, o: Order, a: nat, b: nat)
    requires ValidSide(s, o.side) && Resting(o, o.side) && !Has(s, o.id) && Ahead(s, a, b)
    ensures Ahead(Enqueue(s, o), a, b)
  {
    EnqueueValid(s, o, o.side);
    hide PosOf;
    hide Rank;
    hide Sorted;
    var j, k, r := PosOf(s, a), PosOf(s, b), Rank(s, o.side, o.price);
    var x, y := if j < r then j else j + 1, if k < r then k else k + 1;
    assert Enqueue(s, o)[x] == s[j] && Enqueue(s, o)[y] == s[k];
    AheadAt(Enqueue(s, o), x, y);
  }

  lemma RemoveAhead(s: seq<Order>, k: nat, side: Side, a: nat, b: nat)
    requires ValidSide(s, side) && k < |s| && s[k].id != a && s[k].id != b && Ahead(s, a, b)
    ensures Ahead(RemoveAt(s, k), a, b)
  {
    RemoveAtValid(s, k, side);
    RemoveAtKeeps(s, k);
    hide PosOf;
    hide RemoveAt;
    hide Sorted;
    var i, j := PosOf(s, a), PosOf(s, b);
    AheadAt(RemoveAt(s, k), if i < k then i else i - 1, if j < k then j else j - 1);
  }

  lemma UpdateAhead(s: seq<Order>, k: nat, o: Order, a: nat, b: nat)
    requires DistinctIds(s) && k < |s| && o.id == s[k].id && Ahead(s, a, b)
    ensures Ahead(s[k := o], a, b)
  {
    AheadAt(s[k := o], PosOf(s, a), PosOf(s, b));
  }

  /** If a survives a sweep of its side, the sweep did not reach b. */
  lemma SweepAhead(s: seq<Order>, taker: Order, a: nat, b: nat)
    requires ValidSide(s, taker.side.Opposite()) && Ahead(s, a, b) && Has(Sweep(s, taker).rest, a)
    ensures Ahead(Sweep(s, taker).rest, a, b)
    ensures forall k :: 0 <= k < |Sweep(s, taker).fills| ==> Sweep(s, taker).fills[k].resting.id != b
  {
    SweepSuffix(s, taker);
    assert DistinctIds(Sweep(s, taker).rest) by { SweepValid(s, taker); }
    hide Sweep;
    AheadAfter(s, Sweep(s, taker), a, b);
  }

  lemma AheadAfter(s: seq<Order>, r: Swept, a: nat, b: nat)
    requires DistinctIds(s) && TakesPrefix(s, r) && DistinctIds(r.rest) && Ahead(s, a, b) && Has(r.rest, a)
    ensures Ahead(r.rest, a, b)
    ensures forall k :: 0 <= k < |r.fills| ==> r.fills[k].resting.id != b
  {
    hide PosOf;
    var d, x, y := |s| - |r.rest|, PosOf(r.rest, a), PosOf(s, b);
    assert SameStanding(r.rest[x], s[x + d]);
    PosOfUnique(s, x + d);
    assert SameStanding(r.rest[y - d], s[y]);
    AheadAt(r.rest, x, y - d);
    forall k | 0 <= k < |r.fills| ensures r.fills[k].resting.id != b {
      assert r.fills[k].resting == s[k];
    }
  }

  // ---- One command ----------------------------------------------------------------------

  function Queue(e: Engine, i: nat, side: Side): seq<Order> {
    BookOf(e, i).Get(side)
  }

  /** The resting party of a trade whose taker is on this side. */
  function Passive(taker: Side, t: Trade): nat {
    if taker.Buy? then t.sellOrder else t.buyOrder
  }

  /** The command executes a trade against this resting order. */
  ghost predicate Hits(e: Engine, c: Command, i: nat, id: nat) {
    && c.Enter? && c.order.instrument == i
    && exists k :: 0 <= k < |TradesOf(e, c)| && Passive(c.order.side, TradesOf(e, c)[k]) == id
  }

  /** The command moves this order to the back of a queue. */
  predicate Requeues(e: Engine, c: Command, i: nat, id: nat) {
    c.Change? && c.instrument == i && c.id == id && i in e.books && ModifyKind(e.books[i], id, c.qty, c.price).Replaced?
  }

  lemma SettleAhead(book: Book, taker: Order, side: Side, a: nat, b: nat)
    requires Valid(book) && Ahead(book.Get(side), a, b) && Has(Settle(book, taker).book.Get(side), a)
    ensures Ahead(Settle(book, taker).book.Get(side), a, b)
    ensures forall k :: 0 <= k < |Settle(book, taker).fills| ==> Settle(book, taker).fills[k].resting.id != b
  {
    var far := taker.side.Opposite();
    SettleCases(book, taker);
    hide Settle;
    hide Sweep;
    hide Enqueue;
    hide PosOf;
    var r := Sweep(book.Get(far), taker);
    if side == far {
      SweepAhead(book.Get(far), taker, a, b);
    } else {
      SweepSuffix(book.Get(far), taker);
      assert book.Get(side)[PosOf(book.Get(side), b)].id == b;
      var residual := taker.(remaining := r.left);
      if Insertable(book.With(far, r.rest), residual) {
        EnqueueAhead(book.Get(side), residual, a, b);
      }
    }
  }

  lemma SubmitAhead(e: Engine, c: Command, i: nat, side: Side, a: nat, b: nat)
    requires AllValid(e) && c.Enter? && Ahead(Queue(e, i, side), a, b) && Has(Queue(Next(e, c), i, side), a)
    ensures Ahead(Queue(Next(e, c), i, side), a, b) && !Hits(e, c, i, b)
  {
    hide Settle;
    hide PosOf;
    hide Valid;
    hide Trades;
    hide MakeTrade;
    hide Passive;
    var o := c.order;
    if o.instrument == i && Objection(e, o, c.gate).None? {
      SettleAhead(e.books[i], Sequenced(e, o), side, a, b);
      hide Ahead;
      TradesPassive(Sequenced(e, o), Settle(e.books[i], Sequenced(e, o)).fills, e.next + 1);
    }
  }

  lemma TradesPassive(taker: Order, fills: seq<Fill>, first: nat)
    ensures forall k :: 0 <= k < |fills| ==> Passive(taker.side, Trades(taker, fills, first)[k]) == fills[k].resting.id
  {
  }

  lemma CancelAhead(book: Book, id: nat, side: Side, a: nat, b: nat)
    requires Valid(book) && Ahead(book.Get(side), a, b) && a != id && b != id
    ensures Ahead(Cancel(book, id).Get(side), a, b)
  {
    if Cancellable(book, id) && HolderOf(book, id) == side {
      RemoveAhead(book.Get(side), PosOf(book.Get(side), id), side, a, b);
    }
  }

  lemma AmendAhead(book: Book, id: nat, o: Order, side: Side, a: nat, b: nat)
    requires Valid(book) && Live(book, id) && o.id == id && Ahead(book.Get(side), a, b)
    ensures Ahead(AmendAt(book, id, o).Get(side), a, b)
  {
    if HolderOf(book, id) == side {
      UpdateAhead(book.Get(side), PosOf(book.Get(side), id), o, a, b);
    }
  }

  lemma ModifyAhead(book: Book, id: nat, q: int, p: int, side: Side, a: nat, b: nat)
    requires Valid(book) && Ahead(book.Get(side), a, b)
    requires ModifyKind(book, id, q, p).Replaced? ==> a != id && b != id
    ensures Ahead(Modify(book, id, q, p).Get(side), a, b)
  {
    hide PosOf;
    hide Insert;
    hide BookSpec.Cancel;
    hide AmendAt;
    match ModifyKind(book, id, q, p)
    case Modified =>
      var o := OrderOf(book, id);
      AmendAhead(book, id, Shrunk(o, q).(quantity := o.quantity - (o.remaining - q)), side, a, b);
    case Replaced =>
      assert Resting(OrderOf(book, id), HolderOf(book, id));
      CancelAhead(book, id, side, a, b);
      CancelValid(book, id);
      ReplacementInsertable(book, id, q, p);
      InsertAhead(Cancel(book, id), Requoted(OrderOf(book, id), q, p), side, a, b);
    case _ =>
  }

  lemma InsertAhead(book: Book, o: Order, side: Side, a: nat, b: nat)
    requires Valid(book) && Insertable(book, o) && Ahead(book.Get(side), a, b)
    ensures Ahead(Insert(book, o).Get(side), a, b)
  {
    hide Enqueue;
    hide PosOf;
    if o.side == side {
      EnqueueAhead(book.Get(side), o, a, b);
    }
  }

  /**
   While a keeps resting and neither order is requeued, a command does not fill b, keeps b
   behind a, and makes b leave only by cancelling it.
   */
  lemma StepNoOvertaking(e: Engine, c: Command, i: nat, side: Side, a: nat, b: nat)
    requires AllValid(e) && Ahead(Queue(e, i, side), a, b) && Has(Queue(Next(e, c), i, side), a)
    requires Allowed(e, c) && !Requeues(e, c, i, a) && !Requeues(e, c, i, b)
    ensures !Hits(e, c, i, b)
    ensures Ahead(Queue(Next(e, c), i, side), a, b) || (c == Withdraw(i, b) && !Has(Queue(Next(e, c), i, side), b))
  {
    if c.Enter? {
      SubmitAhead(e, c, i, side, a, b);
    } else if c.instrument == i && i in e.books {
      var book := e.books[i];
      match c
      case Withdraw(j, id) =>
        CancelValid(book, id);
        if id == a || id == b {
          WithdrawGone(book, id, side);
        } else {
          CancelAhead(book, id, side, a, b);
        }
      case Change(j, id, q, p) => ModifyAhead(book, id, q, p, side, a, b);
      case Trim(j, id, q) =>
        if Reducible(book, id, q) {
          AmendAhead(book, id, Shrunk(OrderOf(book, id), q), side, a, b);
        }
      case _ =>
    }
  }

  lemma WithdrawGone(book: Book, id: nat, side: Side)
    requires Valid(book) && Has(book.Get(side), id)
    ensures Cancel(book, id) == book || !Has(Cancel(book, id).Get(side), id)
  {
    CancelValid(book, id);
  }

  // ---- Runs --------------------------------------------------------------------------------

  /** This order rests on this side after every command of the run. */
  predicate Stays(e: Engine, cs: seq<Command>, i: nat, side: Side, id: nat)
    decreases |cs|
  {
    cs == [] || (Has(Queue(Next(e, cs[0]), i, side), id) && Stays(Next(e, cs[0]), cs[1..], i, side, id))
  }

  predicate NeverRequeued(e: Engine, cs: seq<Command>, i: nat, id: nat)
    decreases |cs|
  {
    cs == [] || (!Requeues(e, cs[0], i, id) && NeverRequeued(Next(e, cs[0]), cs[1..], i, id))
  }

  /** From here on b is never filled and always behind a, until b is cancelled. */
  ghost predicate WaitsBehind(e: Engine, cs: seq<Command>, i: nat, side: Side, a: nat, b: nat)
    decreases |cs|
  {
    && Ahead(Queue(e, i, side), a, b)
    && (cs != [] ==>
          && !Hits(e, cs[0], i, b)
          && (WaitsBehind(Next(e, cs[0]), cs[1..], i, side, a, b) || cs[0] == Withdraw(i, b)))
  }

  /** Over every run, an order is neither filled nor promoted while one with priority over it rests. */
  lemma {:induction false} NoOvertaking(e: Engine, cs: seq<Command>, i: nat, side: Side, a: nat, b: nat)
    requires AllValid(e) && AllowedRun(e, cs) && Ahead(Queue(e, i, side), a, b)
    requires Stays(e, cs, i, side, a) && NeverRequeued(e, cs, i, a) && NeverRequeued(e, cs, i, b)
    ensures WaitsBehind(e, cs, i, side, a, b)
    decreases |cs|
  {
    if cs != [] {
      StepNoOvertaking(e, cs[0], i, side, a, b);
      StepValid(e, cs[0]);
      if Ahead(Queue(Next(e, cs[0]), i, side), a, b) {
        NoOvertaking(Next(e, cs[0]), cs[1..], i, side, a, b);
      }
    }
  }

  // ---- Sequence numbers ----------------------------------------------------------------------

  /** Orders at the same price queue in the order of their sequence numbers, all below n. */
  ghost predicate Numbered(s: seq<Order>, n: nat) {
    && (forall j :: 0 <= j < |s| ==> s[j].sequence < n)
    && (forall j, k :: 0 <= j < k < |s| && s[j].price == s[k].price ==> s[j].sequence < s[k].sequence)
  }

  ghost predicate BookNumbered(b: Book, n: nat) {
    Numbered(b.bids, n) && Numbered(b.asks, n)
  }

  ghost predicate InOrder(e: Engine) {
    forall i :: i in e.books ==> BookNumbered(e.books[i], e.next)
  }

  lemma NumberedMore(s: seq<Order>, m: nat, n: nat)
    requires Numbered(s, m) && m <= n
    ensures Numbered(s, n)
  {
  }

  lemma EnqueueNumbered(s: seq<Order>, o: Order, n: nat)
    requires ValidSide(s, o.side) && Numbered(s, o.sequence) && o.sequence < n
    ensures Numbered(Enqueue(s, o), n)
  {
    var r, t := Rank(s, o.side, o.price), Enqueue(s, o);
    assert forall j :: 0 <= j < |t| && j != r ==> t[j] == s[if j < r then j else j - 1];
    forall j | r < j < |t| ensures t[j].price != o.price {
      assert j - 1 > r ==> !Better(o.side, s[j - 1].price, s[r].price);
    }
  }

  lemma SweepNumbered(s: seq<Order>, taker: Order, n: nat)
    requires Numbered(s, n)
    ensures Numbered(Sweep(s, taker).rest, n)
  {
    SweepSuffix(s, taker);
    hide Sweep;
  }

  lemma SettleNumbered(b: Book, taker: Order, n: nat)
    requires Valid(b) && BookNumbered(b, taker.sequence) && taker.sequence < n
    ensures BookNumbered(Settle(b, taker).book, n)
  {
    var far := taker.side.Opposite();
    SettleCases(b, taker);
    SweepNumbered(b.Get(far), taker, taker.sequence);
    var r := Sweep(b.Get(far), taker);
    hide Settle;
    hide Sweep;
    hide Enqueue;
    hide Numbered;
    hide Insertable;
    NumberedMore(b.Get(taker.side), taker.sequence, n);
    NumberedMore(r.rest, taker.sequence, n);
    EnqueueNumbered(b.Get(taker.side), taker.(remaining := r.left), n);
  }

  lemma AmendNumbered(b: Book, id: nat, o: Order, n: nat)
    requires BookNumbered(b, n) && Live(b, id)
    requires o.price == OrderOf(b, id).price && o.sequence == OrderOf(b, id).sequence
    ensures BookNumbered(AmendAt(b, id, o), n)
  {
  }

  lemma CancelNumbered(b: Book, id: nat, n: nat)
    requires BookNumbered(b, n)
    ensures BookNumbered(Cancel(b, id), n)
  {
    if Cancellable(b, id) {
      var s := b.Get(HolderOf(b, id));
      RemoveAtKeeps(s, PosOf(s, id));
    }
  }

  lemma ReduceNumbered(b: Book, id: nat, q: int, n: nat)
    requires BookNumbered(b, n)
    ensures BookNumbered(Reduce(b, id, q), n)
  {
    if Reducible(b, id, q) {
      AmendNumbered(b, id, Shrunk(OrderOf(b, id), q), n);
    }
  }

  lemma ModifyNumbered(b: Book, id: nat, q: int, p: int, n: nat)
    requires BookNumbered(b, n) && !ModifyKind(b, id, q, p).Replaced?
    ensures BookNumbered(Modify(b, id, q, p), n)
  {
    if ModifyKind(b, id, q, p).Modified? {
      var o := OrderOf(b, id);
      AmendNumbered(b, id, Shrunk(o, q).(quantity := o.quantity - (o.remaining - q)), n);
    }
  }

  lemma SubmitInOrder(e: Engine, o: Order, gate: Option<string>)
    requires AllValid(e) && InOrder(e)
    ensures InOrder(Submit(e, o, gate).engine)
  {
    hide Settle;
    hide Numbered;
    hide Valid;
    if Objection(e, o, gate).None? {
      var n := Submit(e, o, gate).engine.next;
      SettleNumbered(e.books[o.instrument], Sequenced(e, o), n);
      forall i | i in e.books ensures BookNumbered(e.books[i], n) {
        NumberedMore(e.books[i].bids, e.next, n);
        NumberedMore(e.books[i].asks, e.next, n);
      }
    }
  }

  lemma StepInOrder(e: Engine, c: Command)
    requires AllValid(e) && InOrder(e)
    requires c.Change? ==> !Requeues(e, c, c.instrument, c.id)
    ensures InOrder(Next(e, c))
  {
    assert BookNumbered(EMPTY, e.next);
    hide BookNumbered;
    hide BookSpec.Cancel;
    hide BookSpec.Modify;
    hide BookSpec.Reduce;
    hide Submit;
    hide Valid;
    if c.Enter? {
      SubmitInOrder(e, c.order, c.gate);
    } else if c.instrument in e.books {
      var b := e.books[c.instrument];
      match c
      case Withdraw(i, id) => CancelNumbered(b, id, e.next);
      case Change(i, id, q, p) => ModifyNumbered(b, id, q, p, e.next);
      case Trim(i, id, q) => ReduceNumbered(b, id, q, e.next);
      case _ =>
    }
  }

  predicate NoRequeue(e: Engine, cs: seq<Command>)
    decreases |cs|
  {
    cs == [] || ((cs[0].Change? ==> !Requeues(e, cs[0], cs[0].instrument, cs[0].id)) && NoRequeue(Next(e, cs[0]), cs[1..]))
  }

  /** Without replacing modifies, every queue is strictly increasing in sequence number, in every run. */
  lemma {:induction false} RunInOrder(e: Engine, cs: seq<Command>)
    requires AllValid(e) && InOrder(e) && NoRequeue(e, cs)
    ensures InOrder(Run(e, cs))
    decreases |cs|
  {
    if cs != [] {
      StepInOrder(e, cs[0]);
      StepValid(e, cs[0]);
      RunInOrder(Next(e, cs[0]), cs[1..]);
    }
  }
}
