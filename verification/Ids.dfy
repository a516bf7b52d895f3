/** The sequence counter numbers orders and trades without gaps or repeats. */
module Ids {
  import opened Types
  import opened BookSpec
  import opened MatchSpec
  import opened EngineSpec
  import opened Safety

  ghost predicate Below(s: seq<Order>, n: nat) {
    forall k :: 0 <= k < |s| ==> s[k].id < n
  }

  /** Every live id was handed out before. */
  ghost predicate Fresh(e: Engine) {
    e.next > 0 && forall i :: i in e.books ==> BookBelow(e.books[i], e.next)
  }

  /** Submissions leave the id to the engine and arrive unfilled. */
  predicate AutoId(c: Command) {
    c.Enter? ==> c.order.id == INVALID_ID && c.order.remaining == c.order.quantity
  }

  /** The ids a command hands out: that of a sequenced order, then those of its trades. */
  function IdsOf(e: Engine, c: Command): seq<nat> {
    if c.Enter? && Objection(e, c.order, c.gate).None? then
      var out := Submit(e, c.order, c.gate);
      [out.result.orderId] + seq(|out.trades|, k requires 0 <= k < |out.trades| => out.trades[k].id)
    else []
  }

  function IdStream(e: Engine, cs: seq<Command>): seq<nat>
    decreases |cs|
  {
    if cs == [] then [] else IdsOf(e, cs[0]) + IdStream(Next(e, cs[0]), cs[1..])
  }

  function Range(a: nat, b: nat): seq<nat>
    requires a <= b
  {
    seq(b - a, k requires 0 <= k < b - a => a + k)
  }

  // ---- Live ids stay below the counter ----------------------------------------------------

  ghost predicate BookBelow(b: Book, n: nat) {
    Below(b.bids, n) && Below(b.asks, n)
  }

  lemma InsertBelow(b: Book, o: Order, n: nat)
    requires BookBelow(b, n) && o.id < n
    ensures BookBelow(Insert(b, o), n)
  {
    hide Rank;
    hide Insertable;
  }

  lemma SettleBelow(b: Book, taker: Order, n: nat)
    requires Valid(b) && BookBelow(b, n) && taker.id < n
    ensures BookBelow(Settle(b, taker).book, n)
  {
    hide Sweep;
    hide ValidSide;
    hide Insert;
    hide Insertable;
    var far := taker.side.Opposite();
    SweepValid(b.Get(far), taker);
    var r := Sweep(b.Get(far), taker);
    assert BookBelow(b.With(far, r.rest), n);
    InsertBelow(b.With(far, r.rest), taker.(remaining := r.left), n);
  }

  lemma CancelBelow(b: Book, id: nat, n: nat)
    requires BookBelow(b, n)
    ensures BookBelow(Cancel(b, id), n)
  {
  }

  lemma AmendBelow(b: Book, id: nat, o: Order, n: nat)
    requires BookBelow(b, n) && Live(b, id) && o.id < n
    ensures BookBelow(AmendAt(b, id, o), n)
  {
  }

  lemma ModifyBelow(b: Book, id: nat, q: int, p: int, n: nat)
    requires BookBelow(b, n)
    ensures BookBelow(Modify(b, id, q, p), n)
  {
    CancelBelow(b, id, n);
    hide BookSpec.Cancel;
    hide Insert;
    hide AmendAt;
    match ModifyKind(b, id, q, p)
    case Modified =>
      var o := OrderOf(b, id);
      AmendBelow(b, id, Shrunk(o, q).(quantity := o.quantity - (o.remaining - q)), n);
    case Replaced => InsertBelow(Cancel(b, id), Requoted(OrderOf(b, id), q, p), n);
    case _ =>
  }

  lemma StepFresh(e: Engine, c: Command)
    requires AllValid(e) && Fresh(e) && AutoId(c)
    ensures Fresh(Next(e, c))
  {
    if c.Enter? {
      var o := c.order;
      if Objection(e, o, c.gate).None? {
        var n := Submit(e, o, c.gate).engine.next;
        SettleBelow(e.books[o.instrument], Sequenced(e, o), n);
      }
    } else if c.instrument in e.books {
      var b := e.books[c.instrument];
      match c
      case Withdraw(i, id) => CancelBelow(b, id, e.next);
      case Change(i, id, q, p) => ModifyBelow(b, id, q, p, e.next);
      case Trim(i, id, q) => if Reducible(b, id, q) { AmendBelow(b, id, Shrunk(OrderOf(b, id), q), e.next); }
      case _ =>
    }
  }

  /** An order under a new id always finds its id free. */
  lemma NeverDuplicate(e: Engine, o: Order, gate: Option<string>)
    requires AllValid(e) && Fresh(e) && AutoId(Enter(o, gate))
    ensures Objection(e, o, gate).None? ==>
              Submit(e, o, gate).result.reason != "duplicate order id" && Submit(e, o, gate).result.orderId == e.next
  {
    if Objection(e, o, gate).None? {
      SettleInserts(e.books[o.instrument], Sequenced(e, o));
    }
  }

  lemma SettleInserts(b: Book, taker: Order)
    requires Valid(b) && BookBelow(b, taker.id) && taker.id > 0
    requires taker.remaining == taker.quantity && ValidQuantity(taker.quantity)
    requires taker.kind.Limit? ==> ValidPrice(taker.price)
    ensures Settle(b, taker).result.reason != "duplicate order id"
    ensures Settle(b, taker).result.orderId == taker.id
  {
    hide Sweep;
    hide Live;
    hide Insert;
    var far := taker.side.Opposite();
    assert forall i :: 0 <= i < |b.Get(far)| ==> b.Get(far)[i].remaining > 0;
    NotLive(b, taker);
    LeftAtMost(b.Get(far), taker);
    hide Valid;
    hide BookBelow;
    assert "duplicate order id"[0] == 'd' && "no liquidity for market order"[0] == 'n';
  }

  /** An id that was never handed out is not live after a sweep. */
  lemma NotLive(b: Book, taker: Order)
    requires Valid(b) && BookBelow(b, taker.id)
    ensures var far := taker.side.Opposite(); !Live(b.With(far, Sweep(b.Get(far), taker).rest), taker.id)
  {
    hide Sweep;
    hide ValidSide;
    SweepValid(b.Get(taker.side.Opposite()), taker);
  }

  lemma {:induction false} LeftAtMost(s: seq<Order>, taker: Order)
    requires forall i :: 0 <= i < |s| ==> s[i].remaining > 0
    ensures Sweep(s, taker).left <= taker.remaining
    decreases |s|
  {
    if Trading(s, taker) && Bite(s, taker) >= s[0].remaining {
      LeftAtMost(s[1..], Hit(taker, Bite(s, taker)));
    }
  }

  // ---- The stream of ids --------------------------------------------------------------------

  lemma TradeIds(e: Engine, o: Order, gate: Option<string>)
    ensures var out := Submit(e, o, gate);
            forall k :: 0 <= k < |out.trades| ==> out.trades[k].id == e.next + 1 + k
  {
    hide Settle;
  }

  lemma StepIds(e: Engine, c: Command)
    requires AllValid(e) && Fresh(e) && AutoId(c)
    ensures e.next <= Next(e, c).next && IdsOf(e, c) == Range(e.next, Next(e, c).next)
  {
    hide Settle;
    hide AllValid;
    hide Fresh;
    hide MakeTrade;
    if c.Enter? {
      NeverDuplicate(e, c.order, c.gate);
      TradeIds(e, c.order, c.gate);
    }
  }

  /**
   Over every run with engine-assigned ids, the ids handed out are the consecutive numbers
   from the first counter value to the last, across all instruments: distinct, increasing,
   and below the counter.
   */
  lemma {:induction false} RunIds(e: Engine, cs: seq<Command>)
    requires AllValid(e) && AllowedRun(e, cs) && Fresh(e) && forall k :: 0 <= k < |cs| ==> AutoId(cs[k])
    ensures e.next <= Run(e, cs).next && IdStream(e, cs) == Range(e.next, Run(e, cs).next)
    ensures AllValid(Run(e, cs)) && Fresh(Run(e, cs))
    decreases |cs|
  {
    hide Next;
    hide IdsOf;
    hide AutoId;
    hide Fresh;
    hide AllValid;
    hide Allowed;
    if cs != [] {
      StepIds(e, cs[0]);
      StepValid(e, cs[0]);
      StepFresh(e, cs[0]);
      RunIds(Next(e, cs[0]), cs[1..]);
    }
  }
}
