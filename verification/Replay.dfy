/**
 Logging a run and replaying its log: the replayed engine has the same books, order by
 order, up to the trader ids and the time-in-force that the log does not keep.
 */
module Replay {
  import opened Types
  import opened BookSpec
  import opened MatchSpec
  import opened EngineSpec
  import opened Safety
  import opened Ids
  import opened Bytes
  import opened EventLogs
  import opened Blurring
  import C = Conservation

  // ---- What the persisting sink writes ----------------------------------------------------

  const RESTED: Byte := 1
  const REJECTED: Byte := 2
  const CANCELLED: Byte := 3
  const FILLED: Byte := 4
  const PARTIALLY_FILLED: Byte := 5

  function KindOf(s: SubmitStatus): Byte {
    match s
    case Accepted => RESTED
    case FullyFilled => FILLED
    case PartiallyFilled => PARTIALLY_FILLED
    case Cancelled => CANCELLED
    case Rejected => REJECTED
  }

  function Ascii(s: string): seq<Byte> {
    seq(|s|, i requires 0 <= i < |s| => s[i] as int % 256)
  }

  function TradeRecord(t: Trade, timestamp: nat): Record {
    Record(TRADE, t.sequence, timestamp, NO_ORDER, t, [])
  }

  /** The order quantity is logged as what was filled plus what rests. */
  function ResultRecord(r: SubmitResult): Record {
    Record(KindOf(r.status), r.sequence, 0,
           OrderPayload(r.orderId, 0, r.instrument, if r.side.Buy? then 0 else 1, if r.kind.Market? then 0 else 1,
                        r.price, r.filled + r.resting),
           NO_TRADE, Ascii(r.reason))
  }

  /** The records of one submission; `clock` stamps each trade. */
  function Logged(out: Outcome, clock: nat -> nat): seq<Record> {
    TradeRecords(out.trades, clock) + [ResultRecord(out.result)]
  }

  function TradeRecords(ts: seq<Trade>, clock: nat -> nat): (rs: seq<Record>)
    ensures |rs| == |ts|
    ensures forall k :: 0 <= k < |rs| ==> rs[k].kind == TRADE
    decreases |ts|
  {
    if ts == [] then [] else [TradeRecord(ts[0], clock(ts[0].id))] + TradeRecords(ts[1..], clock)
  }

  function LogOf(e: Engine, ss: seq<Submission>, clock: nat -> nat): seq<Record>
    decreases |ss|
  {
    if ss == [] then [] else
      Logged(Submit(e, ss[0].order, ss[0].gate), clock) + LogOf(After(e, ss[0]), ss[1..], clock)
  }

  // ---- The replayer ---------------------------------------------------------------------------

  predicate Skipped(r: Record) {
    r.kind == TRADE || r.kind == REJECTED
  }

  predicate Resubmitted(r: Record) {
    r.kind == RESTED || r.kind == FILLED || r.kind == PARTIALLY_FILLED
  }

  /** The order resubmitted for a record. */
  function Rebuilt(r: Record): Order {
    Order(r.order.orderId, 0, r.order.instrument, if r.order.side == 0 then Buy else Sell,
          if r.order.qty > 0 then Limit else Market, GTC, r.order.price, r.order.qty, r.order.qty, 0, OrderStatus.New)
  }

  datatype Replayed = Replayed(applied: nat, engine: Engine)

  function ReplayFrom(e: Engine, rs: seq<Record>): Replayed
    decreases |rs|
  {
    if rs == [] then Replayed(0, e)
    else if Skipped(rs[0]) then
      var more := ReplayFrom(e, rs[1..]);
      more.(applied := more.applied + 1)
    else if Resubmitted(rs[0]) then
      var more := ReplayFrom(Submit(e, Rebuilt(rs[0]), None).engine, rs[1..]);
      more.(applied := more.applied + 1)
    else Replayed(0, e)
  }

  /** Replay stops at a record of any other kind. */
  lemma ReplayStopsAt(e: Engine, rs: seq<Record>)
    requires rs != [] && rs[0].kind !in {1, 2, 4, 5, 7}
    ensures ReplayFrom(e, rs) == Replayed(0, e)
  {
  }

  // ---- Resubmitting exactly what was filled ------------------------------------------------------

  lemma {:induction false} LotsNonNegative(s: seq<Order>, t: Order)
    requires forall i :: 0 <= i < |s| ==> s[i].remaining > 0
    ensures Lots(Sweep(s, t).fills) >= 0
    ensures Lots(Sweep(s, t).fills) == 0 ==> Sweep(s, t).fills == []
    decreases |s|
  {
    if Trading(s, t) {
      var q, f := Bite(s, t), Fill(s[0], Bite(s, t));
      if q < s[0].remaining {
        assert Lots([f][1..]) == 0;
      } else {
        LotsNonNegative(s[1..], Hit(t, q));
        assert ([f] + Sweep(s[1..], Hit(t, q)).fills)[1..] == Sweep(s[1..], Hit(t, q)).fills;
      }
    }
  }

  /** A taker of just the filled quantity produces the same fills and is exhausted by them. */
  lemma {:induction false} SweepExact(s: seq<Order>, t: Order)
    requires forall i :: 0 <= i < |s| ==> s[i].remaining > 0
    ensures var r := Sweep(s, t);
            Sweep(s, t.(remaining := Lots(r.fills))) == Swept(r.fills, r.rest, 0)
    decreases |s|
  {
    var r := Sweep(s, t);
    if Trading(s, t) {
      var q, f := Bite(s, t), Fill(s[0], Bite(s, t));
      if q < s[0].remaining {
        assert Lots([f][1..]) == 0;
      } else {
        var u := Hit(t, q);
        var more := Sweep(s[1..], u);
        SweepExact(s[1..], u);
        LotsNonNegative(s[1..], u);
        assert ([f] + more.fills)[1..] == more.fills;
        var exact := t.(remaining := Lots(r.fills));
        assert Bite(s, exact) == q;
        assert Hit(exact, q) == u.(remaining := Lots(more.fills));
      }
    }
  }

  // ---- One submission ---------------------------------------------------------------------------

  /** A new limit order as `submit_limit` builds it. */
  predicate NewLimit(o: Order) {
    o.id == INVALID_ID && o.kind.Limit? && o.remaining == o.quantity && o.status.New?
  }

  function Retaken(t: Order, qty: int): Order {
    Blurred(Origin, t).(quantity := qty, remaining := qty)
  }

  lemma RetakeWhole(b: Book, t: Order)
    requires t.kind.Limit? && t.remaining == t.quantity > 0
    requires Settle(b, t).result.status.FullyFilled? || Settle(b, t).result.status.Accepted?
    ensures var st := Settle(b, t);
            var again := Settle(BlurBook(Origin, b), Retaken(t, st.result.filled + st.result.resting));
            again.book == BlurBook(Origin, st.book) && |again.fills| == |st.fills|
  {
    hide Sweep;
    hide Insert;
    hide Insertable;
    hide BlurAll;
    var far := t.side.Opposite();
    var r := Sweep(b.Get(far), t);
    assert Retaken(t, t.quantity) == Blurred(Origin, t);
    SweepBlurs(Origin, b.Get(far), t);
    InsertBlurs(Origin, b.With(far, r.rest), t.(remaining := r.left));
    assert BlurBook(Origin, b).With(far, BlurAll(Origin, r.rest)) == BlurBook(Origin, b.With(far, r.rest));
    assert Blurred(Origin, t.(remaining := r.left)) == Blurred(Origin, t).(remaining := r.left);
  }

  /** An order that wants exactly what was filled sweeps the blurred side as the original swept its side. */
  lemma RetakenSweep(s: seq<Order>, t: Order)
    requires forall i :: 0 <= i < |s| ==> s[i].remaining > 0
    ensures var r := Sweep(s, t);
            Sweep(BlurAll(Origin, s), Retaken(t, Lots(r.fills))) == Swept(BlurFills(Origin, r.fills), BlurAll(Origin, r.rest), 0)
  {
    hide Sweep;
    hide Lots;
    hide BlurAll;
    hide BlurFills;
    var n := Lots(Sweep(s, t).fills);
    var exact := t.(quantity := n, remaining := n);
    SweepExact(s, t);
    SameSweep(s, t.(remaining := n), exact);
    SweepBlurs(Origin, s, exact);
    assert Retaken(t, n) == Blurred(Origin, exact);
  }

  lemma RetakePart(b: Book, t: Order)
    requires Valid(b) && t.kind.Limit? && t.remaining == t.quantity > 0
    requires Settle(b, t).result.status.PartiallyFilled?
    ensures var st := Settle(b, t);
            var again := Settle(BlurBook(Origin, b), Retaken(t, st.result.filled + st.result.resting));
            && st.result.filled > 0
            && again.book == BlurBook(Origin, st.book) && |again.fills| == |st.fills|
  {
    hide Sweep;
    hide Insert;
    hide Insertable;
    hide BlurAll;
    hide BlurFills;
    hide Lots;
    C.SettleFilled(b, t);
    var far := t.side.Opposite();
    RetakenSweep(b.Get(far), t);
    hide Valid;
    var rest := Sweep(b.Get(far), t).rest;
    assert BlurBook(Origin, b).Get(far) == BlurAll(Origin, b.Get(far));
    assert BlurBook(Origin, b).With(far, BlurAll(Origin, rest)) == BlurBook(Origin, b.With(far, rest));
    hide BlurBook;
  }

  lemma {:induction false} SameSweep(s: seq<Order>, t: Order, u: Order)
    requires u == t.(quantity := u.quantity)
    ensures Sweep(s, t) == Sweep(s, u)
    decreases |s|
  {
    if Trading(s, t) {
      SameSweep(s[1..], Hit(t, Bite(s, t)), Hit(u, Bite(s, t)));
    }
  }

  function BlurEngine(e: Engine): Engine {
    Engine(map i | i in e.books :: BlurBook(Origin, e.books[i]), e.next)
  }

  /** Unless the submission is an IOC order without a fill, replaying its result record repeats its effect. */
  lemma ReplayOne(e: Engine, s: Submission)
    requires AllValid(e) && Fresh(e) && NewLimit(s.order)
    requires !Submit(e, s.order, s.gate).result.status.Cancelled?
    ensures var r := ResultRecord(Submit(e, s.order, s.gate).result);
            if r.kind == REJECTED then After(e, s) == e
            else Resubmitted(r) && Submit(BlurEngine(e), Rebuilt(r), None).engine == BlurEngine(After(e, s))
  {
    var o := s.order;
    if Objection(e, o, s.gate).None? {
      NeverDuplicate(e, o, s.gate);
      var t, b := Sequenced(e, o), e.books[o.instrument];
      LimitStatus(b, t);
      if Settle(b, t).result.status.PartiallyFilled? {
        RetakePart(b, t);
      } else {
        RetakeWhole(b, t);
      }
      C.SettleFilled(b, t);
      SettleQuantities(b, t);
      ReplayAdmitted(e, s);
    }
  }

  lemma LimitStatus(b: Book, t: Order)
    requires t.kind.Limit? && Settle(b, t).result.reason != "duplicate order id"
    ensures !Settle(b, t).result.status.Rejected?
    ensures var r := Settle(b, t).result; r.orderId == t.id && r.instrument == t.instrument && r.side == t.side && r.price == t.price
  {
    hide Sweep;
    hide Insertable;
    hide Insert;
  }

  /** The logged quantity is a valid order quantity. */
  lemma SettleQuantities(b: Book, t: Order)
    requires Valid(b) && t.kind.Limit? && t.remaining == t.quantity && ValidQuantity(t.quantity)
    requires var st := Settle(b, t).result.status; st.FullyFilled? || st.Accepted? || st.PartiallyFilled?
    ensures ValidQuantity(Settle(b, t).result.filled + Settle(b, t).result.resting)
  {
    LeftAtMost(b.Get(t.side.Opposite()), t);
    C.LeftNonNegative(b.Get(t.side.Opposite()), t);
    hide Sweep;
    hide Insertable;
    hide Insert;
  }

  lemma ReplayAdmitted(e: Engine, s: Submission)
    requires NewLimit(s.order) && Objection(e, s.order, s.gate).None? && e.next > 0
    requires var st := Settle(e.books[s.order.instrument], Sequenced(e, s.order));
             var r := st.result;
             && !r.status.Rejected? && !r.status.Cancelled?
             && r.orderId == e.next && r.instrument == s.order.instrument && r.side == s.order.side && r.price == s.order.price
             && ValidQuantity(r.filled + r.resting)
             && var again := Settle(BlurBook(Origin, e.books[s.order.instrument]),
                                    Retaken(Sequenced(e, s.order), r.filled + r.resting));
                again.book == BlurBook(Origin, st.book) && |again.fills| == |st.fills|
    ensures var r := ResultRecord(Submit(e, s.order, s.gate).result);
            r.kind != REJECTED && Resubmitted(r) && Submit(BlurEngine(e), Rebuilt(r), None).engine == BlurEngine(After(e, s))
  {
    hide Settle;
    hide BlurBook;
    hide Trades;
    var r := ResultRecord(Submit(e, s.order, s.gate).result);
    assert Objection(BlurEngine(e), Rebuilt(r), None).None?;
    assert Sequenced(BlurEngine(e), Rebuilt(r)) == Retaken(Sequenced(e, s.order), r.order.qty);
    var i := s.order.instrument;
    assert BlurEngine(e).books[i] == BlurBook(Origin, e.books[i]);
    assert BlurEngine(After(e, s)).books == BlurEngine(e).books[i := BlurEngine(After(e, s)).books[i]];
  }

  // ---- Runs -----------------------------------------------------------------------------------------

  /** The submissions before the first IOC order that finds nothing to trade with. */
  function Replayable(e: Engine, ss: seq<Submission>): seq<Submission>
    decreases |ss|
  {
    if ss == [] || Submit(e, ss[0].order, ss[0].gate).result.status.Cancelled? then []
    else [ss[0]] + Replayable(After(e, ss[0]), ss[1..])
  }

  lemma {:induction false} SkipTrades(e: Engine, ts: seq<Record>, rs: seq<Record>)
    requires forall k :: 0 <= k < |ts| ==> ts[k].kind == TRADE
    ensures var more := ReplayFrom(e, rs);
            ReplayFrom(e, ts + rs) == Replayed(|ts| + more.applied, more.engine)
    decreases |ts|
  {
    if ts == [] {
      assert ts + rs == rs;
    } else {
      assert (ts + rs)[1..] == ts[1..] + rs;
      SkipTrades(e, ts[1..], rs);
    }
  }

  lemma ReplayLogged(e: Engine, s: Submission, clock: nat -> nat, rs: seq<Record>)
    requires AllValid(e) && Fresh(e) && NewLimit(s.order)
    requires !Submit(e, s.order, s.gate).result.status.Cancelled?
    ensures var log := Logged(Submit(e, s.order, s.gate), clock);
            var more := ReplayFrom(BlurEngine(After(e, s)), rs);
            ReplayFrom(BlurEngine(e), log + rs) == Replayed(|log| + more.applied, more.engine)
  {
    var out := Submit(e, s.order, s.gate);
    hide Submit;
    hide BlurEngine;
    hide Rebuilt;
    ReplayOne(e, s);
    var last := ResultRecord(out.result);
    var ts := TradeRecords(out.trades, clock);
    assert Logged(out, clock) + rs == ts + ([last] + rs);
    SkipTrades(BlurEngine(e), ts, [last] + rs);
    assert ([last] + rs)[1..] == rs;
  }

  /** An IOC order without a fill logs a single record, which stops the replay. */
  lemma ReplayStops(e: Engine, s: Submission, clock: nat -> nat, rs: seq<Record>)
    requires AllValid(e) && NewLimit(s.order) && Submit(e, s.order, s.gate).result.status.Cancelled?
    ensures var log := Logged(Submit(e, s.order, s.gate), clock);
            |log| == 1 && ReplayFrom(BlurEngine(e), log + rs) == Replayed(0, BlurEngine(e))
  {
    assert Objection(e, s.order, s.gate).None?;
    var t, b := Sequenced(e, s.order), e.books[s.order.instrument];
    UnfilledIsEmpty(b, t);
    hide Settle;
    hide BlurEngine;
    var log := Logged(Submit(e, s.order, s.gate), clock);
    assert log[0] == ResultRecord(Submit(e, s.order, s.gate).result);
  }

  lemma UnfilledIsEmpty(b: Book, t: Order)
    requires Valid(b) && t.remaining == t.quantity > 0 && Settle(b, t).result.status.Cancelled?
    ensures Settle(b, t).fills == []
  {
    C.SettleFilled(b, t);
    LotsNonNegative(b.Get(t.side.Opposite()), t);
    hide Sweep;
    hide Insert;
    hide Insertable;
    hide Lots;
  }

  /**
   Replaying the log of a run rebuilds the engine as it was before the first IOC order that
   found nothing, and reports the index of that order's record, or the length of the log.
   */
  lemma {:induction false} ReplayRebuilds(e: Engine, ss: seq<Submission>, clock: nat -> nat)
    requires AllValid(e) && Fresh(e) && forall k :: 0 <= k < |ss| ==> NewLimit(ss[k].order)
    ensures var done := Replayable(e, ss);
            && ReplayFrom(BlurEngine(e), LogOf(e, ss, clock)) == Replayed(|LogOf(e, done, clock)|, BlurEngine(RunAll(e, done)))
            && LogOf(e, done, clock) <= LogOf(e, ss, clock)
            && (|done| < |ss| ==>
                  var n := |LogOf(e, done, clock)|; n < |LogOf(e, ss, clock)| && LogOf(e, ss, clock)[n].kind == CANCELLED)
    decreases |ss|
  {
    hide Submit;
    hide BlurEngine;
    hide Logged;
    if ss != [] {
      var out, later := Submit(e, ss[0].order, ss[0].gate), LogOf(After(e, ss[0]), ss[1..], clock);
      if out.result.status.Cancelled? {
        ReplayStops(e, ss[0], clock, later);
        CancelledRecord(out, clock);
      } else {
        ReplayLogged(e, ss[0], clock, later);
        StepValid(e, Enter(ss[0].order, ss[0].gate));
        StepFresh(e, Enter(ss[0].order, ss[0].gate));
        ReplayRebuilds(After(e, ss[0]), ss[1..], clock);
        var done := Replayable(After(e, ss[0]), ss[1..]);
        assert Replayable(e, ss)[1..] == done;
      }
    }
  }

  lemma CancelledRecord(out: Outcome, clock: nat -> nat)
    requires out.result.status.Cancelled?
    ensures Logged(out, clock) != [] && Logged(out, clock)[|Logged(out, clock)| - 1].kind == CANCELLED
  {
  }

  // ---- Through the file --------------------------------------------------------------------------------

  /** Replay reads only what the log keeps. */
  lemma {:induction false} ReplayPersisted(e: Engine, rs: seq<Record>)
    ensures ReplayFrom(e, PersistedAll(rs)) == ReplayFrom(e, rs)
    decreases |rs|
  {
    if rs != [] {
      hide Submit;
      assert PersistedAll(rs)[1..] == PersistedAll(rs[1..]);
      assert PersistedAll(rs)[0] == Persisted(rs[0]);
      ReplayPersisted(e, rs[1..]);
      if Resubmitted(rs[0]) {
        assert Rebuilt(Persisted(rs[0])) == Rebuilt(rs[0]);
        ReplayPersisted(Submit(e, Rebuilt(rs[0]), None).engine, rs[1..]);
      }
    }
  }

  lemma OpenedReady(instruments: set<nat>)
    ensures var e := Opened(instruments); BlurEngine(e) == e && AllValid(e) && Fresh(e)
  {
    var e := Opened(instruments);
    assert BlurAll(Origin, []) == [];
    assert BlurEngine(e).books == e.books;
  }

  /** A run written to a log file, read back and replayed into a fresh engine with the same instruments. */
  lemma Recovery(instruments: set<nat>, ss: seq<Submission>, clock: nat -> nat)
    requires forall k :: 0 <= k < |ss| ==> NewLimit(ss[k].order)
    requires forall k :: 0 <= k < |LogOf(Opened(instruments), ss, clock)| ==> Encodable(LogOf(Opened(instruments), ss, clock)[k])
    ensures var done := Replayable(Opened(instruments), ss);
            ReplayFrom(Opened(instruments), ReadAll(HEADER + EncodeAll(LogOf(Opened(instruments), ss, clock)))) ==
            Replayed(|LogOf(Opened(instruments), done, clock)|, BlurEngine(RunAll(Opened(instruments), done)))
  {
    var e := Opened(instruments);
    OpenedReady(instruments);
    hide ReplayFrom;
    hide LogOf;
    hide ReadAll;
    hide EncodeAll;
    LogRoundTrip(LogOf(e, ss, clock));
    ReplayPersisted(e, LogOf(e, ss, clock));
    ReplayRebuilds(e, ss, clock);
  }
}
