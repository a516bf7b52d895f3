/**
 Recovery from a log that was cut short: replay gives the engine after the submissions whose
 result record is complete. Of a record cut in two, the order counts if its quantity was
 written, and is refused if the quantity was not begun.
 */
module TornLogs {
  import opened Types
  import opened BookSpec
  import opened EngineSpec
  import opened Safety
  import opened Ids
  import opened Bytes
  import opened EventLogs
  import opened Replay

  /** Where the quantity of an order record begins and ends. */
  const QTY_BEGIN: nat := 43
  const QTY_END: nat := 51

  // ---- Replaying a log in two parts ------------------------------------------------------------

  /** Replay goes on to the second part exactly when it did not stop in the first. */
  lemma {:induction false} ReplayConcat(e: Engine, rs: seq<Record>, qs: seq<Record>)
    ensures var first := ReplayFrom(e, rs);
            var more := ReplayFrom(first.engine, qs);
            && first.applied <= |rs|
            && ReplayFrom(e, rs + qs) ==
               if first.applied < |rs| then first else Replayed(|rs| + more.applied, more.engine)
    decreases |rs|
  {
    hide Submit;
    hide Rebuilt;
    if rs == [] {
      assert rs + qs == qs;
    } else {
      assert (rs + qs)[1..] == rs[1..] + qs && (rs + qs)[0] == rs[0];
      if Skipped(rs[0]) {
        ReplayConcat(e, rs[1..], qs);
      } else if Resubmitted(rs[0]) {
        ReplayConcat(Submit(e, Rebuilt(rs[0]), None).engine, rs[1..], qs);
      }
    }
  }

  /** The submissions whose records all lie among the first k. */
  function Finished(e: Engine, ss: seq<Submission>, clock: nat -> nat, k: nat): (m: nat)
    ensures m <= |ss|
    decreases |ss|
  {
    if ss == [] then 0 else
      var first := Logged(Submit(e, ss[0].order, ss[0].gate), clock);
      if k < |first| then 0 else 1 + Finished(After(e, ss[0]), ss[1..], clock, k - |first|)
  }

  /** The first k records are those of the finished submissions, and trades of the next one. */
  lemma {:induction false} CutRun(e: Engine, ss: seq<Submission>, clock: nat -> nat, k: nat)
    requires k <= |LogOf(e, ss, clock)|
    ensures var whole := LogOf(e, ss[..Finished(e, ss, clock, k)], clock);
            && whole <= LogOf(e, ss, clock)[..k]
            && forall j :: |whole| <= j < k ==> LogOf(e, ss, clock)[j].kind == TRADE
    decreases |ss|
  {
    hide Submit;
    var m := Finished(e, ss, clock, k);
    if ss == [] || m == 0 {
      assert ss[..m] == [];
    } else {
      var first, later := Logged(Submit(e, ss[0].order, ss[0].gate), clock), LogOf(After(e, ss[0]), ss[1..], clock);
      hide Logged;
      CutRun(After(e, ss[0]), ss[1..], clock, k - |first|);
      assert ss[..m][0] == ss[0] && ss[..m][1..] == ss[1..][..m - 1];
      assert (first + later)[..k] == first + later[..k - |first|];
    }
  }

  lemma {:induction false} ReplayablePrefix(e: Engine, ss: seq<Submission>)
    ensures Replayable(e, ss) <= ss
    decreases |ss|
  {
    hide Submit;
    if ss != [] && !Submit(e, ss[0].order, ss[0].gate).result.status.Cancelled? {
      ReplayablePrefix(After(e, ss[0]), ss[1..]);
    }
  }

  /** Replaying the first k records of a run's log. */
  lemma ReplayCut(e: Engine, ss: seq<Submission>, clock: nat -> nat, k: nat)
    requires AllValid(e) && Fresh(e) && (forall i :: 0 <= i < |ss| ==> NewLimit(ss[i].order)) && k <= |LogOf(e, ss, clock)|
    ensures var m := Finished(e, ss, clock, k);
            var done := Replayable(e, ss[..m]);
            && |done| <= m
            && ReplayFrom(BlurEngine(e), LogOf(e, ss, clock)[..k]) ==
               Replayed(if |done| < m then |LogOf(e, done, clock)| else k, BlurEngine(RunAll(e, done)))
            && (|done| < m ==> |LogOf(e, done, clock)| < k)
  {
    hide LogOf;
    hide ReplayFrom;
    hide Replayable;
    hide RunAll;
    hide Finished;
    hide BlurEngine;
    hide NewLimit;
    var m := Finished(e, ss, clock, k);
    var whole := LogOf(e, ss[..m], clock);
    var done := Replayable(e, ss[..m]);
    CutRun(e, ss, clock, k);
    ReplayRebuilds(e, ss[..m], clock);
    ReplayablePrefix(e, ss[..m]);
    assert |done| == m ==> done == ss[..m];
    ReplayThenTrades(BlurEngine(e), whole, LogOf(e, ss, clock)[..k]);
  }

  /** Trades at the end of a log only count. */
  lemma ReplayThenTrades(e: Engine, rs: seq<Record>, all: seq<Record>)
    requires rs <= all && forall j :: |rs| <= j < |all| ==> all[j].kind == TRADE
    ensures var first := ReplayFrom(e, rs);
            ReplayFrom(e, all) == if first.applied < |rs| then first else Replayed(|all|, first.engine)
  {
    hide ReplayFrom;
    var rest := all[|rs|..];
    assert all == rs + rest && rest + [] == rest;
    ReplayConcat(e, rs, rest);
    var f := ReplayFrom(e, rs).engine;
    SkipTrades(f, rest, []);
    ReplayNothing(f);
  }

  lemma ReplayNothing(e: Engine)
    ensures ReplayFrom(e, []) == Replayed(0, e)
  {
  }

  // ---- The record that was cut in two ----------------------------------------------------------

  lemma QuantityPlace(kind: Byte)
    requires kind != TRADE
    ensures var ws := AllWidths(kind);
            && |ws| == 9 && Sum(ws[..8]) == QTY_BEGIN && Sum(ws[..9]) == QTY_END
            && Sum(ws[..4]) <= QTY_END && Sum(ws[..5]) <= QTY_END && Sum(ws[..6]) <= QTY_END
  {
    assert AllWidths(kind) == [1, 8, 8, 8, 8, 1, 1, 8, 8];
    hide AllWidths;
    RunningSums(AllWidths(kind));
  }

  lemma RunningSums(ws: seq<nat>)
    requires ws == [1, 8, 8, 8, 8, 1, 1, 8, 8]
    ensures Sum(ws[..4]) == 25 && Sum(ws[..5]) == 33 && Sum(ws[..6]) == 34
    ensures Sum(ws[..8]) == QTY_BEGIN && Sum(ws[..9]) == QTY_END
  {
    assert ws[..0] == [];
    assert Sum(ws[..0]) == 0;
    hide Sum;
    SumNext(ws, 0);
    SumNext(ws, 1);
    SumNext(ws, 2);
    SumNext(ws, 3);
    SumNext(ws, 4);
    SumNext(ws, 5);
    SumNext(ws, 6);
    SumNext(ws, 7);
    SumNext(ws, 8);
  }

  lemma SumNext(ws: seq<nat>, j: nat)
    requires j < |ws|
    ensures Sum(ws[..j + 1]) == Sum(ws[..j]) + ws[j]
  {
    assert ws[..j + 1] == ws[..j] + [ws[j]];
    SumSnoc(ws[..j], ws[j]);
  }

  lemma OrderValues(x: Record)
    requires x.kind != TRADE
    ensures |AllValues(x)| == 9
    ensures AllValues(x)[3] == x.order.orderId && AllValues(x)[4] == x.order.instrument && AllValues(x)[5] == x.order.side
    ensures AllValues(x)[7] == Wrap(x.order.price) && AllValues(x)[8] == Wrap(x.order.qty)
  {
  }

  lemma {:induction false} SumSnoc(ws: seq<nat>, w: nat)
    ensures Sum(ws + [w]) == Sum(ws) + w
    decreases |ws|
  {
    if ws == [] {
      assert ws + [w] == [w] && [w][1..] == [];
    } else {
      assert (ws + [w])[1..] == ws[1..] + [w];
      SumSnoc(ws[1..], w);
    }
  }

  /** With its quantity written, a torn order record resubmits the order of the whole one. */
  lemma TornOrderKept(x: Record, r: Record, m: nat)
    requires Torn(x, r, m) && Encodable(r) && r.kind != TRADE && m >= QTY_END
    ensures Rebuilt(x) == Rebuilt(r)
  {
    QuantityPlace(r.kind);
    OrderValues(x);
    OrderValues(r);
    hide Sum;
    hide AllValues;
    hide AllWidths;
    hide Wrap;
    hide FromPattern;
    PatternRoundTrip(x.order.price);
    PatternRoundTrip(r.order.price);
    PatternRoundTrip(x.order.qty);
    PatternRoundTrip(r.order.qty);
  }

  /** With its quantity not begun, it resubmits an order of no quantity, which is refused. */
  lemma TornOrderRefused(e: Engine, x: Record, r: Record, m: nat)
    requires Torn(x, r, m) && r.kind != TRADE && m <= QTY_BEGIN
    ensures Submit(e, Rebuilt(x), None).engine == e
  {
    QuantityPlace(r.kind);
    OrderValues(x);
    hide Sum;
    hide AllValues;
    hide AllWidths;
    assert Wrap(x.order.qty) == 0;
    PatternRoundTrip(x.order.qty);
    assert FromPattern(0) == 0;
    assert x.order.qty == 0;
    assert Objection(e, Rebuilt(x), None).Some?;
  }

  /** Replaying a torn record whose cut is not inside its quantity. */
  lemma ReplayTorn(e: Engine, x: Record, r: Record, m: nat)
    requires Torn(x, r, m) && Encodable(r) && (Resubmitted(r) ==> m <= QTY_BEGIN || m >= QTY_END)
    requires Skipped(r) || Resubmitted(r) || r.kind == CANCELLED
    ensures ReplayFrom(e, [x]) ==
            if r.kind == CANCELLED then Replayed(0, e)
            else if Resubmitted(r) && m >= QTY_END then ReplayFrom(e, [r])
            else Replayed(1, e)
  {
    assert x.kind == r.kind;
    hide Torn;
    hide Submit;
    hide Rebuilt;
    assert [x][1..] == [] && [r][1..] == [];
    if Resubmitted(r) {
      if m >= QTY_END {
        TornOrderKept(x, r, m);
      } else {
        TornOrderRefused(e, x, r, m);
      }
      ReplayNothing(Submit(e, Rebuilt(x), None).engine);
    } else {
      ReplayNothing(e);
    }
  }

  lemma {:induction false} LogKinds(e: Engine, ss: seq<Submission>, clock: nat -> nat, k: nat)
    requires k < |LogOf(e, ss, clock)|
    ensures var r := LogOf(e, ss, clock)[k]; Skipped(r) || Resubmitted(r) || r.kind == CANCELLED
    decreases |ss|
  {
    hide Submit;
    var first := Logged(Submit(e, ss[0].order, ss[0].gate), clock);
    if k >= |first| {
      LogKinds(After(e, ss[0]), ss[1..], clock, k - |first|);
    }
  }

  /** Replaying the first k records and what is left of the next one. */
  lemma ReplayCutTorn(e: Engine, ss: seq<Submission>, clock: nat -> nat, k: nat, x: Record, m: nat)
    requires AllValid(e) && Fresh(e) && (forall i :: 0 <= i < |ss| ==> NewLimit(ss[i].order)) && k < |LogOf(e, ss, clock)|
    requires var r := LogOf(e, ss, clock)[k];
             Torn(x, r, m) && Encodable(r) && (Resubmitted(r) ==> m <= QTY_BEGIN || m >= QTY_END)
    ensures var log := LogOf(e, ss, clock);
            var counted := if Resubmitted(log[k]) && m >= QTY_END then k + 1 else k;
            var f := Finished(e, ss, clock, counted);
            var done := Replayable(e, ss[..f]);
            ReplayFrom(BlurEngine(e), log[..k] + [x]) ==
            Replayed(if |done| < f then |LogOf(e, done, clock)| else if log[k].kind == CANCELLED then k else k + 1,
                     BlurEngine(RunAll(e, done)))
  {
    hide LogOf;
    hide ReplayFrom;
    hide Replayable;
    hide RunAll;
    hide Finished;
    hide BlurEngine;
    hide NewLimit;
    hide Torn;
    hide Encodable;
    var log := LogOf(e, ss, clock);
    ReplayCut(e, ss, clock, k);
    LogKinds(e, ss, clock, k);
    ReplayTorn(ReplayFrom(BlurEngine(e), log[..k]).engine, x, log[k], m);
    ReplayConcat(BlurEngine(e), log[..k], [x]);
    if Resubmitted(log[k]) && m >= QTY_END {
      ReplayConcat(BlurEngine(e), log[..k], [log[k]]);
      assert log[..k + 1] == log[..k] + [log[k]];
      ReplayCut(e, ss, clock, k + 1);
    }
  }

  lemma SameStart(e: Engine, ps: seq<Record>, rs: seq<Record>, x: Record)
    requires |ps| == |rs| && ReplayFrom(e, ps) == ReplayFrom(e, rs)
    ensures ReplayFrom(e, ps + [x]) == ReplayFrom(e, rs + [x])
  {
    hide ReplayFrom;
    ReplayConcat(e, ps, [x]);
    ReplayConcat(e, rs, [x]);
  }

  // ---- Recovery ------------------------------------------------------------------------------

  /** How far a file cut n bytes behind its header reaches into the record it splits. */
  function Into(log: seq<Record>, n: nat): int {
    n - |EncodeAll(log[..Complete(log, n)])|
  }

  predicate Splits(log: seq<Record>, n: nat) {
    Into(log, n) > 0 && Complete(log, n) < |log|
  }

  /** The cut falls inside the quantity of an order that replay would resubmit. */
  predicate InsideQuantity(log: seq<Record>, n: nat) {
    Splits(log, n) && Resubmitted(log[Complete(log, n)]) && QTY_BEGIN < Into(log, n) < QTY_END
  }

  /** How many records count: those complete, and one whose order was written before the cut. */
  function Counted(log: seq<Record>, n: nat): (k: nat)
    ensures k <= |log|
  {
    var k := Complete(log, n);
    if Splits(log, n) && Resubmitted(log[k]) && Into(log, n) >= QTY_END then k + 1 else k
  }

  /**
   Reading back a log that was cut anywhere but inside a quantity, and replaying it into a fresh
   engine, gives the engine after the submissions that are finished in it, up to the first IOC
   order that found nothing.
   */
  lemma TornRecovery(instruments: set<nat>, ss: seq<Submission>, clock: nat -> nat, n: nat)
    requires forall i :: 0 <= i < |ss| ==> NewLimit(ss[i].order)
    requires var log := LogOf(Opened(instruments), ss, clock);
             (forall i :: 0 <= i < |log| ==> Encodable(log[i])) && n <= |EncodeAll(log)| && !InsideQuantity(log, n)
    ensures var e, log := Opened(instruments), LogOf(Opened(instruments), ss, clock);
            var k, m := Complete(log, n), Finished(e, ss, clock, Counted(log, n));
            var done := Replayable(e, ss[..m]);
            ReplayFrom(e, ReadAll((HEADER + EncodeAll(log))[..HEADER_SIZE + n])) ==
            Replayed(if |done| < m then |LogOf(e, done, clock)|
                     else if Splits(log, n) && log[k].kind != CANCELLED then k + 1 else k,
                     BlurEngine(RunAll(e, done)))
  {
    hide LogOf;
    hide ReplayFrom;
    hide ReadAll;
    hide EncodeAll;
    hide Complete;
    hide Finished;
    hide Replayable;
    hide RunAll;
    hide Torn;
    hide Encodable;
    hide NewLimit;
    hide BlurEngine;
    hide Opened;
    var e := Opened(instruments);
    var log := LogOf(e, ss, clock);
    var k := Complete(log, n);
    OpenedReady(instruments);
    CutLog(log, n);
    var out := ReadAll((HEADER + EncodeAll(log))[..HEADER_SIZE + n]);
    ReplayPersisted(e, log[..k]);
    if Splits(log, n) {
      assert out == PersistedAll(log[..k]) + [out[k]];
      SameStart(e, PersistedAll(log[..k]), log[..k], out[k]);
      ReplayCutTorn(e, ss, clock, k, out[k], Into(log, n));
    } else {
      assert out == PersistedAll(log[..k]);
      ReplayCut(e, ss, clock, k);
    }
  }
}
