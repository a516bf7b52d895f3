/** What a log says, field by field: every trade of a run, and every result, in order. */
module Transcripts {
  import opened Types
  import opened BookSpec
  import opened EngineSpec
  import opened Bytes
  import opened EventLogs
  import opened Replay

  /** A record that keeps this trade. */
  ghost predicate KeepsTrade(r: Record, t: Trade, timestamp: nat) {
    r.kind == 7 && r.sequence == t.sequence && r.timestamp == timestamp && r.trade == t.(sequence := 0)
  }

  /** The number under which a status is logged. */
  ghost predicate Numbered(kind: Byte, s: SubmitStatus) {
    && (s.Accepted? ==> kind == 1)
    && (s.Rejected? ==> kind == 2)
    && (s.Cancelled? ==> kind == 3)
    && (s.FullyFilled? ==> kind == 4)
    && (s.PartiallyFilled? ==> kind == 5)
  }

  /** A record that keeps this result. */
  ghost predicate KeepsResult(r: Record, x: SubmitResult) {
    && Numbered(r.kind, x.status) && r.sequence == x.sequence && r.timestamp == 0
    && r.order.orderId == x.orderId && r.order.instrument == x.instrument
    && r.order.side == (if x.side.Buy? then 0 else 1) && r.order.kind == (if x.kind.Market? then 0 else 1)
    && r.order.price == x.price && r.order.qty == x.filled + x.resting
    && |r.reason| == |x.reason| && forall k :: 0 <= k < |x.reason| ==> r.reason[k] == x.reason[k] as int % 256
  }

  lemma TradeKept(t: Trade, timestamp: nat)
    ensures KeepsTrade(Persisted(TradeRecord(t, timestamp)), t, timestamp)
  {
  }

  lemma ResultKept(x: SubmitResult)
    ensures KeepsResult(Persisted(ResultRecord(x)), x)
  {
  }

  /** The records tell the run: the trades of each submission, then its result. */
  ghost predicate Tells(rs: seq<Record>, e: Engine, ss: seq<Submission>, clock: nat -> nat)
    decreases |ss|
  {
    if ss == [] then rs == [] else
      var out := Submit(e, ss[0].order, ss[0].gate);
      var n := |out.trades|;
      && |rs| > n
      && (forall k :: 0 <= k < n ==> KeepsTrade(rs[k], out.trades[k], clock(out.trades[k].id)))
      && KeepsResult(rs[n], out.result)
      && Tells(rs[n + 1..], After(e, ss[0]), ss[1..], clock)
  }

  lemma {:induction false} TradeRecordAt(ts: seq<Trade>, clock: nat -> nat, k: nat)
    requires k < |ts|
    ensures TradeRecords(ts, clock)[k] == TradeRecord(ts[k], clock(ts[k].id))
    decreases |ts|
  {
    if k > 0 {
      TradeRecordAt(ts[1..], clock, k - 1);
    }
  }

  lemma {:induction false} PersistedTells(e: Engine, ss: seq<Submission>, clock: nat -> nat)
    ensures Tells(PersistedAll(LogOf(e, ss, clock)), e, ss, clock)
    decreases |ss|
  {
    hide Submit;
    hide KeepsTrade;
    hide KeepsResult;
    hide Persisted;
    hide TradeRecord;
    hide ResultRecord;
    if ss != [] {
      var out, later := Submit(e, ss[0].order, ss[0].gate), LogOf(After(e, ss[0]), ss[1..], clock);
      var log, n := LogOf(e, ss, clock), |out.trades|;
      forall k | 0 <= k < n ensures KeepsTrade(Persisted(log[k]), out.trades[k], clock(out.trades[k].id)) {
        TradeRecordAt(out.trades, clock, k);
        TradeKept(out.trades[k], clock(out.trades[k].id));
      }
      ResultKept(out.result);
      assert log[n] == ResultRecord(out.result);
      assert log[n + 1..] == later;
      assert PersistedAll(log)[n + 1..] == PersistedAll(later);
      PersistedTells(After(e, ss[0]), ss[1..], clock);
    }
  }

  /** Reading back the log of a run tells the run. */
  lemma LogTells(e: Engine, ss: seq<Submission>, clock: nat -> nat)
    requires forall k :: 0 <= k < |LogOf(e, ss, clock)| ==> Encodable(LogOf(e, ss, clock)[k])
    ensures Tells(ReadAll(HEADER + EncodeAll(LogOf(e, ss, clock))), e, ss, clock)
  {
    hide LogOf;
    hide ReadAll;
    hide EncodeAll;
    hide Tells;
    LogRoundTrip(LogOf(e, ss, clock));
    PersistedTells(e, ss, clock);
  }
}
