/** The persisting sink and the replayer, acting on a log file and on an engine. */
module Replayers {
  import opened Types
  import opened EngineSpec
  import opened Engines
  import opened EventLogs
  import opened Replay
  import opened Transcripts

  class PersistingSink {
    const log: EventLog

    constructor (log: EventLog)
      ensures this.log == log
    {
      this.log := log;
    }

    method OnTrade(t: Trade, timestamp: nat)
      modifies log
      ensures log.writing == old(log.writing)
      ensures log.file == if log.writing then old(log.file) + Encode(TradeRecord(t, timestamp)) else old(log.file)
      ensures KeepsTrade(Persisted(TradeRecord(t, timestamp)), t, timestamp)
    {
      log.Append(TradeRecord(t, timestamp));
    }

    method OnSubmitResult(r: SubmitResult)
      modifies log
      ensures log.writing == old(log.writing)
      ensures log.file == if log.writing then old(log.file) + Encode(ResultRecord(r)) else old(log.file)
      ensures KeepsResult(Persisted(ResultRecord(r)), r)
    {
      log.Append(ResultRecord(r));
    }
  }

  /** Apply records in order, stopping at the first kind that is not supported. */
  method ReplayInto(engine: MatchingEngine, records: seq<Record>) returns (applied: nat)
    requires engine.Valid()
    modifies engine`next, engine.books.Values, set i, x | i in engine.books && x in engine.books[i].Repr :: x
    ensures engine.Valid()
    ensures Replayed(applied, engine.View()) == ReplayFrom(old(engine.View()), records)
  {
    hide MatchingEngine.Valid;
    hide MatchingEngine.View;
    hide Submit;
    applied := 0;
    ghost var all := ReplayFrom(engine.View(), records);
    while applied < |records|
      invariant engine.Valid() && engine.books == old(engine.books)
      invariant forall i :: i in engine.books ==> fresh(engine.books[i].Repr - old(engine.books[i].Repr))
      invariant 0 <= applied <= |records|
      invariant var on := ReplayFrom(engine.View(), records[applied..]);
                all == Replayed(applied + on.applied, on.engine)
    {
      var r := records[applied];
      assert records[applied..][0] == r && records[applied..][1..] == records[applied + 1..];
      if r.kind == TRADE || r.kind == REJECTED {
        applied := applied + 1;
        continue;
      }
      if r.kind == RESTED || r.kind == FILLED || r.kind == PARTIALLY_FILLED {
        var sink := SubmitOrder(engine, Rebuilt(r), None);
        applied := applied + 1;
        continue;
      }
      break;
    }
  }
}
