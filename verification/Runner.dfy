/** Whole runs on the mutable engine: lists of commands, and submissions through a log file. */
module Runners {
  import opened Types
  import opened BookSpec
  import opened EngineSpec
  import opened Safety
  import opened Lifecycle
  import opened Engines
  import opened Bytes
  import opened EventLogs
  import opened Replay
  import opened Replayers

  /** Carry out a command that leaves the set of instruments alone. */
  method ApplyToBook(engine: MatchingEngine, c: Command)
    requires engine.Valid() && Allowed(engine.View(), c) && !c.Register? && !c.Unregister?
    modifies engine`next, engine.books.Values, set i, x | i in engine.books && x in engine.books[i].Repr :: x
    ensures engine.Valid() && engine.View() == Next(old(engine.View()), c) && engine.books == old(engine.books)
    ensures forall i :: i in engine.books ==> fresh(engine.books[i].Repr - old(engine.books[i].Repr))
  {
    hide MatchingEngine.Valid;
    hide MatchingEngine.View;
    hide EngineSpec.Submit;
    hide BookSpec.Cancel;
    hide BookSpec.Modify;
    hide BookSpec.Reduce;
    hide Cancellable;
    hide Reducible;
    hide ModifyKind;
    match c {
      case Enter(o, gate) => var sink := SubmitOrder(engine, o, gate);
      case Withdraw(i, id) => var ok := engine.Cancel(i, id);
      case Change(i, id, qty, price) => var r := engine.Modify(i, id, qty, price);
      case Trim(i, id, qty) => var ok := engine.Reduce(i, id, qty);
    }
  }

  /**
   Carry out one command as the engine on values does. What the engine owns afterwards, it
   owned before or got since.
   */
  method Apply(engine: MatchingEngine, c: Command)
    requires engine.Valid() && Allowed(engine.View(), c)
    modifies engine, engine.books.Values, set i, x | i in engine.books && x in engine.books[i].Repr :: x
    ensures engine.Valid() && engine.View() == Next(old(engine.View()), c)
    ensures forall i :: i in engine.books ==> engine.books[i] in old(engine.books.Values) || fresh(engine.books[i])
    ensures forall i, x :: i in engine.books && x in engine.books[i].Repr ==>
              x in old(set j, y | j in engine.books && y in engine.books[j].Repr :: y) || fresh(x)
  {
    hide MatchingEngine.Valid;
    hide MatchingEngine.View;
    hide Next;
    hide Allowed;
    match c {
      case Register(i) => engine.RegisterInstrument(i);
      case Unregister(i) => var ok := engine.UnregisterInstrument(i);
      case _ => ApplyToBook(engine, c);
    }
  }

  /** The engine with its linked books carries out every allowed run as the engine on values does. */
  method RunCommands(engine: MatchingEngine, cs: seq<Command>)
    requires engine.Valid() && AllowedRun(engine.View(), cs)
    modifies engine, engine.books.Values, set i, x | i in engine.books && x in engine.books[i].Repr :: x
    ensures engine.Valid() && engine.View() == Run(old(engine.View()), cs)
  {
    hide MatchingEngine.Valid;
    hide MatchingEngine.View;
    hide Next;
    hide Allowed;
    var k := 0;
    while k < |cs|
      invariant 0 <= k <= |cs| && engine.Valid()
      invariant forall i :: i in engine.books ==> engine.books[i] in old(engine.books.Values) || fresh(engine.books[i])
      invariant forall i, x :: i in engine.books && x in engine.books[i].Repr ==>
                  x in old(set j, y | j in engine.books && y in engine.books[j].Repr :: y) || fresh(x)
      invariant AllowedRun(engine.View(), cs[k..])
      invariant Run(engine.View(), cs[k..]) == Run(old(engine.View()), cs)
    {
      assert cs[k..][0] == cs[k] && cs[k..][1..] == cs[k + 1..];
      Apply(engine, cs[k]);
      k := k + 1;
    }
  }

  /** No run of harmless commands crosses a book of a sound engine, and all of them can be carried out. */
  method RunSafely(engine: MatchingEngine, cs: seq<Command>)
    requires engine.Valid() && Sound(engine.View()) && HarmlessRun(engine.View(), cs)
    modifies engine, engine.books.Values, set i, x | i in engine.books && x in engine.books[i].Repr :: x
    ensures engine.Valid() && engine.View() == Run(old(engine.View()), cs) && Sound(engine.View())
  {
    RunSound(engine.View(), cs);
    hide MatchingEngine.Valid;
    hide MatchingEngine.View;
    hide Sound;
    RunCommands(engine, cs);
  }

  /** Withdrawing any resting order of a working engine succeeds, and removes just that order. */
  method WithdrawResting(engine: MatchingEngine, i: nat, id: nat, ghost side: Side, ghost k: nat) returns (ok: bool)
    requires engine.Valid() && AllWorking(engine.View())
    requires i in engine.View().books && k < |engine.View().books[i].Get(side)| && engine.View().books[i].Get(side)[k].id == id
    modifies engine.Footprint(i)
    ensures engine.Valid() && ok && Withdrawn(old(engine.View()), engine.View(), i, side, k)
  {
    hide MatchingEngine.Valid;
    hide MatchingEngine.View;
    hide OrderBooks.OrderBook.View;
    hide OrderBooks.OrderBook.ValidWith;
    hide AllValid;
    hide AllWorking;
    hide Cancellable;
    hide Next;
    hide Withdrawn;
    ViewsValid(engine);
    engine.ViewAt();
    WithdrawRemoves(engine.View(), i, side, k);
    ok := engine.Cancel(i, id);
  }

  // ---- Submissions through the log -----------------------------------------------------------

  /** What a submission emitted, written to the log. */
  method Persist(sink: PersistingSink, trades: seq<Trade>, result: SubmitResult, clock: nat -> nat)
    requires sink.log.writing
    modifies sink.log
    ensures sink.log.writing
    ensures sink.log.file == old(sink.log.file) + EncodeAll(TradeRecords(trades, clock) + [ResultRecord(result)])
  {
    hide Encode;
    var k := 0;
    assert trades[..0] == [] && TradeRecords([], clock) == [] && EncodeAll([]) == [];
    while k < |trades|
      invariant 0 <= k <= |trades| && sink.log.writing
      invariant sink.log.file == old(sink.log.file) + EncodeAll(TradeRecords(trades[..k], clock))
    {
      LogGrows(trades[..k], trades[k], clock);
      assert trades[..k + 1] == trades[..k] + [trades[k]];
      sink.OnTrade(trades[k], clock(trades[k].id));
      k := k + 1;
    }
    assert trades[..k] == trades;
    EncodeSnoc(TradeRecords(trades, clock), ResultRecord(result));
    sink.OnSubmitResult(result);
  }

  /** Submit an order with a persisting sink; `clock` stamps its trades. */
  method SubmitLogged(engine: MatchingEngine, sink: PersistingSink, s: Submission, clock: nat -> nat)
    requires engine.Valid() && sink.log.writing && forall i :: i in engine.books ==> sink.log !in engine.books[i].Repr
    modifies engine`next, sink.log, engine.books.Values, set i, x | i in engine.books && x in engine.books[i].Repr :: x
    ensures engine.Valid() && engine.View() == After(old(engine.View()), s) && engine.books == old(engine.books)
    ensures forall i :: i in engine.books ==> fresh(engine.books[i].Repr - old(engine.books[i].Repr))
    ensures sink.log.writing
    ensures sink.log.file == old(sink.log.file) + EncodeAll(Logged(Submit(old(engine.View()), s.order, s.gate), clock))
  {
    hide MatchingEngine.Valid;
    hide MatchingEngine.View;
    hide EngineSpec.Submit;
    hide EncodeAll;
    var emitted := SubmitOrder(engine, s.order, s.gate);
    Persist(sink, emitted.trades, emitted.results[0], clock);
  }

  lemma {:induction false} EncodeConcat(rs: seq<Record>, qs: seq<Record>)
    ensures EncodeAll(rs + qs) == EncodeAll(rs) + EncodeAll(qs)
    decreases |rs|
  {
    hide Encode;
    if rs == [] {
      assert rs + qs == qs;
    } else {
      assert (rs + qs)[1..] == rs[1..] + qs;
      EncodeConcat(rs[1..], qs);
    }
  }

  lemma EncodeSnoc(rs: seq<Record>, r: Record)
    ensures EncodeAll(rs + [r]) == EncodeAll(rs) + Encode(r)
  {
    hide Encode;
    EncodeConcat(rs, [r]);
    assert [r][1..] == [];
    assert EncodeAll([r]) == Encode(r) + EncodeAll([]);
  }

  lemma {:induction false} TradeRecordsSnoc(ts: seq<Trade>, t: Trade, clock: nat -> nat)
    ensures TradeRecords(ts + [t], clock) == TradeRecords(ts, clock) + [TradeRecord(t, clock(t.id))]
    decreases |ts|
  {
    if ts == [] {
      assert ts + [t] == [t] && [t][1..] == [];
      assert TradeRecords([], clock) == [];
    } else {
      assert (ts + [t])[1..] == ts[1..] + [t];
      TradeRecordsSnoc(ts[1..], t, clock);
    }
  }

  lemma LogGrows(ts: seq<Trade>, t: Trade, clock: nat -> nat)
    ensures EncodeAll(TradeRecords(ts + [t], clock)) ==
            EncodeAll(TradeRecords(ts, clock)) + Encode(TradeRecord(t, clock(t.id)))
  {
    TradeRecordsSnoc(ts, t, clock);
    EncodeSnoc(TradeRecords(ts, clock), TradeRecord(t, clock(t.id)));
  }

  /** A run of submissions writes exactly its log to the file. */
  method RecordRun(engine: MatchingEngine, sink: PersistingSink, ss: seq<Submission>, clock: nat -> nat)
    requires engine.Valid() && sink.log.writing && forall i :: i in engine.books ==> sink.log !in engine.books[i].Repr
    modifies engine`next, sink.log, engine.books.Values, set i, x | i in engine.books && x in engine.books[i].Repr :: x
    ensures engine.Valid() && engine.View() == RunAll(old(engine.View()), ss) && sink.log.writing
    ensures sink.log.file == old(sink.log.file) + EncodeAll(LogOf(old(engine.View()), ss, clock))
  {
    hide MatchingEngine.Valid;
    hide MatchingEngine.View;
    hide EngineSpec.Submit;
    hide Logged;
    hide Encode;
    ghost var e, start := engine.View(), sink.log.file;
    var k := 0;
    while k < |ss|
      invariant 0 <= k <= |ss| && engine.Valid() && sink.log.writing && engine.books == old(engine.books)
      invariant forall i :: i in engine.books ==> sink.log !in engine.books[i].Repr
      invariant forall i :: i in engine.books ==> fresh(engine.books[i].Repr - old(engine.books[i].Repr))
      invariant RunAll(engine.View(), ss[k..]) == RunAll(e, ss)
      invariant sink.log.file + EncodeAll(LogOf(engine.View(), ss[k..], clock)) == start + EncodeAll(LogOf(e, ss, clock))
    {
      LogStep(sink.log.file, engine.View(), ss[k..], clock);
      assert ss[k..][0] == ss[k] && ss[k..][1..] == ss[k + 1..];
      SubmitLogged(engine, sink, ss[k], clock);
      k := k + 1;
    }
    assert ss[k..] == [];
    assert sink.log.file + [] == sink.log.file;
  }

  /** The log of a run is that of its first submission and that of the rest. */
  lemma LogStep(file: seq<Byte>, e: Engine, ss: seq<Submission>, clock: nat -> nat)
    requires ss != []
    ensures file + EncodeAll(LogOf(e, ss, clock)) ==
            file + EncodeAll(Logged(Submit(e, ss[0].order, ss[0].gate), clock)) + EncodeAll(LogOf(After(e, ss[0]), ss[1..], clock))
  {
    hide Submit;
    hide Logged;
    hide EncodeAll;
    EncodeConcat(Logged(Submit(e, ss[0].order, ss[0].gate), clock), LogOf(After(e, ss[0]), ss[1..], clock));
  }

  // ---- From a run to its recovery ------------------------------------------------------------

  function All(instruments: seq<nat>): set<nat> {
    set i | i in instruments
  }

  /** A fresh engine with these instruments registered, in the order given. */
  method OpenEngine(instruments: seq<nat>) returns (engine: MatchingEngine)
    ensures fresh(engine) && engine.Valid() && engine.View() == Opened(All(instruments))
    ensures forall i :: i in engine.books ==> fresh(engine.books[i]) && fresh(engine.books[i].Repr)
  {
    hide MatchingEngine.Valid;
    hide MatchingEngine.View;
    engine := new MatchingEngine();
    var k := 0;
    while k < |instruments|
      invariant 0 <= k <= |instruments| && engine.Valid()
      invariant forall i :: i in engine.books ==> fresh(engine.books[i]) && engine.books[i].Repr == {}
      invariant engine.View() == Opened(All(instruments[..k]))
    {
      assert All(instruments[..k + 1]) == All(instruments[..k]) + {instruments[k]};
      engine.RegisterInstrument(instruments[k]);
      k := k + 1;
    }
    assert instruments[..k] == instruments;
  }

  /** Run submissions on a new engine, writing a new log. */
  method RunLogged(instruments: seq<nat>, ss: seq<Submission>, clock: nat -> nat)
    returns (engine: MatchingEngine, log: EventLog)
    ensures fresh(engine) && fresh(log) && engine.Valid()
    ensures engine.View() == RunAll(Opened(All(instruments)), ss)
    ensures log.file == HEADER + EncodeAll(LogOf(Opened(All(instruments)), ss, clock))
  {
    hide MatchingEngine.Valid;
    hide MatchingEngine.View;
    hide LogOf;
    hide EncodeAll;
    hide RunAll;
    engine := OpenEngine(instruments);
    log := new EventLog();
    var sink := new PersistingSink(log);
    RecordRun(engine, sink, ss, clock);
  }

  /** Replay a log file into a new engine. */
  method Recover(instruments: seq<nat>, log: EventLog) returns (engine: MatchingEngine, applied: nat)
    modifies log
    ensures fresh(engine) && engine.Valid()
    ensures Replayed(applied, engine.View()) == ReplayFrom(Opened(All(instruments)), ReadAll(old(log.file)))
  {
    hide MatchingEngine.Valid;
    hide MatchingEngine.View;
    hide ReadAll;
    hide ReplayFrom;
    var records := log.ReadBack();
    engine := OpenEngine(instruments);
    applied := ReplayInto(engine, records);
  }

  /**
   Run submissions on one engine with a log and recover another from that log: it is the first
   engine as it was before the first order that the replayer does not support.
   */
  method RunAndRecover(instruments: seq<nat>, ss: seq<Submission>, clock: nat -> nat)
    returns (rebuilt: MatchingEngine, applied: nat)
    requires forall k :: 0 <= k < |ss| ==> NewLimit(ss[k].order)
    requires var log := LogOf(Opened(All(instruments)), ss, clock); forall k :: 0 <= k < |log| ==> Encodable(log[k])
    ensures rebuilt.Valid()
    ensures var e := Opened(All(instruments));
            && rebuilt.View() == BlurEngine(RunAll(e, Replayable(e, ss)))
            && applied == |LogOf(e, Replayable(e, ss), clock)|
  {
    hide MatchingEngine.Valid;
    hide MatchingEngine.View;
    hide LogOf;
    hide EncodeAll;
    hide ReadAll;
    hide ReplayFrom;
    hide RunAll;
    hide Replayable;
    hide Encodable;
    hide NewLimit;
    var engine, log := RunLogged(instruments, ss, clock);
    rebuilt, applied := Recover(instruments, log);
    Recovery(All(instruments), ss, clock);
  }
}
