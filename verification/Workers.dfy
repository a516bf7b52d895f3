/** A worker and its inbox as objects; the run loop is proved against the fold over orders. */
module Workers {
  import opened Types
  import opened EngineSpec
  import opened Engines
  import opened Spsc
  import opened Sharding

  /** The orders waiting before the first request to stop, and the entries after it. */
  function Backlog(items: seq<Item>): seq<Order> {
    if items == [] || items[0].None? then [] else [items[0].value] + Backlog(items[1..])
  }

  function Beyond(items: seq<Item>): seq<Item> {
    if items == [] then [] else if items[0].None? then items[1..] else Beyond(items[1..])
  }

  /** Entries up to the first request to stop are the backlog, in order; those after it are beyond. */
  lemma {:induction false} BacklogSplits(before: seq<Order>, items: seq<Item>, after: seq<Item>)
    requires |items| == |before| && forall k :: 0 <= k < |items| ==> items[k] == Some(before[k])
    ensures Backlog(items) == before && Beyond(items) == []
    ensures Backlog(items + [None] + after) == before && Beyond(items + [None] + after) == after
    decreases |items|
  {
    var all := items + [None] + after;
    if items == [] {
      assert all == [None] + after && all[1..] == after;
    } else {
      assert all[1..] == items[1..] + [None] + after;
      BacklogSplits(before[1..], items[1..], after);
      assert [before[0]] + before[1..] == before;
    }
  }

  class Worker {
    const instrument: nat
    const engine: MatchingEngine
    const inbox: SpscQueue<Item>
    var running: bool

    ghost predicate Apart()
      reads engine, engine.books.Values
    {
      forall i :: i in engine.books ==> {this, inbox, inbox.buffer} !! engine.books[i].Repr
    }

    ghost predicate Valid()
      reads this, inbox, inbox.buffer, engine, engine.books.Values,
            set i, x | i in engine.books && x in engine.books[i].Repr :: x
    {
      inbox.Valid() && inbox.slots == SLOTS && engine.Valid() && Apart()
    }

    constructor (instrument: nat)
      ensures Valid() && running && this.instrument == instrument
      ensures engine.View() == Opened({instrument}) && inbox.Waiting() == []
    {
      hide SpscQueue.Valid;
      hide SpscQueue.Waiting;
      hide MatchingEngine.Valid;
      hide MatchingEngine.View;
      hide Capacity;
      hide Inv;
      FourKSlots();
      this.instrument := instrument;
      var e := new MatchingEngine();
      e.RegisterInstrument(instrument);
      engine := e;
      inbox := new SpscQueue<Item>(SLOTS);
      running := true;
      assert e.View() == Next(FRESH, Register(instrument)) == Opened({instrument});
    }

    /** Accepted exactly when the inbox has a free slot. */
    method Submit(o: Order) returns (ok: bool)
      requires Valid()
      modifies inbox, inbox.buffer
      ensures Valid() && ok == (|old(inbox.Waiting())| < 4096)
      ensures inbox.Waiting() == if ok then old(inbox.Waiting()) + [Some(o)] else old(inbox.Waiting())
      ensures engine.View() == old(engine.View())
    {
      hide SpscQueue.Valid;
      hide SpscQueue.Waiting;
      hide MatchingEngine.Valid;
      hide MatchingEngine.View;
      ok := inbox.Push(Some(o));
    }

    /** Ask the worker to stop; the request may be lost when the inbox is full. */
    method Stop()
      requires Valid()
      modifies this`running, inbox, inbox.buffer
      ensures Valid() && !running
      ensures inbox.Waiting() == if old(running) && |old(inbox.Waiting())| < 4096
                                 then old(inbox.Waiting()) + [None] else old(inbox.Waiting())
      ensures engine.View() == old(engine.View())
    {
      hide SpscQueue.Valid;
      hide SpscQueue.Waiting;
      hide MatchingEngine.Valid;
      hide MatchingEngine.View;
      if running {
        running := false;
        var ok := inbox.Push(None);
      }
    }

    /** Hand one order to the engine. */
    method Process(o: Order)
      requires Valid()
      modifies engine`next, engine.books.Values, set i, x | i in engine.books && x in engine.books[i].Repr :: x
      ensures Valid() && engine.books == old(engine.books)
      ensures engine.View() == EngineSpec.Submit(old(engine.View()), o, None).engine
      ensures inbox.Waiting() == old(inbox.Waiting())
      ensures forall i :: i in engine.books ==> fresh(engine.books[i].Repr - old(engine.books[i].Repr))
    {
      hide SpscQueue.Valid;
      hide SpscQueue.Waiting;
      hide MatchingEngine.Valid;
      hide MatchingEngine.View;
      hide EngineSpec.Submit;
      var sink := SubmitOrder(engine, o, None);
    }

    /** The run loop, up to the point where it would wait for more input or has been stopped. */
    method Drain()
      requires Valid()
      modifies inbox, engine`next, engine.books.Values, set i, x | i in engine.books && x in engine.books[i].Repr :: x
      ensures Valid()
      ensures !running ==> engine.View() == old(engine.View()) && inbox.Waiting() == old(inbox.Waiting())
      ensures running ==> engine.View() == RunOrders(old(engine.View()), Backlog(old(inbox.Waiting())))
      ensures running ==> inbox.Waiting() == Beyond(old(inbox.Waiting()))
    {
      hide SpscQueue.Valid;
      hide SpscQueue.Waiting;
      hide MatchingEngine.Valid;
      hide MatchingEngine.View;
      hide EngineSpec.Submit;
      hide Behaviour;
      while running
        invariant Valid() && engine.books == old(engine.books)
        invariant forall i :: i in engine.books ==> fresh(engine.books[i].Repr - old(engine.books[i].Repr))
        invariant !running ==> engine.View() == old(engine.View()) && inbox.Waiting() == old(inbox.Waiting())
        invariant RunOrders(engine.View(), Backlog(inbox.Waiting())) == RunOrders(old(engine.View()), Backlog(old(inbox.Waiting())))
        invariant Beyond(inbox.Waiting()) == Beyond(old(inbox.Waiting()))
        decreases |inbox.Waiting()|
      {
        ghost var was := inbox.Waiting();
        var ok, item := inbox.Pop();
        if !ok {
          return;
        }
        assert was[0] == item && was[1..] == inbox.Waiting();
        if item.None? {
          return;
        }
        Process(item.value);
        assert Backlog(was) == [item.value] + Backlog(inbox.Waiting());
      }
    }
  }
}
