/**
 Per-instrument workers. A worker's inbox is the ring queue, its engine holds one instrument.
 Whatever the interleaving, a worker has handled a prefix of what its inbox accepted, and its
 book is the one a single shared engine would hold, up to sequence numbers.
 */
module Sharding {
  import opened Types
  import opened BookSpec
  import opened MatchSpec
  import opened EngineSpec
  import opened Blurring
  import opened Bits
  import Spsc

  const SLOTS: nat := 4096

  /** An inbox entry: an order, or the null pointer that asks the worker to stop. */
  type Item = Option<Order>

  function RunOrders(e: Engine, os: seq<Order>): Engine
    decreases |os|
  {
    if os == [] then e else RunOrders(Submit(e, os[0], None).engine, os[1..])
  }

  // ---- Workers as interleaved steps ------------------------------------------------------

  /** `handled` counts the entries taken from the inbox and submitted to the engine. */
  datatype Shard = Shard(inbox: Spsc.State<Item>, handled: nat, engine: Engine, stopped: bool)

  datatype Act =
    | Queue(step: Spsc.Action<Item>)
    | Handle
    | Quit

  /** The worker asks for the next entry only after it has handled the last one. */
  predicate Can(s: Shard, a: Act) {
    match a
    case Queue(step) => Spsc.Enabled(SLOTS, s.inbox, step) && (step.PopLoad? ==> !s.stopped && s.handled == |s.inbox.popped|)
    case Handle => !s.stopped && s.handled < |s.inbox.popped|
    case Quit => !s.stopped && s.handled == |s.inbox.popped| && s.inbox.consumer.Idle?
  }

  function Do(s: Shard, a: Act): Shard
    requires Can(s, a)
  {
    match a
    case Queue(step) => s.(inbox := Spsc.Step(SLOTS, s.inbox, step))
    case Handle =>
      var next := s.(handled := s.handled + 1);
      (match s.inbox.popped[s.handled]
       case None => next.(stopped := true)
       case Some(o) => next.(engine := Submit(s.engine, o, None).engine))
    case Quit => s.(stopped := true)
  }

  /** The orders among a list of inbox entries. */
  function Orders(items: seq<Item>): seq<Order>
    decreases |items|
  {
    if items == [] then []
    else Orders(items[..|items| - 1]) + (match items[|items| - 1] case None => [] case Some(o) => [o])
  }

  /** Orders the inbox accepted, and how many of them the worker has processed. */
  function Accepted(s: Shard): seq<Order> {
    Orders(s.inbox.pushed)
  }

  function Processed(s: Shard): seq<Order> {
    Orders(s.inbox.popped[..Min(s.handled, |s.inbox.popped|)])
  }

  /** A request to stop is the last entry the worker handles. */
  ghost predicate StopsInTime(s: Shard) {
    && s.handled <= |s.inbox.popped|
    && forall k :: 0 <= k < s.handled && s.inbox.popped[k].None? ==> s.stopped && k == s.handled - 1
  }

  ghost predicate ShardInv(i: nat, s: Shard) {
    && Spsc.Inv(SLOTS, s.inbox)
    && StopsInTime(s)
    && s.engine == RunOrders(Opened({i}), Processed(s))
  }

  lemma {:induction false} RunOrdersSnoc(e: Engine, os: seq<Order>, o: Order)
    ensures RunOrders(e, os + [o]) == Submit(RunOrders(e, os), o, None).engine
    decreases |os|
  {
    if os == [] {
      assert os + [o] == [o] && [o][1..] == [];
      assert RunOrders(Submit(e, o, None).engine, []) == Submit(e, o, None).engine;
    } else {
      assert (os + [o])[1..] == os[1..] + [o];
      RunOrdersSnoc(Submit(e, os[0], None).engine, os[1..], o);
    }
  }

  /** Steps of the queue never take back what was popped. */
  lemma PoppedGrows<T>(n: nat, s: Spsc.State<T>, a: Spsc.Action<T>)
    requires Spsc.Enabled(n, s, a)
    ensures s.popped <= Spsc.Step(n, s, a).popped
  {
  }

  lemma DoStops(s: Shard, a: Act)
    requires StopsInTime(s) && Can(s, a)
    ensures StopsInTime(Do(s, a))
  {
    if a.Queue? {
      PoppedGrows(SLOTS, s.inbox, a.step);
      hide Spsc.Step;
    }
  }

  lemma DoInv(i: nat, s: Shard, a: Act)
    requires ShardInv(i, s) && Can(s, a)
    ensures ShardInv(i, Do(s, a))
  {
    DoStops(s, a);
    hide Spsc.Inv;
    hide Submit;
    hide Opened;
    hide RunOrders;
    match a
    case Queue(step) =>
      Spsc.StepInv(SLOTS, s.inbox, step);
      PoppedGrows(SLOTS, s.inbox, step);
      hide Spsc.Step;
      hide Orders;
      assert Do(s, a).inbox.popped[..s.handled] == s.inbox.popped[..s.handled];
    case Handle =>
      var next := s.inbox.popped[..s.handled + 1];
      assert next[..s.handled] == s.inbox.popped[..s.handled];
      if s.inbox.popped[s.handled].Some? {
        assert Orders(next) == Processed(s) + [s.inbox.popped[s.handled].value];
        RunOrdersSnoc(Opened({i}), Processed(s), s.inbox.popped[s.handled].value);
      } else {
        assert Orders(next) == Processed(s) + [] == Processed(s);
      }
    case Quit =>
  }

  lemma {:induction false} OrdersPrefix(items: seq<Item>, k: nat)
    requires k <= |items|
    ensures Orders(items[..k]) <= Orders(items)
    decreases |items|
  {
    if k < |items| {
      OrdersPrefix(items[..|items| - 1], k);
      assert items[..|items| - 1][..k] == items[..k];
    } else {
      assert items[..k] == items;
    }
  }

  /**
   A worker has processed, in order, a prefix of the orders its inbox accepted, and nothing
   behind a request to stop.
   */
  lemma WorkerPrefix(i: nat, s: Shard)
    requires ShardInv(i, s)
    ensures s.handled <= |s.inbox.popped|
    ensures forall k :: 0 <= k < s.handled - 1 ==> s.inbox.popped[k].Some?
    ensures s.handled > 0 && s.inbox.popped[s.handled - 1].None? ==> s.stopped
    ensures Processed(s) <= Accepted(s)
    ensures s.engine == RunOrders(Opened({i}), Processed(s))
  {
    hide RunOrders;
    hide Orders;
    hide And;
    var p := s.inbox.pushed;
    assert s.inbox.popped[..s.handled] == p[..s.handled];
    OrdersPrefix(p, s.handled);
  }

  // ---- The pool ----------------------------------------------------------------------------

  type Pool = map<nat, Shard>

  /** A worker is created for an instrument, or an existing one takes a step. */
  datatype PoolAct = Create(instrument: nat, buffer: seq<Item>) | At(instrument: nat, act: Act)

  function NewShard(i: nat, buffer: seq<Item>): Shard {
    Shard(Spsc.State(buffer, [0], [0], 0, 0, Spsc.Ready, Spsc.Idle, [], []), 0, Opened({i}), false)
  }

  predicate PoolCan(p: Pool, a: PoolAct) {
    match a
    case Create(i, buffer) => |buffer| == SLOTS
    case At(i, act) => i in p && Can(p[i], act)
  }

  function PoolDo(p: Pool, a: PoolAct): Pool
    requires PoolCan(p, a)
  {
    match a
    case Create(i, buffer) => if i in p then p else p[i := NewShard(i, buffer)]
    case At(i, act) => p[i := Do(p[i], act)]
  }

  ghost predicate PoolRun(p: Pool, acts: seq<PoolAct>)
    decreases |acts|
  {
    acts == [] || (PoolCan(p, acts[0]) && PoolRun(PoolDo(p, acts[0]), acts[1..]))
  }

  ghost function PoolAfter(p: Pool, acts: seq<PoolAct>): Pool
    requires PoolRun(p, acts)
    decreases |acts|
  {
    if acts == [] then p else PoolAfter(PoolDo(p, acts[0]), acts[1..])
  }

  ghost predicate PoolInv(p: Pool) {
    forall i :: i in p ==> ShardInv(i, p[i])
  }

  lemma FourKSlots()
    ensures Spsc.Capacity(SLOTS)
  {
    assert PowerOfTwo(SLOTS) && SLOTS == Pow2(12) by {
      assert Pow2(4) == 16;
      Pow2Add(4, 4);
      Pow2Add(8, 4);
    }
    PowerOfTwoIff(SLOTS);
  }

  lemma NewShardInv(i: nat, buffer: seq<Item>)
    requires |buffer| == SLOTS
    ensures ShardInv(i, NewShard(i, buffer))
  {
    FourKSlots();
    hide Spsc.Capacity;
    var s := NewShard(i, buffer);
    assert Spsc.Inv(SLOTS, s.inbox);
    assert s.inbox.popped[..0] == [];
  }

  lemma {:induction false} PoolKeepsInv(p: Pool, acts: seq<PoolAct>)
    requires PoolInv(p) && PoolRun(p, acts)
    ensures PoolInv(PoolAfter(p, acts))
    decreases |acts|
  {
    hide ShardInv;
    if acts != [] {
      match acts[0] {
        case Create(i, buffer) => NewShardInv(i, buffer);
        case At(i, act) => DoInv(i, p[i], act);
      }
      PoolKeepsInv(PoolDo(p, acts[0]), acts[1..]);
    }
  }

  // ---- One shared engine ----------------------------------------------------------------------

  /** The orders of one instrument, in the order they occur. */
  function Of(mix: seq<Order>, i: nat): seq<Order> {
    if mix == [] then [] else (if mix[0].instrument == i then [mix[0]] else []) + Of(mix[1..], i)
  }

  /** Both engines hold this instrument, with the same book up to sequence numbers. */
  ghost predicate SameBook(i: nat, e: Engine, f: Engine) {
    i in e.books && i in f.books && BlurBook(Number, e.books[i]) == BlurBook(Number, f.books[i])
  }

  /** A trade and a result without the numbers an engine assigns. */
  function Unnumbered(t: Trade): Trade {
    t.(id := 0, sequence := 0)
  }

  datatype Answer = Answer(trades: seq<Trade>, result: SubmitResult)

  function AnswerOf(out: Outcome): Answer {
    Answer(seq(|out.trades|, k requires 0 <= k < |out.trades| => Unnumbered(out.trades[k])),
           out.result.(sequence := 0))
  }

  /** Equal answers differ at most in the numbers that an engine assigns. */
  lemma AnswersAlike(x: Outcome, y: Outcome)
    requires AnswerOf(x) == AnswerOf(y)
    ensures |x.trades| == |y.trades|
    ensures forall k :: 0 <= k < |x.trades| ==>
              x.trades[k] == y.trades[k].(id := x.trades[k].id, sequence := x.trades[k].sequence)
    ensures x.result == y.result.(sequence := x.result.sequence)
  {
    var a, b := AnswerOf(x).trades, AnswerOf(y).trades;
    assert |a| == |x.trades| && |b| == |y.trades|;
    forall k | 0 <= k < |x.trades|
      ensures x.trades[k] == y.trades[k].(id := x.trades[k].id, sequence := x.trades[k].sequence)
    {
      assert a[k] == Unnumbered(x.trades[k]) && b[k] == Unnumbered(y.trades[k]);
    }
  }

  /** What an engine answers to the orders of one instrument. */
  function Answers(e: Engine, mix: seq<Order>, i: nat): seq<Answer>
    decreases |mix|
  {
    if mix == [] then [] else
      (if mix[0].instrument == i then [AnswerOf(Submit(e, mix[0], None))] else [])
      + Answers(Submit(e, mix[0], None).engine, mix[1..], i)
  }

  lemma TradesUnnumbered(t: Order, u: Order, fills: seq<Fill>, gills: seq<Fill>, m: nat, n: nat)
    requires Blurred(Number, t) == Blurred(Number, u) && BlurFills(Number, fills) == BlurFills(Number, gills)
    ensures |fills| == |gills|
    ensures forall k :: 0 <= k < |fills| ==>
              Unnumbered(Trades(t, fills, m)[k]) == Unnumbered(Trades(u, gills, n)[k])
  {
    assert |BlurFills(Number, fills)| == |fills| && |BlurFills(Number, gills)| == |gills|;
    forall k | 0 <= k < |fills|
      ensures Unnumbered(Trades(t, fills, m)[k]) == Unnumbered(Trades(u, gills, n)[k])
    {
      var x, y := BlurFills(Number, fills)[k], BlurFills(Number, gills)[k];
      assert x == y && x.resting == Blurred(Number, fills[k].resting) && y.resting == Blurred(Number, gills[k].resting);
    }
  }

  /** Settling on books that agree up to sequence numbers gives books, fills and results that agree. */
  lemma SameSettle(b: Book, c: Book, t: Order, u: Order)
    requires BlurBook(Number, b) == BlurBook(Number, c) && Blurred(Number, t) == Blurred(Number, u)
    ensures var x, y := Settle(b, t), Settle(c, u);
            && BlurBook(Number, x.book) == BlurBook(Number, y.book)
            && BlurFills(Number, x.fills) == BlurFills(Number, y.fills)
            && x.result.(sequence := 0) == y.result.(sequence := 0)
  {
    SettleNumbers(b, t);
    SettleNumbers(c, u);
  }

  /** An order with its own id does the same in two engines that agree on its book. */
  lemma SameSubmit(e: Engine, f: Engine, o: Order)
    requires SameBook(o.instrument, e, f) && o.id != INVALID_ID
    ensures var x, y := Submit(e, o, None), Submit(f, o, None);
            SameBook(o.instrument, x.engine, y.engine) && AnswerOf(x) == AnswerOf(y)
  {
    hide Settle;
    hide BlurBook;
    hide BlurFills;
    hide Trades;
    hide Unnumbered;
    hide Blurred;
    if Objection(e, o, None).None? {
      var i, t, u := o.instrument, Sequenced(e, o), Sequenced(f, o);
      assert Blurred(Number, t) == Blurred(Number, u) by { NumbersBlur(t, u); }
      SameSettle(e.books[i], f.books[i], t, u);
      TradesUnnumbered(t, u, Settle(e.books[i], t).fills, Settle(f.books[i], u).fills, e.next + 1, f.next + 1);
    }
  }

  lemma NumbersBlur(t: Order, u: Order)
    requires t == u.(sequence := t.sequence)
    ensures Blurred(Number, t) == Blurred(Number, u)
  {
  }

  /**
   An engine that runs orders of many instruments treats each instrument as an engine that
   runs only the orders of that instrument.
   */
  lemma {:induction false} ShardAgrees(e: Engine, f: Engine, mix: seq<Order>, i: nat)
    requires SameBook(i, e, f) && forall k :: 0 <= k < |mix| ==> mix[k].id != INVALID_ID
    ensures SameBook(i, RunOrders(e, mix), RunOrders(f, Of(mix, i)))
    ensures Answers(e, mix, i) == Answers(f, Of(mix, i), i)
    decreases |mix|
  {
    if mix != [] {
      var o := mix[0];
      var on := Submit(e, o, None).engine;
      if o.instrument == i {
        SameSubmit(e, f, o);
        hide SameBook;
        hide Submit;
        hide AnswerOf;
        ShardAgrees(on, Submit(f, o, None).engine, mix[1..], i);
        assert Of(mix, i)[0] == o && Of(mix, i)[1..] == Of(mix[1..], i);
      } else {
        assert i in on.books && on.books[i] == e.books[i];
        hide Submit;
        ShardAgrees(on, f, mix[1..], i);
        assert Of(mix, i) == Of(mix[1..], i);
      }
    }
  }

  lemma {:induction false} WorkerMatchesShared(instruments: set<nat>, i: nat, s: Shard, mix: seq<Order>)
    requires i in instruments && ShardInv(i, s) && Of(mix, i) == Processed(s)
    requires forall k :: 0 <= k < |mix| ==> mix[k].id != INVALID_ID
    ensures SameBook(i, RunOrders(Opened(instruments), mix), s.engine)
    ensures Answers(Opened(instruments), mix, i) == Answers(Opened({i}), Processed(s), i)
  {
    hide Processed;
    hide RunOrders;
    hide Answers;
    hide Of;
    hide Spsc.Inv;
    assert SameBook(i, Opened(instruments), Opened({i}));
    ShardAgrees(Opened(instruments), Opened({i}), mix, i);
  }

  /**
   For every reachable pool and every interleaving of what its workers have processed, each
   worker has processed a prefix of what it accepted, in order, and its book is the shared
   engine's book of its instrument, up to sequence numbers.
   */
  lemma {:induction false} ShardingSound(acts: seq<PoolAct>, mix: seq<Order>, i: nat)
    requires PoolRun(map[], acts)
    requires var p := PoolAfter(map[], acts);
             && i in p
             && Of(mix, i) == Processed(p[i])
             && forall k :: 0 <= k < |mix| ==> mix[k].id != INVALID_ID
    ensures var p := PoolAfter(map[], acts);
            && Processed(p[i]) <= Accepted(p[i])
            && SameBook(i, RunOrders(Opened(p.Keys), mix), p[i].engine)
            && Answers(Opened(p.Keys), mix, i) == Answers(Opened({i}), Processed(p[i]), i)
  {
    hide ShardInv;
    hide SameBook;
    hide Answers;
    hide Of;
    hide Processed;
    hide RunOrders;
    hide Opened;
    hide PoolAfter;
    hide Accepted;
    PoolKeepsInv(map[], acts);
    var p := PoolAfter(map[], acts);
    WorkerPrefix(i, p[i]);
    WorkerMatchesShared(p.Keys, i, p[i], mix);
  }

  // ---- Without explicit ids --------------------------------------------------------------------

  /** An order that meets nobody rests alone, under the number the engine gives it. */
  lemma FirstRests(e: Engine, o: Order)
    requires o.instrument in e.books && e.books[o.instrument] == EMPTY && e.next > 0
    requires o.instrument != INVALID_ID && o.id == INVALID_ID && o.side.Buy? && o.kind.Limit? && o.tif.GTC?
    requires ValidPrice(o.price) && ValidQuantity(o.quantity) && o.remaining == o.quantity
    ensures Submit(e, o, None).engine ==
            Engine(e.books[o.instrument := Book([o.(id := e.next, sequence := e.next)], [])], e.next + 1)
  {
    var t := Sequenced(e, o);
    assert Sweep([], t) == Swept([], [], t.remaining);
    assert Enqueue([], t) == [t];
    assert t.(remaining := t.remaining) == t;
    assert Settle(EMPTY, t).book == Book([t], []) && Settle(EMPTY, t).fills == [];
    hide Settle;
  }

  /**
   Two orders without ids for two instruments: the shared engine numbers the second one 2, its
   own worker numbers it 1. So the ids must come with the orders.
   */
  lemma UnnumberedDiffer()
    ensures var first := Order(0, 7, 1, Buy, Limit, GTC, 100, 5, 5, 0, New);
            var second := Order(0, 8, 2, Buy, Limit, GTC, 100, 5, 5, 0, New);
            var shared, own := RunOrders(Opened({1, 2}), [first, second]), RunOrders(Opened({2}), Of([first, second], 2));
            && 2 in shared.books && 2 in own.books
            && shared.books[2] == Book([second.(id := 2, sequence := 2)], [])
            && own.books[2] == Book([second.(id := 1, sequence := 1)], [])
            && !SameBook(2, shared, own)
  {
    var first := Order(0, 7, 1, Buy, Limit, GTC, 100, 5, 5, 0, New);
    var second := Order(0, 8, 2, Buy, Limit, GTC, 100, 5, 5, 0, New);
    var mix := [first, second];
    assert mix[1..] == [second] && [second][1..] == [];
    assert Of([second], 2) == [second];
    assert Of(mix, 2) == [second];
    hide Submit;
    hide Of;
    var e := Submit(Opened({1, 2}), first, None).engine;
    FirstRests(Opened({1, 2}), first);
    FirstRests(e, second);
    FirstRests(Opened({2}), second);
    assert RunOrders(e, [second]) == Submit(e, second, None).engine;
    assert RunOrders(Opened({2}), [second]) == Submit(Opened({2}), second, None).engine;
    DifferentIds(second, 2, 1);
  }

  lemma DifferentIds(o: Order, x: nat, y: nat)
    requires x != y
    ensures BlurBook(Number, Book([o.(id := x, sequence := x)], [])) != BlurBook(Number, Book([o.(id := y, sequence := y)], []))
  {
    assert BlurBook(Number, Book([o.(id := x, sequence := x)], [])).bids[0].id == x;
    assert BlurBook(Number, Book([o.(id := y, sequence := y)], [])).bids[0].id == y;
  }
}
