/** The publisher object: its snapshot cache, its event ring and its callbacks on a live engine. */
module Publishers {
  import opened Types
  import opened BookSpec
  import opened MatchSpec
  import opened EngineSpec
  import opened Safety
  import opened OrderBooks
  import opened Engines
  import opened EventRings
  import opened Quotes

  datatype MarketEvent =
    | TradeEvent(trade: Trade)
    | OrderEvent(status: SubmitStatus, sequence: nat, orderId: nat, qty: int, reason: string)

  function ResultEvent(r: SubmitResult): MarketEvent {
    OrderEvent(r.status, r.sequence, r.orderId, r.resting, if r.status.Rejected? then r.reason else "")
  }

  /** A snapshot made of the top of both sides. */
  function SnapshotFrom(i: nat, q: Quote): Snapshot {
    Snapshot(i, q.bid.valid, q.bid.price, q.bid.quantity, q.ask.valid, q.ask.price, q.ask.quantity)
  }

  lemma QuoteShows(i: nat, b: Book)
    ensures SnapshotFrom(i, QuoteIn(b)) == SnapshotOf(i, b)
  {
  }

  /** The snapshot that a result sends: the live top, for the statuses that refresh the cache. */
  function ResultShots(e: Engine, i: nat, status: SubmitStatus): seq<Snapshot> {
    if Refreshes(status) && i in e.books then [SnapshotOf(i, e.books[i])] else []
  }

  function TradeEvents(ts: seq<Trade>): seq<MarketEvent> {
    seq(|ts|, k requires 0 <= k < |ts| => TradeEvent(ts[k]))
  }

  /** The events of a run of submissions, in order. */
  function EventsOf(e: Engine, ss: seq<Submission>): seq<MarketEvent>
    decreases |ss|
  {
    if ss == [] then [] else
      var out := Submit(e, ss[0].order, ss[0].gate);
      TradeEvents(out.trades) + [ResultEvent(out.result)] + EventsOf(After(e, ss[0]), ss[1..])
  }

  class MarketDataPublisher {
    const engine: MatchingEngine
    const events: EventRing<MarketEvent>
    var snapshots: Cache
    var sent: seq<Snapshot>   // what the listeners receive

    ghost predicate Valid()
      reads this, events, events.ring, engine, engine.books.Values,
            set i, x | i in engine.books && x in engine.books[i].Repr :: x
    {
      engine.Valid() && events.Valid() && forall i :: i in engine.books ==> {this, events, events.ring} !! engine.books[i].Repr
    }

    constructor (engine: MatchingEngine)
      requires engine.Valid()
      ensures Valid() && this.engine == engine && snapshots == map[] && sent == [] && events.history == []
      ensures fresh(events) && fresh(events.ring)
    {
      hide MatchingEngine.Valid;
      this.engine := engine;
      events := new EventRing<MarketEvent>();
      snapshots, sent := map[], [];
    }

    method SnapshotNow(i: nat) returns (s: Snapshot)
      requires Valid()
      ensures s == LiveTop(engine.View(), i)
    {
      if i !in engine.books {
        return NO_SNAPSHOT;
      }
      var book := engine.books[i];
      hide OrderBook.ValidWith;
      hide OrderBook.View;
      var bid := book.Top(Buy);
      var ask := book.Top(Sell);
      QuoteShows(i, book.View());
      return SnapshotFrom(i, Quote(bid, ask));
    }

    /** Cache a snapshot and pass it to the listeners. */
    method Notify(s: Snapshot)
      requires Valid()
      modifies this
      ensures Valid() && snapshots == old(snapshots)[s.instrument := s] && sent == old(sent) + [s]
    {
      hide MatchingEngine.Valid;
      snapshots := snapshots[s.instrument := s];
      sent := sent + [s];
    }

    method NotifyTob(i: nat)
      requires Valid()
      modifies this
      ensures Valid()
      ensures i !in engine.books ==> snapshots == old(snapshots) && sent == old(sent)
      ensures i in engine.books ==>
                var s := SnapshotOf(i, engine.View().books[i]);
                snapshots == old(snapshots)[i := s] && sent == old(sent) + [s]
    {
      hide MatchingEngine.Valid;
      if i in engine.books {
        var s := SnapshotNow(i);
        Notify(s);
      }
    }

    /** The callback of a trade; `q` is the top of the book at that moment. */
    method OnTrade(t: Trade, q: Quote, ghost b: Book)
      requires Valid() && q == QuoteIn(b)
      modifies this, events, events.ring
      ensures Valid() && events.history == old(events.history) + [TradeEvent(t)]
      ensures t.instrument !in engine.books ==> snapshots == old(snapshots) && sent == old(sent)
      ensures t.instrument in engine.books ==>
                && snapshots == old(snapshots)[t.instrument := SnapshotOf(t.instrument, b)]
                && sent == old(sent) + [SnapshotOf(t.instrument, b)]
    {
      hide MatchingEngine.Valid;
      hide SnapshotOf;
      events.Record(TradeEvent(t));
      if t.instrument in engine.books {
        QuoteShows(t.instrument, b);
        Notify(SnapshotFrom(t.instrument, q));
      }
    }

    method OnSubmitResult(r: SubmitResult)
      requires Valid()
      modifies this, events, events.ring
      ensures Valid() && events.history == old(events.history) + [ResultEvent(r)]
      ensures snapshots == OnResult(old(snapshots), engine.View(), r.instrument, r.status)
      ensures sent == old(sent) + ResultShots(engine.View(), r.instrument, r.status)
      ensures r.status.Rejected? || r.status.Cancelled? ==> snapshots == old(snapshots) && sent == old(sent)
      ensures !r.status.Rejected? && !r.status.Cancelled? && r.instrument in engine.books ==>
                |sent| == |old(sent)| + 1 && snapshots == old(snapshots)[r.instrument := sent[|old(sent)|]]
      ensures events.history[|old(events.history)|] ==
              OrderEvent(r.status, r.sequence, r.orderId, r.resting, if r.status.Rejected? then r.reason else "")
    {
      hide MatchingEngine.Valid;
      hide SnapshotOf;
      events.Record(ResultEvent(r));
      if Refreshes(r.status) {
        NotifyTob(r.instrument);
      }
    }

    /** The cached snapshot, or the live one for an instrument that has none yet. */
    method TopOfBook(i: nat) returns (s: Snapshot)
      requires Valid()
      ensures s == Shown(snapshots, engine.View(), i)
    {
      hide MatchingEngine.Valid;
      hide SnapshotOf;
      if i in snapshots {
        return snapshots[i];
      }
      s := SnapshotNow(i);
    }
  }

  // ---- Runs through the publisher --------------------------------------------------------------

  /** The snapshots that the books seen by the trades of one instrument show. */
  function Shots(i: nat, seen: seq<Book>): seq<Snapshot> {
    seq(|seen|, k requires 0 <= k < |seen| => SnapshotOf(i, seen[k]))
  }

  lemma OneMoreShot(c: Cache, i: nat, seen: seq<Book>, k: nat)
    requires k < |seen|
    ensures OnTrades(c, i, seen[..k + 1]) == OnTrades(c, i, seen[..k])[i := SnapshotOf(i, seen[k])]
    ensures Shots(i, seen[..k + 1]) == Shots(i, seen[..k]) + [SnapshotOf(i, seen[k])]
  {
    hide SnapshotOf;
    OnTradesLast(c, i, seen[..k]);
    OnTradesLast(c, i, seen[..k + 1]);
    hide OnTrades;
    if k > 0 {
      assert c[i := SnapshotOf(i, seen[k - 1])][i := SnapshotOf(i, seen[k])] == c[i := SnapshotOf(i, seen[k])];
    }
  }

  /** The trades of one submission, each with the top of the book as it left it. */
  method OnAllTrades(p: MarketDataPublisher, trades: seq<Trade>, quotes: seq<Quote>, i: nat, ghost seen: seq<Book>)
    requires p.Valid() && quotes == QuotesIn(seen) && |trades| == |seen|
    requires (forall k :: 0 <= k < |trades| ==> trades[k].instrument == i) && (trades != [] ==> i in p.engine.books)
    modifies p, p.events, p.events.ring
    ensures p.Valid() && p.engine.View() == old(p.engine.View())
    ensures p.events.history == old(p.events.history) + TradeEvents(trades)
    ensures p.snapshots == OnTrades(old(p.snapshots), i, seen) && p.sent == old(p.sent) + Shots(i, seen)
  {
    hide MarketDataPublisher.Valid;
    hide MatchingEngine.Valid;
    hide MatchingEngine.View;
    hide SnapshotOf;
    hide OnTrades;
    ghost var c := p.snapshots;
    OnTradesLast(c, i, []);
    var k := 0;
    while k < |trades|
      invariant 0 <= k <= |trades| && p.Valid() && p.engine.View() == old(p.engine.View())
      invariant p.events.history == old(p.events.history) + TradeEvents(trades[..k])
      invariant p.snapshots == OnTrades(c, i, seen[..k]) && p.sent == old(p.sent) + Shots(i, seen[..k])
    {
      OneMoreShot(c, i, seen, k);
      assert TradeEvents(trades[..k + 1]) == TradeEvents(trades[..k]) + [TradeEvent(trades[k])];
      p.OnTrade(trades[k], quotes[k], seen[k]);
      k := k + 1;
    }
    assert trades[..k] == trades && seen[..k] == seen;
  }

  lemma TradesHere(e: Engine, o: Order, gate: Option<string>)
    ensures var ts := Submit(e, o, gate).trades;
            && |ts| == |SeenBy(e, o, gate)|
            && (forall k :: 0 <= k < |ts| ==> ts[k].instrument == o.instrument)
            && (ts != [] ==> o.instrument in Submit(e, o, gate).engine.books)
  {
    if Objection(e, o, gate).None? {
      var taker := Sequenced(e, o);
      SettleCases(e.books[o.instrument], taker);
      hide Settle;
      hide Sweep;
      hide Trail;
    }
  }

  /** What the listeners receive over a run of submissions. */
  function SentOf(e: Engine, ss: seq<Submission>): seq<Snapshot>
    decreases |ss|
  {
    if ss == [] then [] else SentBy(e, ss[0]) + SentOf(After(e, ss[0]), ss[1..])
  }

  /** One snapshot for each trade, of the book it left, and one for a refreshing result. */
  function SentBy(e: Engine, s: Submission): seq<Snapshot> {
    Shots(s.order.instrument, SeenBy(e, s.order, s.gate))
    + ResultShots(After(e, s), s.order.instrument, Submit(e, s.order, s.gate).result.status)
  }

  lemma ResultHere(e: Engine, o: Order, gate: Option<string>)
    ensures Submit(e, o, gate).result.instrument == o.instrument
    ensures Submit(e, o, gate).engine.books.Keys == e.books.Keys
  {
    hide Sweep;
    hide Insert;
    hide Insertable;
    hide Trades;
  }

  lemma CacheBy(c: Cache, e: Engine, s: Submission)
    ensures AfterSubmit(c, e, s) ==
            OnResult(OnTrades(c, s.order.instrument, SeenBy(e, s.order, s.gate)), After(e, s), s.order.instrument,
                     Submit(e, s.order, s.gate).result.status)
  {
  }

  /** The callbacks of a submission that the engine has carried out. */
  method PublishOutcome(p: MarketDataPublisher, trades: seq<Trade>, quotes: seq<Quote>, result: SubmitResult,
                        ghost e: Engine, s: Submission)
    requires p.Valid() && p.engine.View() == After(e, s)
    requires trades == Submit(e, s.order, s.gate).trades && result == Submit(e, s.order, s.gate).result
    requires quotes == QuotesIn(SeenBy(e, s.order, s.gate))
    modifies p, p.events, p.events.ring
    ensures p.Valid() && p.engine.View() == After(e, s)
    ensures p.events.history == old(p.events.history) + EventsOf(e, [s])
    ensures p.snapshots == AfterSubmit(old(p.snapshots), e, s)
    ensures p.sent == old(p.sent) + SentBy(e, s)
  {
    hide MarketDataPublisher.Valid;
    hide MatchingEngine.Valid;
    hide MatchingEngine.View;
    hide EngineSpec.Submit;
    hide SeenBy;
    hide SnapshotOf;
    hide OnTrades;
    hide QuotesIn;
    hide Shots;
    hide EventsOf;
    hide TradeEvents;
    hide OnResult;
    hide Refreshes;
    hide ResultEvent;
    hide ResultShots;
    var i := s.order.instrument;
    CacheBy(p.snapshots, e, s);
    hide AfterSubmit;
    p.engine.ViewAt();
    TradesHere(e, s.order, s.gate);
    ResultHere(e, s.order, s.gate);
    OneEvents(e, s);
    hide After;
    OnAllTrades(p, trades, quotes, i, SeenBy(e, s.order, s.gate));
    p.OnSubmitResult(result);
    assert p.events.history == old(p.events.history) + (TradeEvents(trades) + [ResultEvent(result)]);
    assert p.sent == old(p.sent) + SentBy(e, s);
  }

  method SubmitPublished(p: MarketDataPublisher, s: Submission)
    requires p.Valid()
    modifies p, p.events, p.events.ring, p.engine`next, p.engine.books.Values,
             set i, x | i in p.engine.books && x in p.engine.books[i].Repr :: x
    ensures p.Valid() && p.engine.books == old(p.engine.books)
    ensures forall i :: i in p.engine.books ==> fresh(p.engine.books[i].Repr - old(p.engine.books[i].Repr))
    ensures p.engine.View() == After(old(p.engine.View()), s)
    ensures p.events.history == old(p.events.history) + EventsOf(old(p.engine.View()), [s])
    ensures p.snapshots == AfterSubmit(old(p.snapshots), old(p.engine.View()), s)
    ensures p.sent == old(p.sent) + SentBy(old(p.engine.View()), s)
  {
    hide MatchingEngine.Valid;
    hide MatchingEngine.View;
    hide EngineSpec.Submit;
    hide EventsOf;
    hide AfterSubmit;
    hide SentBy;
    hide QuotesIn;
    ghost var e := p.engine.View();
    var sink := SubmitOrder(p.engine, s.order, s.gate);
    PublishOutcome(p, sink.trades, sink.quotes, sink.results[0], e, s);
  }

  lemma OneEvents(e: Engine, s: Submission)
    ensures var out := Submit(e, s.order, s.gate); EventsOf(e, [s]) == TradeEvents(out.trades) + [ResultEvent(out.result)]
  {
    hide Submit;
    assert [s][1..] == [];
    assert EventsOf(After(e, s), []) == [];
  }

  /** The events of a submission, field by field: its trades in order, then its result. */
  lemma EventsTell(e: Engine, s: Submission)
    ensures var out, es := Submit(e, s.order, s.gate), EventsOf(e, [s]);
            var n, r := |out.trades|, out.result;
            && |es| == n + 1
            && (forall k :: 0 <= k < n ==> es[k] == TradeEvent(out.trades[k]))
            && es[n] == OrderEvent(r.status, r.sequence, r.orderId, r.resting, if r.status.Rejected? then r.reason else "")
  {
    hide Submit;
    OneEvents(e, s);
    hide EventsOf;
  }

  /**
   What the listeners receive for a submission: for each trade the top of the book it left, and
   for a result that is neither a rejection nor a cancellation the top of the final book.
   */
  lemma SentTells(e: Engine, s: Submission)
    requires AllValid(e)
    ensures var out, i, sent := Submit(e, s.order, s.gate), s.order.instrument, SentBy(e, s);
            var n, refresh := |out.trades|, !out.result.status.Rejected? && !out.result.status.Cancelled?;
            && |sent| == n + (if refresh then 1 else 0)
            && |SeenBy(e, s.order, s.gate)| == n
            && (forall k :: 0 <= k < n ==> Shows(sent[k], i, SeenBy(e, s.order, s.gate)[k]))
            && (refresh ==> i in out.engine.books && Shows(sent[n], i, out.engine.books[i]))
  {
    var out, i, seen := Submit(e, s.order, s.gate), s.order.instrument, SeenBy(e, s.order, s.gate);
    hide Submit;
    hide SeenBy;
    hide SnapshotOf;
    hide Shows;
    hide BookSpec.Valid;
    TradesHere(e, s.order, s.gate);
    ResultHere(e, s.order, s.gate);
    SeenValid(e, s);
    StepValid(e, Enter(s.order, s.gate));
    forall k | 0 <= k < |seen| ensures Shows(SnapshotOf(i, seen[k]), i, seen[k]) {
      SnapshotShows(i, seen[k]);
    }
    assert After(e, s) == out.engine;
    if i in out.engine.books {
      SnapshotShows(i, out.engine.books[i]);
    }
    RefusedAlone(e, s);
  }

  lemma SeenValid(e: Engine, s: Submission)
    requires AllValid(e)
    ensures forall k :: 0 <= k < |SeenBy(e, s.order, s.gate)| ==> BookSpec.Valid(SeenBy(e, s.order, s.gate)[k])
  {
    hide BooksSeen;
    hide BookSpec.Valid;
    if Objection(e, s.order, s.gate).None? {
      var b, taker := e.books[s.order.instrument], Sequenced(e, s.order);
      forall k | 0 <= k < |BooksSeen(b, taker)| ensures BookSpec.Valid(BooksSeen(b, taker)[k]) {
        SeenIsPartial(b, taker, k);
      }
    }
  }

  /** A submission that is not refused leaves its instrument registered. */
  lemma RefusedAlone(e: Engine, s: Submission)
    ensures var out := Submit(e, s.order, s.gate);
            !out.result.status.Rejected? ==> s.order.instrument in out.engine.books
  {
    hide Settle;
    hide Trades;
  }

  /**
   A run of submissions through the publisher: the engine runs as on its own, every event is in
   the history in order, the listeners receive the book after each trade, and the cache is the
   one of the run.
   */
  method PublishRun(p: MarketDataPublisher, ss: seq<Submission>)
    requires p.Valid()
    modifies p, p.events, p.events.ring, p.engine`next, p.engine.books.Values,
             set i, x | i in p.engine.books && x in p.engine.books[i].Repr :: x
    ensures p.Valid() && p.engine.View() == RunAll(old(p.engine.View()), ss)
    ensures p.events.history == old(p.events.history) + EventsOf(old(p.engine.View()), ss)
    ensures p.snapshots == AfterAll(old(p.snapshots), old(p.engine.View()), ss)
    ensures p.sent == old(p.sent) + SentOf(old(p.engine.View()), ss)
  {
    hide MarketDataPublisher.Valid;
    hide MatchingEngine.Valid;
    hide MatchingEngine.View;
    hide EngineSpec.Submit;
    hide AfterSubmit;
    hide SentBy;
    ghost var e, c, h, out := p.engine.View(), p.snapshots, p.events.history, p.sent;
    var k := 0;
    while k < |ss|
      invariant 0 <= k <= |ss| && p.Valid() && p.engine.books == old(p.engine.books)
      invariant forall i :: i in p.engine.books ==> fresh(p.engine.books[i].Repr - old(p.engine.books[i].Repr))
      invariant RunAll(p.engine.View(), ss[k..]) == RunAll(e, ss)
      invariant AfterAll(p.snapshots, p.engine.View(), ss[k..]) == AfterAll(c, e, ss)
      invariant p.events.history + EventsOf(p.engine.View(), ss[k..]) == h + EventsOf(e, ss)
      invariant p.sent + SentOf(p.engine.View(), ss[k..]) == out + SentOf(e, ss)
    {
      EventsStep(p.events.history, p.engine.View(), ss[k..]);
      SentStep(p.sent, p.engine.View(), ss[k..]);
      assert ss[k..][0] == ss[k] && ss[k..][1..] == ss[k + 1..];
      SubmitPublished(p, ss[k]);
      k := k + 1;
    }
    assert ss[k..] == [];
    assert p.events.history + [] == p.events.history && p.sent + [] == p.sent;
  }

  lemma EventsStep(h: seq<MarketEvent>, e: Engine, ss: seq<Submission>)
    requires ss != []
    ensures h + EventsOf(e, ss) == h + EventsOf(e, [ss[0]]) + EventsOf(After(e, ss[0]), ss[1..])
  {
    OneEvents(e, ss[0]);
    hide Submit;
    hide TradeEvents;
    var first, later := EventsOf(e, [ss[0]]), EventsOf(After(e, ss[0]), ss[1..]);
    assert EventsOf(e, ss) == first + later;
    hide EventsOf;
    assert h + (first + later) == h + first + later;
  }

  lemma SentStep(out: seq<Snapshot>, e: Engine, ss: seq<Submission>)
    requires ss != []
    ensures out + SentOf(e, ss) == out + SentBy(e, ss[0]) + SentOf(After(e, ss[0]), ss[1..])
  {
    hide Submit;
    hide SentBy;
    var first, later := SentBy(e, ss[0]), SentOf(After(e, ss[0]), ss[1..]);
    assert SentOf(e, ss) == first + later;
    hide SentOf;
    assert out + (first + later) == out + first + later;
  }

  /** Published from the start, a run leaves every quote that the publisher shows equal to the live one. */
  method PublishAll(engine: MatchingEngine, ss: seq<Submission>, i: nat) returns (shown: Snapshot, recent: seq<MarketEvent>)
    requires engine.Valid()
    modifies engine`next, engine.books.Values, set i, x | i in engine.books && x in engine.books[i].Repr :: x
    ensures engine.Valid() && engine.View() == RunAll(old(engine.View()), ss)
    ensures shown == LiveTop(engine.View(), i)
    ensures i in engine.View().books ==> Shows(shown, i, engine.View().books[i])
    ensures i !in engine.View().books ==> shown == Snapshot(0, false, 0, 0, false, 0, 0)
    ensures recent == Newest(EventsOf(old(engine.View()), ss), 1024)
  {
    hide MatchingEngine.Valid;
    hide MatchingEngine.View;
    hide RunAll;
    hide EventsOf;
    hide AfterAll;
    hide SentOf;
    var p := new MarketDataPublisher(engine);
    PublishRun(p, ss);
    QuotesAreLive(old(engine.View()), ss, i);
    ViewsValid(engine);
    if i in engine.View().books {
      SnapshotShows(i, engine.View().books[i]);
    }
    hide Shows;
    hide LiveTop;
    hide Shown;
    assert [] + EventsOf(old(engine.View()), ss) == EventsOf(old(engine.View()), ss);
    shown := p.TopOfBook(i);
    recent := p.events.RecentEvents(1024);
  }
}
