/**
 The matching engine with its mutable state: a book per instrument and the sequence
 counter. Every method is proved to act on the books' views as the engine on values does.
 */
module Engines {
  import opened Types
  import opened BookSpec
  import opened MatchSpec
  import opened EngineSpec
  import opened Safety
  import opened Levels
  import opened Ladder
  import opened OrderBooks

  /** The top of both sides of a book. */
  datatype Quote = Quote(bid: TopOfBook, ask: TopOfBook)

  function QuoteIn(b: Book): Quote {
    Quote(TopOf(b.bids), TopOf(b.asks))
  }

  function QuotesIn(bs: seq<Book>): seq<Quote> {
    seq(|bs|, k requires 0 <= k < |bs| => QuoteIn(bs[k]))
  }

  /** Collects what the engine emits, and with each trade the top of the book as its callback finds it. */
  class CollectingSink {
    var trades: seq<Trade>
    var results: seq<SubmitResult>
    var quotes: seq<Quote>

    constructor ()
      ensures trades == [] && results == [] && quotes == []
    {
      trades, results, quotes := [], [], [];
    }

    method OnTrade(t: Trade, ob: OrderBook)
      requires ob.Valid() && this !in ob.Repr
      modifies this
      ensures trades == old(trades) + [t] && quotes == old(quotes) + [QuoteIn(ob.View())] && results == old(results)
    {
      hide OrderBook.ValidWith;
      hide OrderBook.View;
      var bid := ob.Top(Buy);
      var ask := ob.Top(Sell);
      trades, quotes := trades + [t], quotes + [Quote(bid, ask)];
    }

    method OnSubmitResult(r: SubmitResult)
      modifies this
      ensures results == old(results) + [r] && trades == old(trades) && quotes == old(quotes)
    {
      results := results + [r];
    }
  }

  /** The books after each fill of a taker. */
  function BooksSeen(b: Book, taker: Order): seq<Book> {
    OnSide(b, taker.side.Opposite(), Trail(b.Get(taker.side.Opposite()), taker))
  }

  /** What the sink of a submission sees of the book, trade by trade. */
  function SeenBy(e: Engine, o: Order, gate: Option<string>): seq<Book> {
    if Objection(e, o, gate).Some? then [] else BooksSeen(e.books[o.instrument], Sequenced(e, o))
  }

  /** Giving the order its id beforehand changes nothing. */
  lemma NamedAlike(e: Engine, o: Order, gate: Option<string>)
    requires e.next > 0
    ensures EngineSpec.Submit(e, o, gate) == EngineSpec.Submit(e, Named(e, o), gate)
    ensures SeenBy(e, o, gate) == SeenBy(e, Named(e, o), gate)
  {
  }

  /** An objection leaves the engine alone; without one the gate has no say. */
  lemma GateOpen(e: Engine, o: Order, gate: Option<string>)
    requires o.id != INVALID_ID
    ensures Objection(e, o, gate).Some? ==>
              && EngineSpec.Submit(e, o, gate) == Outcome(e, [], Refusal(o.id, o.instrument, Objection(e, o, gate).value))
              && SeenBy(e, o, gate) == []
    ensures Objection(e, o, gate).None? ==>
              && Objection(e, o, None).None?
              && EngineSpec.Submit(e, o, gate) == EngineSpec.Submit(e, o, None)
              && SeenBy(e, o, gate) == SeenBy(e, o, None)
  {
  }

  function OnSide(b: Book, side: Side, ss: seq<seq<Order>>): seq<Book> {
    seq(|ss|, k requires 0 <= k < |ss| => b.With(side, ss[k]))
  }

  lemma TradesGrow(taker: Order, fills: seq<Fill>, f: Fill, first: nat)
    ensures Trades(taker, fills + [f], first) == Trades(taker, fills, first) + [MakeTrade(taker, f, first + |fills|)]
  {
  }

  lemma OnSideGrows(b: Book, side: Side, ss: seq<seq<Order>>, s: seq<Order>)
    ensures OnSide(b, side, ss + [s]) == OnSide(b, side, ss) + [b.With(side, s)]
  {
  }

  /** Books that are separate objects with separate contents, none of them the engine. */
  ghost predicate ApartIn(engine: MatchingEngine, books: map<nat, OrderBook>)
    reads books.Values
  {
    && (forall i :: i in books ==> engine !in books[i].Repr)
    && (forall i, j :: i in books && j in books ==> books[j] !in books[i].Repr)
    && (forall i, j :: i in books && j in books && i != j ==> books[i] != books[j] && books[i].Repr !! books[j].Repr)
  }

  lemma QuotesGrow(bs: seq<Book>, b: Book)
    ensures QuotesIn(bs + [b]) == QuotesIn(bs) + [QuoteIn(b)]
  {
  }

  class MatchingEngine {
    var books: map<nat, OrderBook>
    var next: nat

    ghost function View(): Engine
      reads this, books.Values
    {
      Engine(map i | i in books :: books[i].View(), next)
    }

    /** Books are separate objects with separate levels and nodes. */
    ghost predicate Apart()
      reads this, books.Values
    {
      ApartIn(this, books)
    }

    ghost predicate Valid()
      reads this, books.Values, set i, x | i in books && x in books[i].Repr :: x
    {
      && Apart()
      && (forall i :: i in books ==> books[i].instrument == i && books[i].Valid())
      && next > 0
    }

    /** The book an order for this instrument can touch. */
    ghost function Footprint(i: nat): set<object>
      reads this, books.Values
    {
      if i in books then {books[i]} + books[i].Repr else {}
    }

    constructor ()
      ensures Valid() && View() == FRESH == Engine(map[], 1) && books == map[]
    {
      books, next := map[], 1;
    }

    /** Execute the taker against the front of the best opposite level. */
    method FillBest(ob: OrderBook, taker: OrderNode, resting: OrderNode, sink: CollectingSink)
      requires ob.Valid() && {this, taker, sink} !! ob.Repr
      requires Trading(ob.View().Get(taker.order.side.Opposite()), taker.order)
      requires resting in ob.Repr && resting.order == ob.View().Get(taker.order.side.Opposite())[0]
      requires resting.order.id in ob.index && ob.index[resting.order.id] == resting
      modifies this`next, ob, ob.Repr, taker, sink
      ensures ob.Valid() && ob.Repr <= old(ob.Repr)
      ensures var far := old(taker.order.side.Opposite());
              var s := old(ob.View()).Get(far);
              var q := Bite(s, old(taker.order));
              && ob.View() == old(ob.View()).With(far, FillAt(s, 0, q))
              && taker.order == Hit(old(taker.order), q)
              && next == old(next) + 1
              && sink.trades == old(sink.trades) + [MakeTrade(old(taker.order), Fill(s[0], q), old(next))]
              && sink.quotes == old(sink.quotes) + [QuoteIn(ob.View())]
              && sink.results == old(sink.results)
    {
      hide Shape;
      hide OrderBook.Heap;
      hide OrderBook.Stored;
      hide Flat;
      ghost var far := taker.order.side.Opposite();
      ob.ViewValid(ob.index);
      PosOfUnique(ob.View().Get(far), 0);
      assert HolderOf(ob.View(), resting.order.id) == far by { ob.IndexAgrees(ob.index, resting.order.id); }
      assert FilledAt(ob.View(), resting.order.id) == 0;
      var f := Fill(resting.order, Min(taker.order.remaining, resting.order.remaining));
      var t := MakeTrade(taker.order, f, next);
      var alive := ob.Fill(f.resting.id, f.qty);
      taker.order := taker.order.(remaining := taker.order.remaining - f.qty);
      next := next + 1;
      sink.OnTrade(t, ob);
    }

    /** Match the taker against the opposite side until it is exhausted or nothing crosses. */
    method MatchAgainst(ob: OrderBook, taker: OrderNode, sink: CollectingSink)
      requires ob.Valid() && {this, taker, sink} !! ob.Repr
      modifies this`next, ob, ob.Repr, taker, sink
      ensures ob.Valid() && ob.Repr <= old(ob.Repr)
      ensures Matched(old(ob.View()), old(taker.order), ob.View(), taker.order)
      ensures next == old(next) + |FillsFor(old(ob.View()), old(taker.order))|
      ensures sink.trades == old(sink.trades) + Trades(old(taker.order), FillsFor(old(ob.View()), old(taker.order)), old(next))
      ensures sink.quotes == old(sink.quotes) + QuotesIn(BooksSeen(old(ob.View()), old(taker.order)))
      ensures sink.results == old(sink.results)
    {
      hide OrderBook.ValidWith;
      hide Flat;
      hide Trades;
      hide OnSide;
      hide Sweep;
      hide Trail;
      var side := taker.order.side.Opposite();
      ghost var t0, v0 := taker.order, ob.View();
      ghost var done: seq<Fill>, past: seq<seq<Order>> := [], [];
      TradesNone(t0, next);
      while taker.order.remaining > 0
        invariant ob.Valid() && ob.Repr <= old(ob.Repr)
        invariant taker.order == t0.(remaining := taker.order.remaining)
        invariant ob.View() == v0.With(side, ob.View().Get(side))
        invariant Midway(v0.Get(side), t0, done, past, ob.View().Get(side), taker.order)
        invariant next == old(next) + |done|
        invariant sink.trades == old(sink.trades) + Trades(t0, done, old(next))
        invariant sink.quotes == old(sink.quotes) + QuotesIn(OnSide(v0, side, past))
        invariant sink.results == old(sink.results)
      {
        var best := ob.BestPrice(side);
        if !ValidPrice(best) {
          BestIsValid(ob, side);
          break;
        }
        if taker.order.kind.Limit? && !Crosses(taker.order, best) {
          break;
        }
        var resting := ob.BestOrder(side);
        if resting == null {
          break;
        }
        ghost var s, t := ob.View().Get(side), taker.order;
        BestIsValid(ob, side);
        MidwayTurn(v0.Get(side), t0, done, past, s, t);
        FillBest(ob, taker, resting, sink);
        ghost var f := Fill(s[0], Bite(s, t));
        TradesGrow(t0, done, f, old(next));
        OnSideGrows(v0, side, past, ob.View().Get(side));
        QuotesGrow(OnSide(v0, side, past), ob.View());
        done, past := done + [f], past + [ob.View().Get(side)];
      }
      MidwayEnds(v0.Get(side), t0, done, past, ob.View().Get(side), taker.order);
    }

    /** Match and settle a sequenced taker on its book. */
    method SettleOn(ob: OrderBook, taker: OrderNode, sink: CollectingSink)
      requires ob.Valid() && {this, taker, sink} !! ob.Repr
      requires taker.order.remaining > 0
      modifies this`next, ob, ob.Repr, taker, sink
      ensures ob.Valid() && fresh(ob.Repr - old(ob.Repr) - {taker})
      ensures var st := Settle(old(ob.View()), old(taker.order));
              && ob.View() == st.book
              && next == old(next) + |st.fills|
              && sink.trades == old(sink.trades) + Trades(old(taker.order), st.fills, old(next))
              && sink.results == old(sink.results) + [st.result]
      ensures sink.quotes == old(sink.quotes) + QuotesIn(BooksSeen(old(ob.View()), old(taker.order)))
    {
      hide OrderBook.ValidWith;
      hide Flat;
      hide Trades;
      hide Sweep;
      hide BooksSeen;
      ghost var b, t := ob.View(), taker.order;
      MatchAgainst(ob, taker, sink);
      var done := taker.order.quantity - taker.order.remaining;
      if taker.order.remaining <= 0 {
        sink.OnSubmitResult(Report(taker.order, FullyFilled, taker.order.quantity, 0, ""));
      } else if taker.order.kind.Market? {
        if done > 0 {
          sink.OnSubmitResult(Report(taker.order, SubmitStatus.PartiallyFilled, done, 0, ""));
        } else {
          sink.OnSubmitResult(Report(taker.order, SubmitStatus.Rejected, done, 0, "no liquidity for market order"));
        }
      } else if taker.order.tif.IOC? {
        sink.OnSubmitResult(Report(taker.order,
                                   if done > 0 then SubmitStatus.PartiallyFilled else SubmitStatus.Cancelled, done, 0, ""));
      } else {
        ResidualFree(ob, b, t, taker.order);
        var inserted := ob.Insert(taker);
        if inserted {
          sink.OnSubmitResult(Report(taker.order, Accepted, done, taker.order.remaining, ""));
        } else {
          sink.OnSubmitResult(Report(taker.order, SubmitStatus.Rejected, done, taker.order.remaining, "duplicate order id"));
        }
      }
    }

    /** All books but the one of instrument i are as they were. */
    ghost predicate Rest(i: nat, e: Engine)
      reads this, books.Values, set j, x | j in books && x in books[j].Repr :: x
    {
      && books.Keys == e.books.Keys
      && (forall j :: j in books ==> books[j].instrument == j && books[j].Valid())
      && (forall j :: j in books && j != i ==> books[j].View() == e.books[j])
    }

    lemma OneBook(i: nat, e: Engine)
      requires i in books && Rest(i, e)
      ensures View() == Engine(e.books[i := books[i].View()], next)
    {
      hide OrderBook.ValidWith;
      hide OrderBook.View;
    }

    /** The view, book by book. */
    lemma ViewAt()
      ensures View().books.Keys == books.Keys && View().next == next
      ensures forall j :: j in books ==> View().books[j] == books[j].View()
    {
      hide OrderBook.View;
    }

    lemma Holds(e: Engine)
      requires books.Keys == e.books.Keys && next == e.next && forall j :: j in books ==> books[j].View() == e.books[j]
      ensures View() == e
    {
      hide OrderBook.View;
    }

    /** Number the order, then match and settle it on its book. */
    method Execute(ob: OrderBook, order: OrderNode, sink: CollectingSink)
      requires ob.Valid() && {this, order, sink} !! ob.Repr && order.order.remaining > 0
      modifies this`next, ob, ob.Repr, order, sink
      ensures ob.Valid() && fresh(ob.Repr - old(ob.Repr) - {order})
      ensures var taker := old(order.order).(sequence := old(next));
              var st := Settle(old(ob.View()), taker);
              && ob.View() == st.book
              && next == old(next) + 1 + |st.fills|
              && sink.trades == old(sink.trades) + Trades(taker, st.fills, old(next) + 1)
              && sink.results == old(sink.results) + [st.result]
              && sink.quotes == old(sink.quotes) + QuotesIn(BooksSeen(old(ob.View()), taker))
    {
      hide OrderBook.ValidWith;
      hide OrderBook.View;
      hide Settle;
      hide Trades;
      hide BooksSeen;
      order.order := order.order.(sequence := next);
      next := next + 1;
      SettleOn(ob, order, sink);
    }

    /** The same on the book of the order's instrument; the other books stay as they are. */
    method Route(order: OrderNode, sink: CollectingSink)
      requires Valid() && order.order.instrument in books && order.order.remaining > 0
      requires forall i :: i in books ==> order !in books[i].Repr && sink !in books[i].Repr
      modifies this`next, order, sink, Footprint(order.order.instrument)
      ensures books == old(books) && Apart() && Rest(old(order.order.instrument), old(View()))
      ensures forall i :: i in books ==> fresh(books[i].Repr - old(books[i].Repr) - {order})
      ensures var i, b := old(order.order.instrument), old(books[order.order.instrument].View());
              var taker := old(order.order).(sequence := old(next));
              && books[i].View() == Settle(b, taker).book
              && next == old(next) + 1 + |Settle(b, taker).fills|
              && sink.trades == old(sink.trades) + Trades(taker, Settle(b, taker).fills, old(next) + 1)
              && sink.results == old(sink.results) + [Settle(b, taker).result]
              && sink.quotes == old(sink.quotes) + QuotesIn(BooksSeen(b, taker))
    {
      hide OrderBook.ValidWith;
      hide OrderBook.View;
      hide Settle;
      hide Trades;
      hide BooksSeen;
      Execute(books[order.order.instrument], order, sink);
    }

    /** The checks a submission must pass before it is numbered. */
    method Screen(o: Order, gate: Option<string>) returns (objection: Option<string>)
      requires Valid()
      ensures objection == Objection(View(), o, gate)
    {
      if o.instrument == INVALID_ID {
        return Some("invalid instrument");
      }
      if !ValidQuantity(o.quantity) || o.remaining <= 0 {
        return Some("invalid quantity");
      }
      if o.kind.Limit? && !ValidPrice(o.price) {
        return Some("invalid price");
      }
      if o.instrument !in books {
        return Some("instrument not registered");
      }
      if gate.Some? {
        return Some("risk: " + gate.value);
      }
      return None;
    }

    method Admit(order: OrderNode, sink: CollectingSink)
      requires Valid() && order.order.id != INVALID_ID && Objection(View(), order.order, None).None?
      requires forall i :: i in books ==> order !in books[i].Repr && sink !in books[i].Repr
      modifies this`next, order, sink, Footprint(order.order.instrument)
      ensures Valid() && books == old(books)
      ensures forall i :: i in books ==> fresh(books[i].Repr - old(books[i].Repr) - {order})
      ensures var out := EngineSpec.Submit(old(View()), old(order.order), None);
              && View() == out.engine
              && sink.trades == old(sink.trades) + out.trades
              && sink.results == old(sink.results) + [out.result]
              && sink.quotes == old(sink.quotes) + QuotesIn(SeenBy(old(View()), old(order.order), None))
    {
      hide OrderBook.ValidWith;
      hide OrderBook.View;
      hide Settle;
      hide Trades;
      hide BooksSeen;
      ghost var e, o := View(), order.order;
      Route(order, sink);
      OneBook(o.instrument, e);
    }

    lemma Started()
      requires Valid()
      ensures View().next == next > 0
    {
    }

    /** Refuse a named order, or admit it. */
    method Decide(order: OrderNode, gate: Option<string>, sink: CollectingSink)
      requires Valid() && order.order.id != INVALID_ID
      requires forall i :: i in books ==> order !in books[i].Repr && sink !in books[i].Repr
      modifies this`next, order, sink, Footprint(order.order.instrument)
      ensures Valid() && books == old(books)
      ensures forall i :: i in books ==> fresh(books[i].Repr - old(books[i].Repr) - {order})
      ensures var out := EngineSpec.Submit(old(View()), old(order.order), gate);
              && View() == out.engine
              && sink.trades == old(sink.trades) + out.trades
              && sink.results == old(sink.results) + [out.result]
              && sink.quotes == old(sink.quotes) + QuotesIn(SeenBy(old(View()), old(order.order), gate))
    {
      hide MatchingEngine.Valid;
      hide MatchingEngine.View;
      hide EngineSpec.Submit;
      hide SeenBy;
      hide Objection;
      GateOpen(View(), order.order, gate);
      var objection := Screen(order.order, gate);
      if objection.Some? {
        sink.OnSubmitResult(Refusal(order.order.id, order.order.instrument, objection.value));
      } else {
        Admit(order, sink);
      }
    }

    /** Submit an order; the gate's objection, if any, is an input. The caller hands over ownership. */
    method Submit(order: OrderNode?, gate: Option<string>, sink: CollectingSink)
      requires Valid()
      requires forall i :: i in books ==> order !in books[i].Repr && sink !in books[i].Repr
      modifies this`next, order, sink, if order == null then {} else Footprint(order.order.instrument)
      ensures Valid() && books == old(books)
      ensures forall i :: i in books ==> fresh(books[i].Repr - old(books[i].Repr) - {order})
      ensures order == null ==>
                View() == old(View()) && sink.trades == old(sink.trades) && sink.quotes == old(sink.quotes)
                && sink.results == old(sink.results) + [Refusal(INVALID_ID, INVALID_ID, "null order")]
      ensures order != null ==>
                var out := EngineSpec.Submit(old(View()), old(order.order), gate);
                && View() == out.engine
                && sink.trades == old(sink.trades) + out.trades
                && sink.results == old(sink.results) + [out.result]
                && sink.quotes == old(sink.quotes) + QuotesIn(SeenBy(old(View()), old(order.order), gate))
    {
      hide MatchingEngine.Valid;
      hide MatchingEngine.View;
      hide EngineSpec.Submit;
      hide SeenBy;
      if order == null {
        sink.OnSubmitResult(Refusal(INVALID_ID, INVALID_ID, "null order"));
        return;
      }
      Started();
      NamedAlike(View(), order.order, gate);
      if order.order.id == INVALID_ID {
        order.order := order.order.(id := next);
      }
      Decide(order, gate, sink);
    }

    method Cancel(i: nat, id: nat) returns (ok: bool)
      requires Valid()
      modifies Footprint(i)
      ensures Valid() && books == old(books)
      ensures forall j :: j in books ==> fresh(books[j].Repr - old(books[j].Repr))
      ensures View() == Next(old(View()), Withdraw(i, id))
      ensures ok <==> i in old(books) && Cancellable(old(books[i].View()), id)
    {
      hide OrderBook.ValidWith;
      hide OrderBook.View;
      hide BookSpec.Cancel;
      hide Cancellable;
      ViewAt();
      hide MatchingEngine.View;
      if i !in books {
        return false;
      }
      ghost var e := View();
      ok := books[i].Cancel(id);
      OneBook(i, e);
    }

    method Reduce(i: nat, id: nat, qty: int) returns (ok: bool)
      requires Valid()
      modifies Footprint(i)
      ensures Valid() && books == old(books)
      ensures forall j :: j in books ==> fresh(books[j].Repr - old(books[j].Repr))
      ensures View() == Next(old(View()), Trim(i, id, qty))
      ensures ok <==> i in old(books) && Reducible(old(books[i].View()), id, qty)
    {
      hide OrderBook.ValidWith;
      hide OrderBook.View;
      hide BookSpec.Reduce;
      hide Reducible;
      ViewAt();
      hide MatchingEngine.View;
      if i !in books {
        return false;
      }
      ghost var e := View();
      ok := books[i].Reduce(id, qty);
      OneBook(i, e);
    }

    method Modify(i: nat, id: nat, qty: int, price: int) returns (r: ModifyResult)
      requires Valid()
      requires Allowed(View(), Change(i, id, qty, price))
      modifies Footprint(i)
      ensures Valid() && books == old(books)
      ensures forall j :: j in books ==> fresh(books[j].Repr - old(books[j].Repr))
      ensures View() == Next(old(View()), Change(i, id, qty, price))
      ensures r == if i in old(books) then ModifyKind(old(books[i].View()), id, qty, price) else NotFound
    {
      hide OrderBook.ValidWith;
      hide OrderBook.View;
      hide BookSpec.Modify;
      hide ModifyKind;
      hide Permitted;
      ViewAt();
      hide MatchingEngine.View;
      if i !in books {
        return NotFound;
      }
      ghost var e := View();
      r := books[i].Modify(id, qty, price);
      OneBook(i, e);
    }

    method Enlist(i: nat, ob: OrderBook)
      requires Valid() && i !in books && ob.instrument == i && ob.Valid() && ob.View() == EMPTY && ob.Repr == {}
      requires forall j :: j in books ==> books[j] != ob && ob !in books[j].Repr
      modifies this`books
      ensures Valid() && View() == OnBook(old(View()), i, EMPTY) && books == old(books)[i := ob]
    {
      hide OrderBook.ValidWith;
      hide OrderBook.View;
      hide OrderBook.Valid;
      ghost var e := OnBook(View(), i, EMPTY);
      JoinApart(i, ob);
      books := books[i := ob];
      forall j | j in books ensures books[j].instrument == j && books[j].Valid() && books[j].View() == e.books[j] {
      }
      hide ApartIn;
      Holds(e);
    }

    /** A book without contents is apart from all others. */
    lemma JoinApart(i: nat, ob: OrderBook)
      requires Apart() && i !in books && ob.Repr == {}
      requires forall j :: j in books ==> books[j] != ob && ob !in books[j].Repr
      ensures ApartIn(this, books[i := ob])
    {
    }

    method RegisterInstrument(i: nat)
      requires Valid()
      modifies this`books
      ensures Valid() && View() == Next(old(View()), Register(i))
      ensures forall j :: j in books ==> (j in old(books) && books[j] == old(books[j])) || (fresh(books[j]) && books[j].Repr == {})
    {
      hide OrderBook.ValidWith;
      hide OrderBook.View;
      if i !in books {
        var ob := new OrderBook(i);
        assert forall j :: j in books ==> books[j] != ob && ob !in books[j].Repr && books[j].Valid();
        Enlist(i, ob);
      }
    }

    method UnregisterInstrument(i: nat) returns (ok: bool)
      requires Valid()
      modifies this`books
      ensures Valid() && View() == Next(old(View()), Unregister(i)) && ok == (i in old(books))
      ensures books == old(books) - {i}
    {
      hide OrderBook.ValidWith;
      hide OrderBook.View;
      hide OrderBook.Valid;
      LeaveApart(i);
      ViewAt();
      ghost var e := Next(View(), Unregister(i));
      hide MatchingEngine.View;
      ok := i in books;
      books := books - {i};
      forall j | j in books ensures books[j].instrument == j && books[j].Valid() && books[j].View() == e.books[j] {
      }
      hide ApartIn;
      Holds(e);
    }

    lemma LeaveApart(i: nat)
      requires Apart()
      ensures ApartIn(this, books - {i})
    {
    }
  }

  /** The views of an engine's books are valid books. */
  lemma ViewsValid(engine: MatchingEngine)
    requires engine.Valid()
    ensures AllValid(engine.View())
  {
    hide OrderBook.ValidWith;
    hide OrderBook.View;
    forall i | i in engine.books ensures BookSpec.Valid(engine.books[i].View()) {
      engine.books[i].ViewValid(engine.books[i].index);
    }
  }

  /** Submit an order given by value; the sink holds what it emits. */
  method SubmitOrder(engine: MatchingEngine, o: Order, gate: Option<string>) returns (sink: CollectingSink)
    requires engine.Valid()
    modifies engine`next, engine.books.Values, set i, x | i in engine.books && x in engine.books[i].Repr :: x
    ensures engine.Valid() && engine.books == old(engine.books) && fresh(sink)
    ensures forall i :: i in engine.books ==> fresh(engine.books[i].Repr - old(engine.books[i].Repr))
    ensures var out := EngineSpec.Submit(old(engine.View()), o, gate);
            engine.View() == out.engine && sink.trades == out.trades && sink.results == [out.result]
    ensures sink.quotes == QuotesIn(SeenBy(old(engine.View()), o, gate))
  {
    hide MatchingEngine.Valid;
    hide MatchingEngine.View;
    hide EngineSpec.Submit;
    hide SeenBy;
    hide QuotesIn;
    var node := new OrderNode(o);
    sink := new CollectingSink();
    engine.Submit(node, gate, sink);
  }

  // ---- The match loop as a whole ------------------------------------------------------

  lemma TradesNone(t: Order, n: nat)
    ensures Trades(t, [], n) == []
    ensures forall b: Book, side: Side :: OnSide(b, side, []) == []
    ensures QuotesIn([]) == []
  {
  }

  lemma BestIsValid(ob: OrderBook, side: Side)
    requires ob.Valid()
    ensures var s := ob.View().Get(side); s != [] ==> ValidPrice(s[0].price) && s[0].remaining > 0
  {
    hide OrderBook.Heap;
    hide OrderBook.Stored;
    hide Flat;
    ob.ViewValid(ob.index);
  }

  /** A limit order that is not exhausted rests at a price the other side does not hold. */
  lemma ResidualFree(ob: OrderBook, b: Book, t: Order, left: Order)
    requires ob.Valid() && Matched(b, t, ob.View(), left) && left.remaining > 0 && t.kind.Limit?
    ensures Unshared(ob.View(), left.side, left.price)
  {
    hide OrderBook.Heap;
    hide OrderBook.Stored;
    hide Flat;
    ob.ViewValid(ob.index);
    SweepTrims(b.Get(t.side.Opposite()), t);
    var far := ob.View().Get(t.side.Opposite());
    forall k | 0 <= k < |far| ensures far[k].price != t.price {
      assert k > 0 ==> !Better(t.side.Opposite(), far[k].price, far[0].price);
    }
  }

  function FillsFor(b: Book, taker: Order): seq<Fill> {
    Sweep(b.Get(taker.side.Opposite()), taker).fills
  }

  /** The book and the taker after the match loop. */
  ghost predicate Matched(b: Book, taker: Order, after: Book, left: Order) {
    var r := Sweep(b.Get(taker.side.Opposite()), taker);
    after == b.With(taker.side.Opposite(), r.rest) && left == taker.(remaining := r.left)
  }

  /** The sweep of s0 by t0 has produced `done`, leaving `past` behind, and has yet to sweep s by t. */
  ghost predicate Midway(s0: seq<Order>, t0: Order, done: seq<Fill>, past: seq<seq<Order>>, s: seq<Order>, t: Order) {
    var on := Sweep(s, t);
    && |past| == |done|
    && Sweep(s0, t0) == Swept(done + on.fills, on.rest, on.left)
    && Trail(s0, t0) == past + Trail(s, t)
  }

  lemma MidwayTurn(s0: seq<Order>, t0: Order, done: seq<Fill>, past: seq<seq<Order>>, s: seq<Order>, t: Order)
    requires Midway(s0, t0, done, past, s, t) && Trading(s, t) && s[0].remaining > 0
    ensures var q := Bite(s, t);
            Midway(s0, t0, done + [Fill(s[0], q)], past + [FillAt(s, 0, q)], FillAt(s, 0, q), Hit(t, q))
  {
    SweepTurn(s, t);
    hide Sweep;
    hide Trail;
    hide FillAt;
    var q := Bite(s, t);
    var on := Sweep(FillAt(s, 0, q), Hit(t, q));
    assert done + ([Fill(s[0], q)] + on.fills) == done + [Fill(s[0], q)] + on.fills;
    var tr := Trail(FillAt(s, 0, q), Hit(t, q));
    assert past + ([FillAt(s, 0, q)] + tr) == past + [FillAt(s, 0, q)] + tr;
  }

  lemma MidwayEnds(s0: seq<Order>, t0: Order, done: seq<Fill>, past: seq<seq<Order>>, s: seq<Order>, t: Order)
    requires Midway(s0, t0, done, past, s, t) && !Trading(s, t)
    ensures Sweep(s0, t0) == Swept(done, s, t.remaining) && Trail(s0, t0) == past
  {
    assert done + [] == done && past + [] == past;
  }
}
