/** The top-of-book cache as a function of the run: what the publisher shows is what the books hold. */
module Quotes {
  import opened Types
  import opened BookSpec
  import opened MatchSpec
  import opened EngineSpec
  import opened Safety
  import opened Engines

  datatype Snapshot = Snapshot(
    instrument: nat,
    hasBid: bool,
    bidPrice: int,
    bidQty: int,
    hasAsk: bool,
    askPrice: int,
    askQty: int)

  const NO_SNAPSHOT: Snapshot := Snapshot(INVALID_ID, false, 0, 0, false, 0, 0)

  function BestPriceOf(s: seq<Order>): int {
    if s == [] then 0 else s[0].price
  }

  function BestQuantityOf(s: seq<Order>): int {
    if s == [] then 0 else TotalAt(s, s[0].price)
  }

  function SnapshotOf(i: nat, b: Book): Snapshot {
    Snapshot(i, b.bids != [], BestPriceOf(b.bids), BestQuantityOf(b.bids),
             b.asks != [], BestPriceOf(b.asks), BestQuantityOf(b.asks))
  }

  type Cache = map<nat, Snapshot>

  function LiveTop(e: Engine, i: nat): Snapshot {
    if i in e.books then SnapshotOf(i, e.books[i]) else NO_SNAPSHOT
  }

  /** What the publisher answers for an instrument. */
  function Shown(c: Cache, e: Engine, i: nat): Snapshot {
    if i in c then c[i] else LiveTop(e, i)
  }

  // ---- What a snapshot says --------------------------------------------------------------------

  /** The snapshot of this book, field by field: the best price of each side, and all that rests at it. */
  ghost predicate Shows(s: Snapshot, i: nat, b: Book) {
    && s.instrument == i
    && (s.hasBid <==> b.bids != [])
    && (s.hasBid ==>
          && (exists k :: 0 <= k < |b.bids| && b.bids[k].price == s.bidPrice)
          && (forall k :: 0 <= k < |b.bids| ==> b.bids[k].price <= s.bidPrice)
          && s.bidQty == TotalAt(b.bids, s.bidPrice))
    && (!s.hasBid ==> s.bidPrice == 0 && s.bidQty == 0)
    && (s.hasAsk <==> b.asks != [])
    && (s.hasAsk ==>
          && (exists k :: 0 <= k < |b.asks| && b.asks[k].price == s.askPrice)
          && (forall k :: 0 <= k < |b.asks| ==> b.asks[k].price >= s.askPrice)
          && s.askQty == TotalAt(b.asks, s.askPrice))
    && (!s.hasAsk ==> s.askPrice == 0 && s.askQty == 0)
  }

  lemma SnapshotShows(i: nat, b: Book)
    requires BookSpec.Valid(b)
    ensures Shows(SnapshotOf(i, b), i, b)
  {
    hide TotalAt;
    assert forall k :: 0 < k < |b.bids| ==> !Better(Buy, b.bids[k].price, b.bids[0].price);
    assert forall k :: 0 < k < |b.asks| ==> !Better(Sell, b.asks[k].price, b.asks[0].price);
  }

  // ---- What a submission does to the cache ---------------------------------------------------

  /** One notification for each trade, with the book as that trade left it. */
  function OnTrades(c: Cache, i: nat, seen: seq<Book>): Cache
    decreases |seen|
  {
    if seen == [] then c else OnTrades(c[i := SnapshotOf(i, seen[0])], i, seen[1..])
  }

  predicate Refreshes(s: SubmitStatus) {
    s.Accepted? || s.PartiallyFilled? || s.FullyFilled?
  }

  function OnResult(c: Cache, e: Engine, i: nat, s: SubmitStatus): Cache {
    if Refreshes(s) && i in e.books then c[i := SnapshotOf(i, e.books[i])] else c
  }

  function AfterSubmit(c: Cache, e: Engine, s: Submission): Cache {
    OnResult(OnTrades(c, s.order.instrument, SeenBy(e, s.order, s.gate)),
             After(e, s), s.order.instrument, Submit(e, s.order, s.gate).result.status)
  }

  function AfterAll(c: Cache, e: Engine, ss: seq<Submission>): Cache
    decreases |ss|
  {
    if ss == [] then c else AfterAll(AfterSubmit(c, e, ss[0]), After(e, ss[0]), ss[1..])
  }

  // ---- Agreement --------------------------------------------------------------------------

  ghost predicate Agrees(c: Cache, e: Engine) {
    forall i :: i in c ==> i in e.books && c[i] == SnapshotOf(i, e.books[i])
  }

  lemma {:induction false} OnTradesLast(c: Cache, i: nat, seen: seq<Book>)
    ensures OnTrades(c, i, seen) == if seen == [] then c else c[i := SnapshotOf(i, seen[|seen| - 1])]
    decreases |seen|
  {
    if seen != [] {
      OnTradesLast(c[i := SnapshotOf(i, seen[0])], i, seen[1..]);
    }
  }

  /** The last state of the opposite side that a sweep shows is the one it leaves. */
  lemma {:induction false} TrailEnds(s: seq<Order>, taker: Order)
    ensures var t, rest := Trail(s, taker), Sweep(s, taker).rest;
            if t == [] then rest == s else rest == t[|t| - 1]
    decreases |s|
  {
    if Trading(s, taker) && Bite(s, taker) >= s[0].remaining {
      TrailEnds(s[1..], Hit(taker, Bite(s, taker)));
    }
  }

  /** Without a refreshing result, the book is the one the last trade showed. */
  lemma SettleSeen(b: Book, taker: Order)
    requires !Refreshes(Settle(b, taker).result.status)
    ensures var seen := BooksSeen(b, taker);
            Settle(b, taker).book == if seen == [] then b else seen[|seen| - 1]
  {
    hide Sweep;
    hide Trail;
    hide Insert;
    hide Insertable;
    TrailEnds(b.Get(taker.side.Opposite()), taker);
  }

  lemma SubmitAgrees(c: Cache, e: Engine, s: Submission)
    requires Agrees(c, e)
    ensures Agrees(AfterSubmit(c, e, s), After(e, s))
  {
    hide Settle;
    hide BooksSeen;
    hide Trades;
    hide SnapshotOf;
    var o := s.order;
    OnTradesLast(c, o.instrument, SeenBy(e, o, s.gate));
    hide OnTrades;
    if Objection(e, o, s.gate).None? && !Refreshes(Submit(e, o, s.gate).result.status) {
      SettleSeen(e.books[o.instrument], Sequenced(e, o));
    }
  }

  lemma {:induction false} CacheAgrees(c: Cache, e: Engine, ss: seq<Submission>)
    requires Agrees(c, e)
    ensures Agrees(AfterAll(c, e, ss), RunAll(e, ss))
    decreases |ss|
  {
    if ss != [] {
      SubmitAgrees(c, e, ss[0]);
      hide Agrees;
      hide AfterSubmit;
      hide After;
      CacheAgrees(AfterSubmit(c, e, ss[0]), After(e, ss[0]), ss[1..]);
    }
  }

  /** After every run of submissions, the publisher shows the live top of every instrument's book. */
  lemma QuotesAreLive(e: Engine, ss: seq<Submission>, i: nat)
    ensures Shown(AfterAll(map[], e, ss), RunAll(e, ss), i) == LiveTop(RunAll(e, ss), i)
  {
    CacheAgrees(map[], e, ss);
  }

  // ---- What each trade shows -----------------------------------------------------------------

  /** The book a trade shows is the one left by a taker that wanted exactly the fills so far. */
  lemma {:induction false} TrailIsPartialSweep(s: seq<Order>, taker: Order, k: nat)
    requires forall i :: 0 <= i < |s| ==> s[i].remaining > 0
    requires k < |Sweep(s, taker).fills|
    ensures var wanted := Lots(Sweep(s, taker).fills[..k + 1]);
            wanted > 0 && Trail(s, taker)[k] == Sweep(s, taker.(remaining := wanted)).rest
    decreases |s|
  {
    var q, fills := Bite(s, taker), Sweep(s, taker).fills;
    LotsStep(fills, k + 1);
    if q < s[0].remaining {
      assert taker.(remaining := q) == taker;
    } else {
      var more := Sweep(s[1..], Hit(taker, q)).fills;
      assert fills[1..] == more;
      var wanted := Lots(fills[..k + 1]);
      if k > 0 {
        TrailIsPartialSweep(s[1..], Hit(taker, q), k - 1);
      }
      PartialStep(s, taker, wanted);
    }
  }

  /** So every book that a trade shows is well-formed, and its taker's side is untouched. */
  lemma SeenIsPartial(b: Book, taker: Order, k: nat)
    requires BookSpec.Valid(b) && k < |BooksSeen(b, taker)|
    ensures var far := taker.side.Opposite();
            var fills := Sweep(b.Get(far), taker).fills;
            && BookSpec.Valid(BooksSeen(b, taker)[k])
            && k < |fills|
            && BooksSeen(b, taker)[k].Get(taker.side) == b.Get(taker.side)
            && BooksSeen(b, taker)[k].Get(far) == Sweep(b.Get(far), taker.(remaining := Lots(fills[..k + 1]))).rest
  {
    var far := taker.side.Opposite();
    var fills := Sweep(b.Get(far), taker).fills;
    TrailIsPartialSweep(b.Get(far), taker, k);
    SweptValid(b, taker.(remaining := Lots(fills[..k + 1])));
    hide Sweep;
    hide Trail;
    hide Lots;
    hide BookSpec.Valid;
  }

  lemma LotsStep(fills: seq<Fill>, k: nat)
    requires 0 < k <= |fills|
    ensures Lots(fills[..k]) == fills[0].qty + Lots(fills[1..][..k - 1])
  {
    assert fills[..k][1..] == fills[1..][..k - 1];
  }

  lemma PartialStep(s: seq<Order>, taker: Order, wanted: int)
    requires s != [] && Crosses(taker, s[0].price) && 0 < s[0].remaining <= wanted
    ensures Sweep(s, taker.(remaining := wanted)).rest ==
            Sweep(s[1..], taker.(remaining := wanted - s[0].remaining)).rest
  {
    assert Hit(taker.(remaining := wanted), s[0].remaining) == taker.(remaining := wanted - s[0].remaining);
  }
}
