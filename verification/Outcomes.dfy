/** What a submission reports, in terms of the liquidity it could reach. */
module Outcomes {
  import opened Types
  import opened BookSpec
  import opened MatchSpec
  import opened EngineSpec
  import opened Safety
  import opened Modifying
  import opened Conservation

  // ---- Liquidity ---------------------------------------------------------------------------

  /** Everything that rests on a side at p or below, and at p or above. */
  function UpTo(s: seq<Order>, p: int): int {
    if s == [] then 0 else (if s[0].price <= p then s[0].remaining else 0) + UpTo(s[1..], p)
  }

  function DownTo(s: seq<Order>, p: int): int {
    if s == [] then 0 else (if s[0].price >= p then s[0].remaining else 0) + DownTo(s[1..], p)
  }

  /** Everything that rests on the opposite side at prices the taker accepts, by a scan of the side. */
  function Liquidity(s: seq<Order>, taker: Order): int {
    if taker.kind.Market? then Total(s)
    else if taker.side.Buy? then UpTo(s, taker.price)
    else DownTo(s, taker.price)
  }

  lemma LiquidityStep(s: seq<Order>, taker: Order)
    requires s != []
    ensures Liquidity(s, taker) ==
            (if Crosses(taker, s[0].price) then s[0].remaining else 0) + Liquidity(s[1..], taker)
  {
  }

  lemma {:induction false} NoLiquidity(s: seq<Order>, taker: Order)
    requires forall k :: 0 <= k < |s| ==> !Crosses(taker, s[k].price)
    ensures Liquidity(s, taker) == 0
  {
    if s != [] {
      LiquidityStep(s, taker);
      NoLiquidity(s[1..], taker);
    }
  }

  /** When the accepted prices come first, the liquidity is what the first orders hold. */
  lemma {:induction false} LiquidityIsPrefix(s: seq<Order>, taker: Order)
    requires forall k :: 0 <= k < |s| ==> (Crosses(taker, s[k].price) <==> k < Reach(s, taker))
    ensures Liquidity(s, taker) == Total(s[..Reach(s, taker)])
  {
    var n := Reach(s, taker);
    if n == 0 {
      NoLiquidity(s, taker);
    } else {
      assert Reach(s[1..], taker) == n - 1;
      forall k | 0 <= k < |s| - 1 ensures Crosses(taker, s[1..][k].price) <==> k < n - 1 {
        assert s[1..][k] == s[k + 1];
      }
      LiquidityStep(s, taker);
      hide Liquidity;
      LiquidityIsPrefix(s[1..], taker);
      TotalTakeStep(s, n);
    }
  }

  /** A sweep takes what the taker wants or all the liquidity there is. */
  lemma SweepTakes(s: seq<Order>, taker: Order)
    requires ValidSide(s, taker.side.Opposite()) && taker.remaining > 0
    ensures Lots(Sweep(s, taker).fills) == Min(taker.remaining, Liquidity(s, taker))
    ensures Sweep(s, taker).left == taker.remaining - Lots(Sweep(s, taker).fills)
    ensures Liquidity(s, taker) >= 0
  {
    SweepIsGreedy(s, taker);
    ReachIsAll(s, taker);
    hide Sweep;
    hide Reach;
    LiquidityIsPrefix(s, taker);
    TotalBounds(s[..Reach(s, taker)]);
  }

  /**
   Status, filled and resting quantity of a submission follow from the liquidity it could reach,
   its kind and its time in force: five exclusive cases. A residual can rest exactly when its id
   is not live and its quantity is a valid one.
   */
  lemma SettleReports(b: Book, taker: Order)
    requires Valid(b) && taker.remaining > 0 && taker.id != INVALID_ID && (taker.kind.Limit? ==> ValidPrice(taker.price))
    ensures var far := taker.side.Opposite();
            var s := b.Get(far);
            var st, taken := Settle(b, taker), Min(taker.remaining, Liquidity(s, taker));
            var left, status := taker.remaining - taken, st.result.status;
            var free := !Live(b.With(far, Sweep(s, taker).rest), taker.id) && 0 < left <= 1_000_000_000_000;
            var rests := taker.kind.Limit? && !taker.tif.IOC?;
            && (status.FullyFilled? <==> left == 0)
            && (status.Accepted? <==> left > 0 && rests && free)
            && (status.PartiallyFilled? <==> left > 0 && !rests && taker.quantity > left)
            && (status.Cancelled? <==> left > 0 && taker.kind.Limit? && taker.tif.IOC? && taker.quantity <= left)
            && (status.Rejected? <==> left > 0 && (if rests then !free else taker.kind.Market? && taker.quantity <= left))
            && Lots(st.fills) == taken
            && st.result.filled == taker.quantity - left
            && st.result.resting == (if rests then left else 0)
            && |st.fills| <= |s|
  {
    var s := b.Get(taker.side.Opposite());
    hide Sweep;
    hide Liquidity;
    hide Lots;
    hide Insert;
    hide Live;
    SweepTakes(s, taker);
    assert |Sweep(s, taker).fills| <= |s| by { SweepSuffix(s, taker); }
    hide Valid;
  }

  /** Every result repeats its order's identity, and gives a reason exactly when something was refused. */
  lemma ResultFields(b: Book, taker: Order)
    ensures var r := Settle(b, taker).result;
            && r.orderId == taker.id && r.instrument == taker.instrument && r.sequence == taker.sequence
            && r.side == taker.side && r.kind == taker.kind && r.price == taker.price
            && r.reason == (if !r.status.Rejected? then ""
                            else if taker.kind.Market? then "no liquidity for market order" else "duplicate order id")
  {
    hide Sweep;
    hide Insert;
    hide Insertable;
  }

  lemma AcceptedInserts(b: Book, taker: Order)
    ensures var far := taker.side.Opposite();
            var r, st := Sweep(b.Get(far), taker), Settle(b, taker);
            var swept, residual := b.With(far, r.rest), taker.(remaining := r.left);
            if st.result.status.Accepted?
            then st.result.resting == r.left && Insertable(swept, residual) && st.book == Insert(swept, residual)
            else st.book == swept
  {
    hide Sweep;
    hide Insert;
    hide Insertable;
  }

  /**
   An accepted residual rests last at its price as the order that was submitted, with what is
   left of its quantity. Any other outcome leaves the taker's own side alone.
   */
  lemma RestsAsSubmitted(b: Book, taker: Order)
    requires Valid(b)
    ensures var st := Settle(b, taker);
            var was, own := b.Get(taker.side), st.book.Get(taker.side);
            && (!st.result.status.Accepted? ==> own == was)
            && (st.result.status.Accepted? ==>
                  var k := PosOf(own, taker.id);
                  && k < |own| && own[k] == taker.(remaining := st.result.resting) && RemoveAt(own, k) == was
                  && forall j :: k < j < |own| ==> own[j].price != taker.price)
  {
    AcceptedInserts(b, taker);
    hide Settle;
    hide Sweep;
    hide Enqueue;
    hide PosOf;
    hide RemoveAt;
    if Settle(b, taker).result.status.Accepted? {
      assert ValidSide(b.Get(taker.side), taker.side);
      hide ValidSide;
      EnqueueLast(b.Get(taker.side), taker.(remaining := Settle(b, taker).result.resting));
    }
  }

  // ---- Admission ---------------------------------------------------------------------------

  /** The five tests a submission must pass, in their order. */
  predicate Passes(e: Engine, o: Order, gate: Option<string>, k: nat) {
    match k
    case 0 => o.instrument != 0
    case 1 => 0 < o.quantity <= 1_000_000_000_000 && o.remaining > 0
    case 2 => o.kind.Limit? ==> 0 <= o.price <= 1_000_000_000_000
    case 3 => o.instrument in e.books
    case _ => gate.None?
  }

  function ReasonOf(gate: Option<string>, k: nat): string {
    match k
    case 0 => "invalid instrument"
    case 1 => "invalid quantity"
    case 2 => "invalid price"
    case 3 => "instrument not registered"
    case _ => if gate.Some? then "risk: " + gate.value else ""
  }

  predicate Admissible(e: Engine, o: Order, gate: Option<string>) {
    forall k :: 0 <= k < 5 ==> Passes(e, o, gate, k)
  }

  /**
   A submission takes a sequence number if and only if it passes all five tests. Otherwise the
   first test it fails gives the reason, and the engine is as before.
   */
  lemma AdmittedIff(e: Engine, o: Order, gate: Option<string>)
    ensures var out := Submit(e, o, gate);
            && (out.engine.next > e.next <==> Admissible(e, o, gate))
            && out.result.orderId == (if o.id == 0 then e.next else o.id)
            && out.result.instrument == o.instrument
            && out.result.sequence == (if Admissible(e, o, gate) then e.next else 0)
            && (!Admissible(e, o, gate) ==>
                  out.engine == e && out.trades == [] && out.result.status.Rejected?
                  && out.result.filled == 0 && out.result.resting == 0
                  && out.result.side == Buy && out.result.kind == Limit && out.result.price == 0)
    ensures forall k :: 0 <= k < 5 && !Passes(e, o, gate, k) && (forall j :: 0 <= j < k ==> Passes(e, o, gate, j)) ==>
              Submit(e, o, gate).result.reason == ReasonOf(gate, k)
  {
    assert Admissible(e, o, gate) <==>
           Passes(e, o, gate, 0) && Passes(e, o, gate, 1) && Passes(e, o, gate, 2) && Passes(e, o, gate, 3) && Passes(e, o, gate, 4);
    if Objection(e, o, gate).None? {
      ResultFields(e.books[o.instrument], Sequenced(e, o));
    }
    hide Settle;
    hide Trades;
    forall k | 0 <= k < 5 && !Passes(e, o, gate, k) && (forall j :: 0 <= j < k ==> Passes(e, o, gate, j))
      ensures Submit(e, o, gate).result.reason == ReasonOf(gate, k)
    {
      assert k > 0 ==> Passes(e, o, gate, 0);
      assert k > 1 ==> Passes(e, o, gate, 1);
      assert k > 2 ==> Passes(e, o, gate, 2);
      assert k > 3 ==> Passes(e, o, gate, 3);
    }
  }

  // ---- Trades ------------------------------------------------------------------------------

  lemma FillsAreGreedy(b: Book, taker: Order, k: nat)
    requires Valid(b) && k < |Settle(b, taker).fills|
    ensures var s := b.Get(taker.side.Opposite());
            && k < |s| && Crosses(taker, s[k].price) && Share(s, taker.remaining, k) > 0
            && Settle(b, taker).fills[k] == Fill(s[k], Share(s, taker.remaining, k))
  {
    var s := b.Get(taker.side.Opposite());
    SettleCases(b, taker);
    SweepIsGreedy(s, taker);
    hide Settle;
    hide Sweep;
    hide Share;
    hide GreedyTotals;
    assert k < Reach(s, taker);
    hide Reach;
  }

  /**
   The k-th trade of a submission is against the k-th order of the opposite side, at that
   order's price, for all of it or for what the taker has left.
   */
  lemma TradesAreGreedy(e: Engine, o: Order, gate: Option<string>, k: nat)
    requires AllValid(e) && k < |Submit(e, o, gate).trades|
    ensures o.instrument in e.books
    ensures var s := e.books[o.instrument].Get(o.side.Opposite());
            var t := Submit(e, o, gate).trades[k];
            && k < |s| && t.price == s[k].price
            && (o.kind.Limit? && o.side.Buy? ==> t.price <= o.price)
            && (o.kind.Limit? && o.side.Sell? ==> t.price >= o.price)
            && t.quantity == Share(s, o.remaining, k) > 0
            && (if o.side.Buy?
                then (t.buyOrder, t.buyTrader, t.sellOrder, t.sellTrader) == (Named(e, o).id, o.trader, s[k].id, s[k].trader)
                else (t.sellOrder, t.sellTrader, t.buyOrder, t.buyTrader) == (Named(e, o).id, o.trader, s[k].id, s[k].trader))
            && t.instrument == o.instrument && t.id == e.next + 1 + k && t.sequence == e.next
  {
    var b, taker := e.books[o.instrument], Sequenced(e, o);
    FillsAreGreedy(b, taker, k);
    hide Settle;
    hide Valid;
    hide Share;
    hide Trades;
    var fills := Settle(b, taker).fills;
    TradeAt(taker, fills, e.next + 1, k);
  }

  lemma TradeAt(taker: Order, fills: seq<Fill>, first: nat, k: nat)
    requires k < |fills|
    ensures Trades(taker, fills, first)[k] == MakeTrade(taker, fills[k], first + k)
  {
  }

  /**
   The trades of a submission add up to what the order wants or to what rests on the other side
   at its limit or better; for a market order, to all that rests there.
   */
  lemma VolumeIsLiquidity(e: Engine, o: Order, gate: Option<string>)
    requires AllValid(e) && Objection(e, o, gate).None?
    ensures var s := e.books[o.instrument].Get(o.side.Opposite());
            Volume(Submit(e, o, gate).trades) ==
            Min(o.remaining, if o.kind.Market? then Total(s) else if o.side.Buy? then UpTo(s, o.price) else DownTo(s, o.price))
  {
    hide Settle;
    hide Sweep;
    hide Trades;
    hide ValidSide;
    hide UpTo;
    hide DownTo;
    hide Total;
    var b, taker := e.books[o.instrument], Sequenced(e, o);
    SweepTakes(b.Get(o.side.Opposite()), taker);
    SettleCases(b, taker);
    TradesVolume(taker, Settle(b, taker).fills, e.next + 1);
  }

  /** A submission leaves the books of other instruments alone. */
  lemma OtherBooks(e: Engine, o: Order, gate: Option<string>, i: nat)
    requires i != o.instrument
    ensures var on := Submit(e, o, gate).engine;
            (i in on.books <==> i in e.books) && (i in e.books ==> on.books[i] == e.books[i])
  {
    hide Settle;
  }
}
