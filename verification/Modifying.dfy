/** What a modify means: a replaced order queues last at its new price, a modified one keeps its place. */
module Modifying {
  import opened Types
  import opened BookSpec
  import opened Safety

  lemma EnqueueLast(s: seq<Order>, o: Order)
    requires ValidSide(s, o.side) && Resting(o, o.side) && !Has(s, o.id)
    ensures var t := Enqueue(s, o);
            var r := PosOf(t, o.id);
            && r < |t| && t[r] == o && RemoveAt(t, r) == s
            && (forall k :: r < k < |t| ==> Better(o.side, o.price, t[k].price))
            && (forall k :: 0 <= k < r ==> !Better(o.side, o.price, t[k].price))
  {
    EnqueueValid(s, o, o.side);
    var r, t := Rank(s, o.side, o.price), Enqueue(s, o);
    PosOfUnique(t, r);
    assert RemoveAt(t, r) == s;
    forall k | r < k < |t| ensures Better(o.side, o.price, t[k].price) {
      assert t[k] == s[k - 1];
      assert k - 1 > r ==> !Better(o.side, s[k - 1].price, s[r].price);
    }
  }

  /** The side of a replaced order, without the old order and with the new one. */
  lemma ReplacedSide(b: Book, id: nat, q: int, p: int)
    requires Valid(b) && ModifyKind(b, id, q, p).Replaced?
    ensures var side, o := HolderOf(b, id), Requoted(OrderOf(b, id), q, p);
            var s := RemoveAt(b.Get(side), PosOf(b.Get(side), id));
            && Modify(b, id, q, p) == b.With(side, Enqueue(s, o))
            && ValidSide(s, side) && !Has(s, id) && Resting(o, side)
  {
    assert OrderOf(b, id).side == HolderOf(b, id);
    CancelValid(b, id);
    ReplacementInsertable(b, id, q, p);
    hide PosOf;
    hide Enqueue;
    hide RemoveAt;
    hide ValidSide;
  }

  /**
   A replaced order is the last one at its new price, carries the new quantity, and taking it
   out again leaves the book without the old order.
   */
  lemma ReplacedGoesLast(b: Book, id: nat, q: int, p: int)
    requires Valid(b) && ModifyKind(b, id, q, p).Replaced? && Permitted(b, id, q, p)
    ensures var side := HolderOf(b, id);
            var s := Modify(b, id, q, p).Get(side);
            && Modify(b, id, q, p).Get(side.Opposite()) == b.Get(side.Opposite())
            && Has(s, id)
            && RemoveAt(s, PosOf(s, id)) == RemoveAt(b.Get(side), PosOf(b.Get(side), id))
            && s[PosOf(s, id)] == Requoted(OrderOf(b, id), q, p)
            && (forall k :: PosOf(s, id) < k < |s| ==> Better(side, p, s[k].price))
            && (forall k :: 0 <= k < PosOf(s, id) ==> !Better(side, p, s[k].price))
  {
    hide Modify;
    hide PosOf;
    hide Enqueue;
    hide RemoveAt;
    hide Valid;
    hide ValidSide;
    ReplacedSide(b, id, q, p);
    var side := HolderOf(b, id);
    EnqueueLast(RemoveAt(b.Get(side), PosOf(b.Get(side), id)), Requoted(OrderOf(b, id), q, p));
  }

  /** A modified order keeps its place, its executed quantity and everything around it. */
  lemma ModifiedKeepsPlace(b: Book, id: nat, q: int, p: int)
    requires Valid(b) && ModifyKind(b, id, q, p).Modified?
    ensures var side := HolderOf(b, id);
            var k, s, t := PosOf(b.Get(side), id), b.Get(side), Modify(b, id, q, p).Get(side);
            && Modify(b, id, q, p).Get(side.Opposite()) == b.Get(side.Opposite())
            && PosOf(t, id) == k && t == s[k := t[k]]
            && SameStanding(t[k], s[k])
            && t[k].remaining == q <= s[k].remaining
            && t[k].quantity - t[k].remaining == s[k].quantity - s[k].remaining
  {
    var side := HolderOf(b, id);
    var s, t := b.Get(side), Modify(b, id, q, p).Get(side);
    var k := PosOf(s, id);
    hide PosOf;
    assert t == s[k := t[k]];
    PosOfUnique(t, k);
  }

  // ---- Results and effects, order by order -----------------------------------------------------

  lemma Found(b: Book, side: Side, k: nat)
    requires Valid(b) && k < |b.Get(side)|
    ensures var id := b.Get(side)[k].id;
            Live(b, id) && HolderOf(b, id) == side && OrderOf(b, id) == b.Get(side)[k] && PosOf(b.Get(side), id) == k
  {
    var s := b.Get(side);
    PosOfUnique(s, k);
    assert side.Sell? ==> !Has(b.bids, s[k].id);
  }

  /** The four results of a modify, for a resting order. */
  lemma ModifyResultIff(b: Book, side: Side, k: nat, q: int, p: int)
    requires Valid(b) && k < |b.Get(side)|
    ensures var o := b.Get(side)[k];
            var r := ModifyKind(b, o.id, q, p);
            var open := !o.status.Filled? && !o.status.Cancelled?;
            var valid := o.kind.Limit? && 0 < q <= 1_000_000_000_000 && 0 <= p <= 1_000_000_000_000;
            && (r.NotFound? <==> !open)
            && (r.Refused? <==> open && !valid)
            && (r.Modified? <==> open && valid && p == o.price && q <= o.remaining)
            && (r.Replaced? <==> open && valid && (p != o.price || q > o.remaining))
  {
    Found(b, side, k);
  }

  /** For an id that does not rest nothing happens, and every operation says so. */
  lemma NothingFound(b: Book, id: nat, q: int, p: int)
    requires forall side: Side, k :: 0 <= k < |b.Get(side)| ==> b.Get(side)[k].id != id
    ensures ModifyKind(b, id, q, p).NotFound? && !Reducible(b, id, q) && !Cancellable(b, id)
    ensures Modify(b, id, q, p) == Reduce(b, id, q) == BookSpec.Cancel(b, id) == b
  {
    assert !Has(b.Get(Buy), id) && !Has(b.Get(Sell), id);
    hide PosOf;
  }

  /** A same-price decrease leaves every order where it is, and changes one order in three fields. */
  lemma DecreaseKeepsQueue(b: Book, side: Side, k: nat, q: int)
    requires Valid(b) && k < |b.Get(side)| && 0 < q < b.Get(side)[k].remaining
    requires !b.Get(side)[k].status.Filled? && !b.Get(side)[k].status.Cancelled?
    ensures var s := b.Get(side);
            var o, on := s[k], Modify(b, s[k].id, q, s[k].price);
            && on.Get(side.Opposite()) == b.Get(side.Opposite())
            && |on.Get(side)| == |s| && (forall j :: 0 <= j < |s| && j != k ==> on.Get(side)[j] == s[j])
            && on.Get(side)[k] == o.(remaining := q, quantity := o.quantity - (o.remaining - q),
                                     status := if o.status.New? then OrderStatus.PartiallyFilled else o.status)
  {
    Found(b, side, k);
    ModifyResultIff(b, side, k, q, b.Get(side)[k].price);
    hide PosOf;
    hide ModifyKind;
  }

  /** At its own price and remaining quantity a modify changes nothing. */
  lemma SameKeepsBook(b: Book, side: Side, k: nat)
    requires Valid(b) && k < |b.Get(side)|
    ensures var o := b.Get(side)[k]; Modify(b, o.id, o.remaining, o.price) == b
  {
    Found(b, side, k);
    ModifyResultIff(b, side, k, b.Get(side)[k].remaining, b.Get(side)[k].price);
    hide PosOf;
    hide ModifyKind;
  }

  /** A replaced order keeps its identity and gets price, quantity and status anew. */
  lemma ReplacementFields(b: Book, side: Side, k: nat, q: int, p: int)
    requires Valid(b) && k < |b.Get(side)| && ModifyKind(b, b.Get(side)[k].id, q, p).Replaced?
    ensures var o := b.Get(side)[k];
            var s := Modify(b, o.id, q, p).Get(side);
            Has(s, o.id) && s[PosOf(s, o.id)] ==
            Order(o.id, o.trader, o.instrument, o.side, o.kind, o.tif, p, q, q, o.sequence, OrderStatus.New)
  {
    Found(b, side, k);
    var o := b.Get(side)[k];
    hide PosOf;
    hide ModifyKind;
    hide Valid;
    ReplacedSide(b, o.id, q, p);
    EnqueueLast(RemoveAt(b.Get(side), k), Requoted(o, q, p));
    hide Enqueue;
    hide Modify;
  }

  /** A reduce succeeds exactly on a smaller positive quantity, and then changes two fields of one order. */
  lemma ReduceIff(b: Book, side: Side, k: nat, q: int)
    requires Valid(b) && k < |b.Get(side)|
    ensures var s := b.Get(side);
            var o, on := s[k], Reduce(b, s[k].id, q);
            && (Reducible(b, o.id, q) <==> !o.status.Filled? && !o.status.Cancelled? && 0 < q < o.remaining)
            && (!Reducible(b, o.id, q) ==> on == b)
            && (Reducible(b, o.id, q) ==>
                  && on.Get(side.Opposite()) == b.Get(side.Opposite())
                  && on.Get(side) == s[k := o.(remaining := q,
                                               status := if o.status.New? then OrderStatus.PartiallyFilled else o.status)])
  {
    Found(b, side, k);
    hide PosOf;
  }

  /** A cancel succeeds on every resting order that is neither filled nor cancelled, and removes just it. */
  lemma CancelIff(b: Book, side: Side, k: nat)
    requires Valid(b) && k < |b.Get(side)|
    ensures var s := b.Get(side);
            var o, on := s[k], BookSpec.Cancel(b, s[k].id);
            && (Cancellable(b, o.id) <==> !o.status.Filled? && !o.status.Cancelled?)
            && (!Cancellable(b, o.id) ==> on == b)
            && (Cancellable(b, o.id) ==>
                  on.Get(side.Opposite()) == b.Get(side.Opposite()) && on.Get(side) == s[..k] + s[k + 1..])
  {
    Found(b, side, k);
    hide PosOf;
  }

  /** A modify of a bid to a price beyond the best ask crosses the book: no trade happens. */
  lemma CollisionCrosses()
    ensures var bid := Order(1, 7, 1, Buy, Limit, GTC, 100, 5, 5, 1, New);
            var ask := Order(2, 8, 1, Sell, Limit, GTC, 101, 5, 5, 2, New);
            var b := Book([bid], [ask]);
            && Valid(b) && Uncrossed(b)
            && Permitted(b, 1, 5, 102) && Collides(b, 1, 5, 102)
            && Modify(b, 1, 5, 102) == Book([bid.(price := 102)], [ask])
            && !Uncrossed(Modify(b, 1, 5, 102))
  {
    var bid := Order(1, 7, 1, Buy, Limit, GTC, 100, 5, 5, 1, New);
    var ask := Order(2, 8, 1, Sell, Limit, GTC, 101, 5, 5, 2, New);
    var b := Book([bid], [ask]);
    assert PosOf([bid], 1) == 0;
    assert PosOf([ask], 1) == 1 by { assert PosOf([ask][1..], 1) == 0; }
    assert Cancel(b, 1) == Book([], [ask]);
    assert Enqueue([], bid.(price := 102)) == [bid.(price := 102)];
  }
}
