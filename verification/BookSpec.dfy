/**
 The reference book: each side is one list of orders, best price first and, at equal
 prices, oldest first. Every operation of the linked order book is specified by a
 function on this list.
 */
module BookSpec {
  import opened Types

  datatype Book = Book(bids: seq<Order>, asks: seq<Order>) {
    function Get(side: Side): seq<Order> {
      if side.Buy? then bids else asks
    }

    function With(side: Side, s: seq<Order>): Book {
      if side.Buy? then this.(bids := s) else this.(asks := s)
    }
  }

  const EMPTY: Book := Book([], [])

  // ---- Order of priority ------------------------------------------------------

  /** Price p ranks strictly ahead of price q among resting orders of this side. */
  predicate Better(side: Side, p: int, q: int) {
    if side.Buy? then p > q else p < q
  }

  ghost predicate Resting(o: Order, side: Side) {
    && o.side == side
    && o.kind.Limit?
    && o.id != INVALID_ID
    && ValidPrice(o.price)
    && ValidQuantity(o.remaining)
  }

  ghost predicate Sorted(s: seq<Order>, side: Side) {
    forall i, j :: 0 <= i < j < |s| ==> !Better(side, s[j].price, s[i].price)
  }

  ghost predicate DistinctIds(s: seq<Order>) {
    forall i, j :: 0 <= i < j < |s| ==> s[i].id != s[j].id
  }

  ghost predicate ValidSide(s: seq<Order>, side: Side) {
    && (forall i :: 0 <= i < |s| ==> Resting(s[i], side))
    && Sorted(s, side)
    && DistinctIds(s)
  }

  ghost predicate NoSharedIds(s: seq<Order>, t: seq<Order>) {
    forall i, j :: 0 <= i < |s| && 0 <= j < |t| ==> s[i].id != t[j].id
  }

  ghost predicate Valid(b: Book) {
    ValidSide(b.bids, Buy) && ValidSide(b.asks, Sell) && NoSharedIds(b.bids, b.asks)
  }

  /** Best bid strictly below best ask. */
  predicate Uncrossed(b: Book) {
    b.bids != [] && b.asks != [] ==> b.bids[0].price < b.asks[0].price
  }

  /** No order of the other side rests at price p. The level store has one level per price. */
  ghost predicate Unshared(b: Book, side: Side, p: int) {
    var far := b.Get(side.Opposite());
    forall k :: 0 <= k < |far| ==> far[k].price != p
  }

  // ---- Lookup -----------------------------------------------------------------

  /** First position holding this id; the length of the list when there is none. */
  function PosOf(s: seq<Order>, id: nat): (k: nat)
    ensures k <= |s|
    ensures k < |s| ==> s[k].id == id
    ensures forall j :: 0 <= j < k ==> s[j].id != id
  {
    if s == [] || s[0].id == id then 0 else 1 + PosOf(s[1..], id)
  }

  predicate Has(s: seq<Order>, id: nat) {
    PosOf(s, id) < |s|
  }

  predicate Live(b: Book, id: nat) {
    Has(b.bids, id) || Has(b.asks, id)
  }

  /** The side on which a live id rests. */
  function HolderOf(b: Book, id: nat): Side {
    if Has(b.bids, id) then Buy else Sell
  }

  function OrderOf(b: Book, id: nat): (o: Order)
    requires Live(b, id)
    ensures o.id == id
  {
    var s := b.Get(HolderOf(b, id));
    s[PosOf(s, id)]
  }

  // ---- Insertion --------------------------------------------------------------

  /** How many orders keep priority over a newcomer at price p. */
  function Rank(s: seq<Order>, side: Side, p: int): (k: nat)
    ensures k <= |s|
    ensures forall i :: 0 <= i < k ==> !Better(side, p, s[i].price)
    ensures k < |s| ==> Better(side, p, s[k].price)
  {
    if s == [] || Better(side, p, s[0].price) then 0 else 1 + Rank(s[1..], side, p)
  }

  function Enqueue(s: seq<Order>, o: Order): seq<Order> {
    var k := Rank(s, o.side, o.price);
    s[..k] + [o] + s[k..]
  }

  predicate Insertable(b: Book, o: Order) {
    && o.id != INVALID_ID
    && o.kind.Limit?
    && ValidPrice(o.price)
    && ValidQuantity(o.remaining)
    && !Live(b, o.id)
  }

  function Insert(b: Book, o: Order): Book {
    if Insertable(b, o) then b.With(o.side, Enqueue(b.Get(o.side), o)) else b
  }

  // ---- Removal and change in place --------------------------------------------

  function RemoveAt<T>(s: seq<T>, k: nat): seq<T>
    requires k < |s|
  {
    s[..k] + s[k + 1..]
  }

  lemma RemoveAtKeeps<T>(s: seq<T>, k: nat)
    requires k < |s|
    ensures |RemoveAt(s, k)| == |s| - 1
    ensures forall i :: 0 <= i < |s| - 1 ==> RemoveAt(s, k)[i] == s[if i < k then i else i + 1]
    ensures forall x :: x in s && x != s[k] ==> x in RemoveAt(s, k)
    ensures forall x :: x in RemoveAt(s, k) ==> x in s
  {
    assert s == s[..k] + [s[k]] + s[k + 1..];
  }

  predicate Cancellable(b: Book, id: nat) {
    Live(b, id) && Open(OrderOf(b, id))
  }

  function Cancel(b: Book, id: nat): Book {
    if !Cancellable(b, id) then b else
      var side := HolderOf(b, id);
      var s := b.Get(side);
      b.With(side, RemoveAt(s, PosOf(s, id)))
  }

  /** An order whose remaining quantity became `left` without losing its place. */
  function Shrunk(o: Order, left: int): Order {
    o.(remaining := left, status := if o.status.New? then OrderStatus.PartiallyFilled else o.status)
  }

  function AmendAt(b: Book, id: nat, o: Order): Book
    requires Live(b, id)
  {
    var side := HolderOf(b, id);
    var s := b.Get(side);
    b.With(side, s[PosOf(s, id) := o])
  }

  predicate Reducible(b: Book, id: nat, q: int) {
    Cancellable(b, id) && 0 < q < OrderOf(b, id).remaining
  }

  function Reduce(b: Book, id: nat, q: int): Book {
    if Reducible(b, id, q) then AmendAt(b, id, Shrunk(OrderOf(b, id), q)) else b
  }

  function ModifyKind(b: Book, id: nat, q: int, p: int): ModifyResult {
    if !Cancellable(b, id) then NotFound
    else if OrderOf(b, id).kind.Market? || !ValidQuantity(q) || !ValidPrice(p) then Refused
    else if p == OrderOf(b, id).price && q <= OrderOf(b, id).remaining then Modified
    else Replaced
  }

  /** The order that a replacing modify puts at the back of its new level. */
  function Requoted(o: Order, q: int, p: int): Order {
    o.(price := p, quantity := q, remaining := q, status := OrderStatus.New)
  }

  function Modify(b: Book, id: nat, q: int, p: int): Book {
    match ModifyKind(b, id, q, p)
    case NotFound => b
    case Refused => b
    case Modified =>
      var o := OrderOf(b, id);
      if q == o.remaining then b
      else AmendAt(b, id, Shrunk(o, q).(quantity := o.quantity - (o.remaining - q)))
    case Replaced =>
      Insert(Cancel(b, id), Requoted(OrderOf(b, id), q, p))
  }

  /** A replacement must not land on a price of the other side; see `LevelStore` for what happens there. */
  ghost predicate Permitted(b: Book, id: nat, q: int, p: int) {
    ModifyKind(b, id, q, p).Replaced? ==> Unshared(b, HolderOf(b, id), p)
  }

  /** The first position at price p; the length of the list when there is none. */
  function FrontAt(s: seq<Order>, p: int): (k: nat)
    ensures k <= |s|
    ensures k < |s| ==> s[k].price == p
    ensures forall j :: 0 <= j < k ==> s[j].price != p
  {
    if s == [] || s[0].price == p then 0 else 1 + FrontAt(s[1..], p)
  }

  /** The position that a fill under this id reaches: the front of the level on which the id rests. */
  function FilledAt(b: Book, id: nat): (k: nat)
    requires Live(b, id)
    ensures k <= PosOf(b.Get(HolderOf(b, id)), id)
  {
    FrontAt(b.Get(HolderOf(b, id)), OrderOf(b, id).price)
  }

  /** A fill names the front of its level, or leaves something of that front. */
  predicate Fillable(b: Book, id: nat, q: int) {
    Live(b, id) ==>
      var s, k := b.Get(HolderOf(b, id)), FilledAt(b, id);
      s[k].id == id || q < s[k].remaining
  }

  /** A fill of q lots against the order at position k of a side. */
  function FillAt(s: seq<Order>, k: nat, q: int): seq<Order>
    requires k < |s|
  {
    if q <= 0 then s
    else if q >= s[k].remaining then RemoveAt(s, k)
    else s[k := Shrunk(s[k], s[k].remaining - q)]
  }

  // ---- Quantities -------------------------------------------------------------

  function Total(s: seq<Order>): int {
    if s == [] then 0 else s[0].remaining + Total(s[1..])
  }

  /** Quantity and number of the orders at one price, by a scan of the whole side. */
  function TotalAt(s: seq<Order>, p: int): int {
    if s == [] then 0 else (if s[0].price == p then s[0].remaining else 0) + TotalAt(s[1..], p)
  }

  function CountAt(s: seq<Order>, p: int): nat {
    if s == [] then 0 else (if s[0].price == p then 1 else 0) + CountAt(s[1..], p)
  }

  // ---- Basic facts --------------------------------------------------------------

  lemma PosOfUnique(s: seq<Order>, k: nat)
    requires DistinctIds(s) && k < |s|
    ensures PosOf(s, s[k].id) == k
  {
  }

  lemma {:induction false} TotalConcat(s: seq<Order>, t: seq<Order>)
    ensures Total(s + t) == Total(s) + Total(t)
  {
    if s == [] {
      assert s + t == t;
    } else {
      assert (s + t)[1..] == s[1..] + t;
      TotalConcat(s[1..], t);
    }
  }

  lemma TotalOne(o: Order)
    ensures Total([o]) == o.remaining
  {
    assert [o][1..] == [];
  }

  lemma TotalRemoveAt(s: seq<Order>, k: nat)
    requires k < |s|
    ensures Total(RemoveAt(s, k)) == Total(s) - s[k].remaining
  {
    hide Total;
    assert s == s[..k] + ([s[k]] + s[k + 1..]);
    TotalConcat(s[..k], [s[k]] + s[k + 1..]);
    TotalConcat([s[k]], s[k + 1..]);
    TotalConcat(s[..k], s[k + 1..]);
    TotalOne(s[k]);
  }

  lemma TotalUpdate(s: seq<Order>, k: nat, o: Order)
    requires k < |s|
    ensures Total(s[k := o]) == Total(s) - s[k].remaining + o.remaining
  {
    TotalRemoveAt(s, k);
    TotalRemoveAt(s[k := o], k);
    assert RemoveAt(s[k := o], k) == RemoveAt(s, k);
  }

  lemma TotalEnqueue(s: seq<Order>, o: Order)
    ensures Total(Enqueue(s, o)) == Total(s) + o.remaining
  {
    var k := Rank(s, o.side, o.price);
    TotalRemoveAt(Enqueue(s, o), k);
    assert RemoveAt(Enqueue(s, o), k) == s;
  }

  /** A sum of valid quantities is between the number of orders and that number times the maximum. */
  lemma {:induction false} TotalBounds(s: seq<Order>)
    requires forall i :: 0 <= i < |s| ==> ValidQuantity(s[i].remaining)
    ensures |s| <= Total(s) <= |s| * MAX_QUANTITY
  {
    if s != [] {
      TotalBounds(s[1..]);
    }
  }

  // ---- Every operation keeps a valid book ---------------------------------------

  lemma EnqueueValid(s: seq<Order>, o: Order, side: Side)
    requires ValidSide(s, side) && Resting(o, side) && !Has(s, o.id)
    ensures ValidSide(Enqueue(s, o), side)
  {
    var k := Rank(s, side, o.price);
    forall i | k <= i < |s| ensures Better(side, o.price, s[i].price) {
      assert i > k ==> !Better(side, s[i].price, s[k].price);
    }
  }

  lemma InsertValid(b: Book, o: Order)
    requires Valid(b)
    ensures Valid(Insert(b, o))
  {
    if Insertable(b, o) {
      EnqueueValid(b.Get(o.side), o, o.side);
    }
  }

  lemma RemoveAtValid(s: seq<Order>, k: nat, side: Side)
    requires ValidSide(s, side) && k < |s|
    ensures ValidSide(RemoveAt(s, k), side)
    ensures !Has(RemoveAt(s, k), s[k].id)
  {
    var t := RemoveAt(s, k);
    assert forall i :: 0 <= i < |t| ==> t[i] == s[if i < k then i else i + 1];
  }

  lemma CancelValid(b: Book, id: nat)
    requires Valid(b)
    ensures Valid(Cancel(b, id))
    ensures Cancellable(b, id) ==> !Live(Cancel(b, id), id)
  {
    hide PosOf;
    hide RemoveAt;
    hide Sorted;
    if Cancellable(b, id) {
      var side := HolderOf(b, id);
      var s := b.Get(side);
      RemoveAtValid(s, PosOf(s, id), side);
      RemoveAtKeeps(s, PosOf(s, id));
    }
  }

  /** Cancelling leaves the other side alone. */
  lemma CancelElsewhere(b: Book, id: nat)
    ensures var far := HolderOf(b, id).Opposite(); Cancel(b, id).Get(far) == b.Get(far)
  {
  }

  lemma AmendValid(b: Book, id: nat, o: Order)
    requires Valid(b) && Live(b, id)
    requires Resting(o, HolderOf(b, id)) && o.id == id && o.price == OrderOf(b, id).price
    ensures Valid(AmendAt(b, id, o))
  {
    var side := HolderOf(b, id);
    var s := b.Get(side);
    var t := s[PosOf(s, id) := o];
    assert forall i :: 0 <= i < |t| ==> t[i].id == s[i].id && t[i].price == s[i].price;
  }

  lemma ReduceValid(b: Book, id: nat, q: int)
    requires Valid(b)
    ensures Valid(Reduce(b, id, q))
  {
    if Reducible(b, id, q) {
      AmendValid(b, id, Shrunk(OrderOf(b, id), q));
    }
  }

  /** Cancelling the old order always makes room for its replacement. */
  lemma ReplacementInsertable(b: Book, id: nat, q: int, p: int)
    requires Valid(b) && ModifyKind(b, id, q, p).Replaced?
    ensures Insertable(Cancel(b, id), Requoted(OrderOf(b, id), q, p))
  {
    CancelValid(b, id);
  }

  lemma ModifyValid(b: Book, id: nat, q: int, p: int)
    requires Valid(b) && Permitted(b, id, q, p)
    ensures Valid(Modify(b, id, q, p))
  {
    match ModifyKind(b, id, q, p)
    case Modified =>
      var o := OrderOf(b, id);
      if q != o.remaining {
        AmendValid(b, id, Shrunk(o, q).(quantity := o.quantity - (o.remaining - q)));
      }
    case Replaced =>
      CancelValid(b, id);
      InsertValid(Cancel(b, id), Requoted(OrderOf(b, id), q, p));
    case _ =>
  }
}
