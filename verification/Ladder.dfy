/**
 A sorted ladder of price levels, as the list of its prices in iteration order together
 with the queue at each price, and how operations on it read on the flat list of orders.
 */
module Ladder {
  import opened Types
  import opened BookSpec

  type Queues = map<int, seq<Order>>

  ghost predicate StrictlySorted(prices: seq<int>, side: Side) {
    forall i, j :: 0 <= i < j < |prices| ==> Better(side, prices[i], prices[j])
  }

  /** Where a price belongs in the iteration order. */
  function KeyRank(prices: seq<int>, side: Side, p: int): (k: nat)
    ensures k <= |prices|
    ensures forall i :: 0 <= i < k ==> Better(side, prices[i], p)
    ensures k < |prices| ==> !Better(side, prices[k], p)
  {
    if prices == [] || !Better(side, prices[0], p) then 0 else 1 + KeyRank(prices[1..], side, p)
  }

  function AddKey(prices: seq<int>, side: Side, p: int): seq<int> {
    var k := KeyRank(prices, side, p);
    prices[..k] + [p] + prices[k..]
  }

  function DropKey(prices: seq<int>, side: Side, p: int): seq<int> {
    var k := KeyRank(prices, side, p);
    if k < |prices| then RemoveAt(prices, k) else prices
  }

  lemma KeyRankFinds(prices: seq<int>, side: Side, p: int)
    requires StrictlySorted(prices, side) && p in prices
    ensures KeyRank(prices, side, p) < |prices| && prices[KeyRank(prices, side, p)] == p
  {
    var j :| 0 <= j < |prices| && prices[j] == p;
  }

  /** From its rank on, a ladder holds prices that are worse than p, or p itself first. */
  lemma BeyondRank(prices: seq<int>, side: Side, p: int, j: nat)
    requires StrictlySorted(prices, side) && KeyRank(prices, side, p) <= j < |prices|
    ensures Better(side, p, prices[j]) || (j == KeyRank(prices, side, p) && prices[j] == p)
  {
    var k := KeyRank(prices, side, p);
    assert j == k || Better(side, prices[k], prices[j]);
  }

  lemma AddKeySorted(prices: seq<int>, side: Side, p: int)
    requires StrictlySorted(prices, side) && p !in prices
    ensures StrictlySorted(AddKey(prices, side, p), side)
    ensures forall x :: x in AddKey(prices, side, p) <==> x in prices || x == p
  {
    var k, t := KeyRank(prices, side, p), AddKey(prices, side, p);
    assert forall i :: 0 <= i < k ==> t[i] == prices[i];
    assert t[k] == p;
    forall i | k < i < |t| ensures t[i] == prices[i - 1] && Better(side, p, t[i]) {
      BeyondRank(prices, side, p, i - 1);
    }
    forall x | x in prices ensures x in t {
      var i :| 0 <= i < |prices| && prices[i] == x;
      assert t[if i < k then i else i + 1] == x;
    }
  }

  lemma DropKeySorted(prices: seq<int>, side: Side, p: int)
    requires StrictlySorted(prices, side) && p in prices
    ensures StrictlySorted(DropKey(prices, side, p), side)
    ensures forall x :: x in DropKey(prices, side, p) <==> x in prices && x != p
  {
    KeyRankFinds(prices, side, p);
    var k, t := KeyRank(prices, side, p), DropKey(prices, side, p);
    assert forall i :: 0 <= i < |t| ==> t[i] == prices[if i < k then i else i + 1];
    forall x | x in prices && x != p ensures x in t {
      var i :| 0 <= i < |prices| && prices[i] == x;
      assert t[if i < k then i else i - 1] == x;
    }
  }

  // ---- The flat list ---------------------------------------------------------------

  function QueueAt(queues: Queues, p: int): seq<Order> {
    if p in queues then queues[p] else []
  }

  /** All orders of a ladder in order of priority. */
  function Flat(prices: seq<int>, queues: Queues): seq<Order> {
    if prices == [] then [] else QueueAt(queues, prices[0]) + Flat(prices[1..], queues)
  }

  lemma {:induction false} FlatFrame(prices: seq<int>, q: Queues, r: Queues)
    requires forall i :: 0 <= i < |prices| ==> QueueAt(q, prices[i]) == QueueAt(r, prices[i])
    ensures Flat(prices, q) == Flat(prices, r)
  {
    if prices != [] {
      FlatFrame(prices[1..], q, r);
    }
  }

  lemma {:induction false} FlatConcat(a: seq<int>, b: seq<int>, q: Queues)
    ensures Flat(a + b, q) == Flat(a, q) + Flat(b, q)
  {
    if a == [] {
      assert a + b == b;
    } else {
      assert (a + b)[1..] == a[1..] + b;
      FlatConcat(a[1..], b, q);
    }
  }

  lemma FlatOne(p: int, q: Queues)
    ensures Flat([p], q) == QueueAt(q, p)
  {
    assert [p][1..] == [];
  }

  lemma FlatMiddle(a: seq<int>, p: int, b: seq<int>, q: Queues)
    ensures Flat(a + [p] + b, q) == Flat(a, q) + QueueAt(q, p) + Flat(b, q)
  {
    FlatConcat(a + [p], b, q);
    FlatConcat(a, [p], q);
    FlatOne(p, q);
  }

  /** Queues that agree everywhere but at p. */
  ghost predicate SameBut(p: int, q: Queues, r: Queues) {
    forall x :: x != p ==> QueueAt(q, x) == QueueAt(r, x)
  }

  /** The ladder around price p, whatever queue stands at p. */
  lemma FlatAround(a: seq<int>, p: int, b: seq<int>, q: Queues, r: Queues)
    requires p !in a && p !in b && SameBut(p, q, r)
    ensures Flat(a + [p] + b, r) == Flat(a, q) + QueueAt(r, p) + Flat(b, q)
    ensures Flat(a + b, r) == Flat(a, q) + Flat(b, q)
  {
    FlatMiddle(a, p, b, r);
    FlatConcat(a, b, r);
    FlatFrame(a, q, r);
    FlatFrame(b, q, r);
  }

  ghost predicate PricedRight(prices: seq<int>, queues: Queues, side: Side) {
    forall i, j :: 0 <= i < |prices| && 0 <= j < |QueueAt(queues, prices[i])| ==>
      QueueAt(queues, prices[i])[j].price == prices[i] && Resting(QueueAt(queues, prices[i])[j], side)
  }

  lemma {:induction false} FlatPrices(prices: seq<int>, queues: Queues, side: Side)
    requires PricedRight(prices, queues, side)
    ensures forall k :: 0 <= k < |Flat(prices, queues)| ==>
              Flat(prices, queues)[k].price in prices && Resting(Flat(prices, queues)[k], side)
  {
    if prices != [] {
      assert forall i :: 0 <= i < |prices| - 1 ==> prices[1..][i] == prices[i + 1];
      FlatPrices(prices[1..], queues, side);
    }
  }

  lemma {:induction false} FlatSorted(prices: seq<int>, queues: Queues, side: Side)
    requires PricedRight(prices, queues, side) && StrictlySorted(prices, side)
    ensures Sorted(Flat(prices, queues), side)
  {
    if prices != [] {
      assert forall i :: 0 <= i < |prices| - 1 ==> prices[1..][i] == prices[i + 1];
      FlatSorted(prices[1..], queues, side);
      FlatPrices(prices[1..], queues, side);
      forall k | 0 <= k < |Flat(prices[1..], queues)|
        ensures Better(side, prices[0], Flat(prices[1..], queues)[k].price)
      {
        var i :| 0 <= i < |prices| - 1 && prices[1..][i] == Flat(prices[1..], queues)[k].price;
        assert Better(side, prices[0], prices[i + 1]);
      }
    }
  }

  function KeysWith(prices: seq<int>, side: Side, p: int): seq<int> {
    if p in prices then prices else AddKey(prices, side, p)
  }

  lemma KeySplit(prices: seq<int>, side: Side, p: int) returns (a: seq<int>, b: seq<int>)
    requires StrictlySorted(prices, side)
    ensures p !in prices ==> prices == a + b
    ensures p in prices ==> DropKey(prices, side, p) == a + b
    ensures KeysWith(prices, side, p) == a + [p] + b
    ensures forall i :: 0 <= i < |a| ==> a[i] in prices && Better(side, a[i], p)
    ensures forall i :: 0 <= i < |b| ==> b[i] in prices && Better(side, p, b[i])
  {
    var k := KeyRank(prices, side, p);
    var l := if p in prices then k + 1 else k;
    hide KeyRank;
    if p in prices {
      KeyRankFinds(prices, side, p);
      assert prices == prices[..k] + [p] + prices[l..];
    } else {
      assert prices == prices[..k] + prices[l..];
    }
    a, b := prices[..k], prices[l..];
    WorseThan(prices, side, p, l);
  }

  lemma WorseThan(prices: seq<int>, side: Side, p: int, l: nat)
    requires StrictlySorted(prices, side) && KeyRank(prices, side, p) <= l <= |prices|
    requires l == KeyRank(prices, side, p) ==> p !in prices
    ensures forall i :: 0 <= i < |prices[l..]| ==> prices[l..][i] in prices && Better(side, p, prices[l..][i])
  {
    forall i | l <= i < |prices| ensures Better(side, p, prices[i]) {
      BeyondRank(prices, side, p, i);
    }
  }

  lemma PricedRightPart(prices: seq<int>, part: seq<int>, q: Queues, side: Side)
    requires PricedRight(prices, q, side) && forall i :: 0 <= i < |part| ==> part[i] in prices
    ensures PricedRight(part, q, side)
  {
  }

  /** The queues after o joins the back of the level at its price, new or not. */
  function Attached(prices: seq<int>, q: Queues, o: Order): Queues {
    q[o.price := (if o.price in prices then QueueAt(q, o.price) else []) + [o]]
  }

  /** The flat list cut at price p: what ranks ahead of p, the queue at p, what ranks behind. */
  lemma FlatCut(prices: seq<int>, q: Queues, side: Side, p: int) returns (a: seq<int>, here: seq<Order>, b: seq<int>)
    requires StrictlySorted(prices, side) && PricedRight(prices, q, side)
    ensures p !in a && p !in b && KeysWith(prices, side, p) == a + [p] + b
    ensures here == if p in prices then QueueAt(q, p) else []
    ensures Flat(prices, q) == Flat(a, q) + here + Flat(b, q)
    ensures forall k :: 0 <= k < |Flat(a, q)| ==> !Better(side, p, Flat(a, q)[k].price)
    ensures forall k :: 0 <= k < |here| ==> here[k].price == p
    ensures forall k :: 0 <= k < |Flat(b, q)| ==> Better(side, p, Flat(b, q)[k].price)
  {
    a, b := KeySplit(prices, side, p);
    here := if p in prices then QueueAt(q, p) else [];
    FlatOutside(prices, a, b, q, side, p);
    if p in prices {
      FlatMiddle(a, p, b, q);
    } else {
      FlatConcat(a, b, q);
      assert Flat(a, q) + [] == Flat(a, q);
    }
    PricedRightPart(prices, if p in prices then [p] else [], q, side);
    assert p in prices ==> [p][0] == p;
  }

  /** The front of the queue at p is the first order at p in the flat list. */
  lemma FlatFront(prices: seq<int>, q: Queues, side: Side, p: int)
    requires StrictlySorted(prices, side) && PricedRight(prices, q, side) && p in prices && QueueAt(q, p) != []
    ensures var s := Flat(prices, q); FrontAt(s, p) < |s| && s[FrontAt(s, p)] == QueueAt(q, p)[0]
  {
    hide Flat;
    var a, here, b := FlatCut(prices, q, side, p);
    assert forall j :: 0 <= j < |Flat(a, q)| ==> Flat(a, q)[j].price != p by {
      KeyParts(prices, side, p, a, b);
      PricedRightPart(prices, a, q, side);
      FlatPrices(a, q, side);
    }
    FrontBehind(Flat(a, q), here, Flat(b, q), p);
  }

  lemma FrontBehind(a: seq<Order>, here: seq<Order>, b: seq<Order>, p: int)
    requires here != [] && here[0].price == p && forall j :: 0 <= j < |a| ==> a[j].price != p
    ensures FrontAt(a + here + b, p) == |a| && (a + here + b)[|a|] == here[0]
  {
    var s := a + here + b;
    assert s[|a|] == here[0];
    assert forall j :: 0 <= j < |a| ==> s[j] == a[j];
    hide FrontAt;
  }

  /** An order joining the back of level p joins the flat list behind every order at p or better. */
  lemma FlatEnqueue(prices: seq<int>, q: Queues, side: Side, o: Order)
    requires StrictlySorted(prices, side) && PricedRight(prices, q, side) && o.side == side
    ensures Flat(KeysWith(prices, side, o.price), Attached(prices, q, o)) == Enqueue(Flat(prices, q), o)
  {
    var a, here, b := FlatCut(prices, q, side, o.price);
    FlatAround(a, o.price, b, q, Attached(prices, q, o));
    EnqueueLevels(Flat(a, q), here, Flat(b, q), o);
  }

  lemma EnqueueLevels(above: seq<Order>, here: seq<Order>, below: seq<Order>, o: Order)
    requires forall i :: 0 <= i < |above| ==> !Better(o.side, o.price, above[i].price)
    requires forall i :: 0 <= i < |here| ==> here[i].price == o.price
    requires forall i :: 0 <= i < |below| ==> Better(o.side, o.price, below[i].price)
    ensures Enqueue(above + here + below, o) == above + (here + [o]) + below
  {
    EnqueueBetween(above + here, below, o);
    assert above + here + [o] == above + (here + [o]);
  }

  /** Everything above level p ranks ahead of it, everything below ranks behind. */
  lemma FlatOutside(prices: seq<int>, a: seq<int>, b: seq<int>, q: Queues, side: Side, p: int)
    requires PricedRight(prices, q, side)
    requires forall i :: 0 <= i < |a| ==> a[i] in prices && Better(side, a[i], p)
    requires forall i :: 0 <= i < |b| ==> b[i] in prices && Better(side, p, b[i])
    ensures forall k :: 0 <= k < |Flat(a, q)| ==> !Better(side, p, Flat(a, q)[k].price)
    ensures forall k :: 0 <= k < |Flat(b, q)| ==> Better(side, p, Flat(b, q)[k].price)
  {
    PricedRightPart(prices, a, q, side);
    PricedRightPart(prices, b, q, side);
    FlatPrices(a, q, side);
    FlatPrices(b, q, side);
  }

  /** Insertion point between orders that are not worse and orders that are strictly worse. */
  lemma EnqueueBetween(front: seq<Order>, back: seq<Order>, o: Order)
    requires forall i :: 0 <= i < |front| ==> !Better(o.side, o.price, front[i].price)
    requires forall i :: 0 <= i < |back| ==> Better(o.side, o.price, back[i].price)
    ensures Enqueue(front + back, o) == front + [o] + back
  {
    assert forall i :: 0 <= i < |front| ==> (front + back)[i] == front[i];
    assert forall i :: 0 <= i < |back| ==> (front + back)[|front| + i] == back[i];
    assert back != [] ==> (front + back)[|front|] == back[0];
  }

  /** Replacing the queue of a level; an emptied level leaves the ladder. */
  function QueuesPut(q: Queues, p: int, s: seq<Order>): Queues {
    if s == [] then q - {p} else q[p := s]
  }

  function KeysPut(prices: seq<int>, side: Side, p: int, s: seq<Order>): seq<int> {
    if s == [] then DropKey(prices, side, p) else prices
  }

  lemma FlatPut(prices: seq<int>, q: Queues, side: Side, p: int, s: seq<Order>)
    returns (before: seq<Order>, after: seq<Order>)
    requires StrictlySorted(prices, side) && p in prices && p in q
    ensures Flat(prices, q) == before + q[p] + after
    ensures Flat(KeysPut(prices, side, p, s), QueuesPut(q, p, s)) == before + s + after
  {
    var a, b := KeySplit(prices, side, p);
    before, after := Flat(a, q), Flat(b, q);
    FlatMiddle(a, p, b, q);
    FlatAround(a, p, b, q, QueuesPut(q, p, s));
    assert before + [] == before;
  }

  /** Removing element k of level p removes its order from the flat list. */
  lemma FlatRemove(prices: seq<int>, q: Queues, side: Side, p: int, k: nat)
    requires StrictlySorted(prices, side) && p in prices && p in q && k < |q[p]| && DistinctIds(Flat(prices, q))
    ensures var flat, s := Flat(prices, q), RemoveAt(q[p], k);
            && Has(flat, q[p][k].id)
            && Flat(KeysPut(prices, side, p, s), QueuesPut(q, p, s)) == RemoveAt(flat, PosOf(flat, q[p][k].id))
  {
    hide Flat;
    hide KeysPut;
    hide PosOf;
    hide StrictlySorted;
    var before, after := FlatPut(prices, q, side, p, RemoveAt(q[p], k));
    var flat := Flat(prices, q);
    assert flat[|before| + k] == q[p][k];
    PosOfUnique(flat, |before| + k);
    assert RemoveAt(flat, |before| + k) == before + RemoveAt(q[p], k) + after;
  }

  /** Changing element k of level p changes its order in the flat list. */
  lemma FlatUpdate(prices: seq<int>, q: Queues, side: Side, p: int, k: nat, o: Order)
    requires StrictlySorted(prices, side) && p in prices && p in q && k < |q[p]| && DistinctIds(Flat(prices, q))
    ensures var flat := Flat(prices, q);
            && Has(flat, q[p][k].id)
            && Flat(prices, q[p := q[p][k := o]]) == flat[PosOf(flat, q[p][k].id) := o]
  {
    var before, after := FlatPut(prices, q, side, p, q[p][k := o]);
    var flat := Flat(prices, q);
    assert flat[|before| + k] == q[p][k];
    PosOfUnique(flat, |before| + k);
    assert flat[|before| + k := o] == before + q[p][k := o] + after;
  }

  // ---- Ids --------------------------------------------------------------------------

  ghost predicate UniqueIds(queues: Queues) {
    forall p, r, i, j ::
      (p in queues && r in queues && 0 <= i < |queues[p]| && 0 <= j < |queues[r]| &&
       queues[p][i].id == queues[r][j].id) ==> p == r && i == j
  }

  lemma {:induction false} FlatLocate(prices: seq<int>, q: Queues, k: nat) returns (p: int, j: nat)
    requires k < |Flat(prices, q)|
    ensures p in prices && p in q && j < |q[p]| && q[p][j] == Flat(prices, q)[k]
  {
    var here := QueueAt(q, prices[0]);
    if k < |here| {
      p, j := prices[0], k;
    } else {
      p, j := FlatLocate(prices[1..], q, k - |here|);
    }
  }

  lemma {:induction false} FlatHolds(prices: seq<int>, q: Queues, p: int, j: nat) returns (k: nat)
    requires p in prices && p in q && j < |q[p]|
    ensures k < |Flat(prices, q)| && Flat(prices, q)[k] == q[p][j]
  {
    if p == prices[0] {
      k := j;
    } else {
      k := FlatHolds(prices[1..], q, p, j);
      k := k + |QueueAt(q, prices[0])|;
    }
  }

  lemma {:induction false} FlatDistinct(prices: seq<int>, q: Queues, side: Side)
    requires UniqueIds(q) && StrictlySorted(prices, side)
    ensures DistinctIds(Flat(prices, q))
  {
    if prices != [] {
      var here, more := QueueAt(q, prices[0]), Flat(prices[1..], q);
      assert forall i :: 0 <= i < |prices| - 1 ==> prices[1..][i] == prices[i + 1];
      FlatDistinct(prices[1..], q, side);
      forall i, k | 0 <= i < |here| && 0 <= k < |more| ensures here[i].id != more[k].id {
        var p, j := FlatLocate(prices[1..], q, k);
        assert p != prices[0];
      }
    }
  }

  /** What makes two ladders and their queues a book. */
  ghost predicate Shape(bids: seq<int>, asks: seq<int>, queues: Queues) {
    && StrictlySorted(bids, Buy) && StrictlySorted(asks, Sell)
    && (forall p :: p in bids ==> p !in asks)
    && (forall p :: p in queues <==> p in bids || p in asks)
    && (forall p :: p in queues ==> queues[p] != [])
    && PricedRight(bids, queues, Buy) && PricedRight(asks, queues, Sell)
  }

  lemma ShapeValid(bids: seq<int>, asks: seq<int>, queues: Queues)
    requires Shape(bids, asks, queues) && UniqueIds(queues)
    ensures Valid(Book(Flat(bids, queues), Flat(asks, queues)))
  {
    FlatSorted(bids, queues, Buy);
    FlatSorted(asks, queues, Sell);
    FlatPrices(bids, queues, Buy);
    FlatPrices(asks, queues, Sell);
    FlatDistinct(bids, queues, Buy);
    FlatDistinct(asks, queues, Sell);
    var s, t := Flat(bids, queues), Flat(asks, queues);
    forall i, j | 0 <= i < |s| && 0 <= j < |t| ensures s[i].id != t[j].id {
      var p, x := FlatLocate(bids, queues, i);
      var r, y := FlatLocate(asks, queues, j);
    }
  }

  // ---- How the shape changes ----------------------------------------------------------

  lemma PricedRightFrame(prices: seq<int>, q: Queues, r: Queues, side: Side, p: int)
    requires PricedRight(prices, q, side) && SameBut(p, q, r)
    requires forall j :: 0 <= j < |QueueAt(r, p)| ==> QueueAt(r, p)[j].price == p && Resting(QueueAt(r, p)[j], side)
    ensures forall keys: seq<int> :: (forall i :: 0 <= i < |keys| ==> keys[i] in prices || keys[i] == p) ==>
              PricedRight(keys, r, side)
  {
  }

  /** Appending to a level, old or new, keeps the shape of its side. */
  lemma KeysWithSorted(prices: seq<int>, q: Queues, side: Side, o: Order)
    requires StrictlySorted(prices, side) && PricedRight(prices, q, side) && Resting(o, side)
    requires o.price in prices ==> o.price in q
    ensures StrictlySorted(KeysWith(prices, side, o.price), side)
    ensures forall x :: x in KeysWith(prices, side, o.price) <==> x in prices || x == o.price
    ensures var r := q[o.price := (if o.price in prices then q[o.price] else []) + [o]];
            PricedRight(KeysWith(prices, side, o.price), r, side)
  {
    if o.price !in prices {
      AddKeySorted(prices, side, o.price);
    }
    var r := q[o.price := (if o.price in prices then q[o.price] else []) + [o]];
    if o.price in prices {
      var i :| 0 <= i < |prices| && prices[i] == o.price;
      assert QueueAt(q, prices[i]) == q[o.price];
    }
    PricedRightFrame(prices, q, r, side, o.price);
  }

  lemma PricedRightOther(prices: seq<int>, q: Queues, side: Side, p: int, s: seq<Order>)
    requires PricedRight(prices, q, side) && p !in prices
    ensures PricedRight(prices, q[p := s], side)
    ensures PricedRight(prices, q - {p}, side)
  {
    assert forall i :: 0 <= i < |prices| ==> QueueAt(q[p := s], prices[i]) == QueueAt(q, prices[i]);
    assert forall i :: 0 <= i < |prices| ==> QueueAt(q - {p}, prices[i]) == QueueAt(q, prices[i]);
  }

  lemma ShapeAttach(bids: seq<int>, asks: seq<int>, q: Queues, o: Order)
    requires Shape(bids, asks, q) && Resting(o, o.side)
    requires o.price !in (if o.side.Buy? then asks else bids)
    ensures o.side.Buy? ==> Shape(KeysWith(bids, Buy, o.price), asks, Attached(bids, q, o))
    ensures o.side.Sell? ==> Shape(bids, KeysWith(asks, Sell, o.price), Attached(asks, q, o))
  {
    if o.side.Buy? {
      KeysWithSorted(bids, q, Buy, o);
      PricedRightOther(asks, q, Sell, o.price, QueueAt(Attached(bids, q, o), o.price));
    } else {
      KeysWithSorted(asks, q, Sell, o);
      PricedRightOther(bids, q, Buy, o.price, QueueAt(Attached(asks, q, o), o.price));
    }
  }

  lemma {:induction false} PutSide(prices: seq<int>, q: Queues, side: Side, p: int, s: seq<Order>)
    requires StrictlySorted(prices, side) && PricedRight(prices, q, side) && p in prices
    requires forall j :: 0 <= j < |s| ==> s[j].price == p && Resting(s[j], side)
    ensures StrictlySorted(KeysPut(prices, side, p, s), side)
    ensures forall x :: x in KeysPut(prices, side, p, s) <==> x in prices && (x != p || s != [])
    ensures PricedRight(KeysPut(prices, side, p, s), QueuesPut(q, p, s), side)
  {
    DropKeySorted(prices, side, p);
    PricedRightFrame(prices, q, QueuesPut(q, p, s), side, p);
  }

  lemma ShapePut(bids: seq<int>, asks: seq<int>, q: Queues, side: Side, p: int, s: seq<Order>)
    requires Shape(bids, asks, q) && p in (if side.Buy? then bids else asks)
    requires forall j :: 0 <= j < |s| ==> s[j].price == p && Resting(s[j], side)
    ensures side.Buy? ==> Shape(KeysPut(bids, Buy, p, s), asks, QueuesPut(q, p, s))
    ensures side.Sell? ==> Shape(bids, KeysPut(asks, Sell, p, s), QueuesPut(q, p, s))
  {
    if side.Buy? {
      PutSide(bids, q, Buy, p, s);
      PricedRightOther(asks, q, Sell, p, s);
    } else {
      PutSide(asks, q, Sell, p, s);
      PricedRightOther(bids, q, Buy, p, s);
    }
  }

  // ---- Scans of one price ---------------------------------------------------------------

  lemma {:induction false} ScanConcat(s: seq<Order>, t: seq<Order>, p: int)
    ensures TotalAt(s + t, p) == TotalAt(s, p) + TotalAt(t, p)
    ensures CountAt(s + t, p) == CountAt(s, p) + CountAt(t, p)
  {
    if s == [] {
      assert s + t == t;
    } else {
      assert (s + t)[1..] == s[1..] + t;
      ScanConcat(s[1..], t, p);
    }
  }

  lemma {:induction false} ScanSame(s: seq<Order>, p: int)
    requires forall i :: 0 <= i < |s| ==> s[i].price == p
    ensures TotalAt(s, p) == Total(s) && CountAt(s, p) == |s|
  {
    if s != [] {
      ScanSame(s[1..], p);
    }
  }

  lemma {:induction false} ScanNone(s: seq<Order>, p: int)
    requires forall i :: 0 <= i < |s| ==> s[i].price != p
    ensures TotalAt(s, p) == 0 && CountAt(s, p) == 0
  {
    if s != [] {
      ScanNone(s[1..], p);
    }
  }

  /** The total and count cached at a level are those of a scan of its whole side. */
  lemma LevelScan(prices: seq<int>, q: Queues, side: Side, p: int)
    requires StrictlySorted(prices, side) && PricedRight(prices, q, side) && p in prices && p in q
    ensures TotalAt(Flat(prices, q), p) == Total(q[p]) && CountAt(Flat(prices, q), p) == |q[p]|
  {
    var a, here, b := FlatCut(prices, q, side, p);
    PricedRightPart(prices, a, q, side) by { KeyParts(prices, side, p, a, b); }
    PricedRightPart(prices, b, q, side) by { KeyParts(prices, side, p, a, b); }
    FlatPrices(a, q, side);
    FlatPrices(b, q, side);
    ScanNone(Flat(a, q), p);
    ScanSame(here, p);
    ScanNone(Flat(b, q), p);
    ScanConcat(Flat(a, q) + here, Flat(b, q), p);
    ScanConcat(Flat(a, q), here, p);
  }

  lemma KeyParts(prices: seq<int>, side: Side, p: int, a: seq<int>, b: seq<int>)
    requires p in prices && prices == a + [p] + b
    ensures forall i :: 0 <= i < |a| ==> a[i] in prices
    ensures forall i :: 0 <= i < |b| ==> b[i] in prices
  {
    assert forall i :: 0 <= i < |a| ==> a[i] == prices[i];
    assert forall i :: 0 <= i < |b| ==> b[i] == prices[|a| + 1 + i];
  }

  lemma FlatFirst(prices: seq<int>, q: Queues)
    requires forall i :: 0 <= i < |prices| ==> prices[i] in q && q[prices[i]] != []
    ensures prices == [] <==> Flat(prices, q) == []
    ensures prices != [] ==> Flat(prices, q)[0] == q[prices[0]][0]
  {
  }
}
