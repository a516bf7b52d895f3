/**
 The two ladders and the level store as three maps to levels, with the insertions of the
 source: an existing key is kept. The ladders and the store agree after an operation exactly
 when its price is not on the other ladder.
 */
module LevelStore {
  import opened Types
  import opened BookSpec
  import opened Ladder
  import opened Safety

  /** Price ladders and store; L identifies a level, by address. */
  datatype Shelves<L> = Shelves(bids: map<int, L>, asks: map<int, L>, store: map<int, L>) {
    function Of(side: Side): map<int, L> {
      if side.Buy? then bids else asks
    }

    function With(side: Side, m: map<int, L>): Shelves<L> {
      if side.Buy? then this.(bids := m) else this.(asks := m)
    }
  }

  /** Insertion into a map: nothing happens when the key is there. */
  function Emplaced<L>(m: map<int, L>, p: int, l: L): map<int, L> {
    if p in m then m else m[p := l]
  }

  /** Every ladder entry is the level that the store owns at that price, and the store owns no other. */
  ghost predicate Agree<L>(s: Shelves<L>) {
    && (forall p :: p in s.store <==> p in s.bids || p in s.asks)
    && (forall p :: p in s.bids ==> s.bids[p] == s.store[p])
    && (forall p :: p in s.asks ==> s.asks[p] == s.store[p])
  }

  /** `spare` is the level allocated when the ladder has none at this price. */
  function GetOrCreate<L>(s: Shelves<L>, side: Side, p: int, spare: L): Shelves<L> {
    if p in s.Of(side) then s
    else s.(store := Emplaced(s.store, p, spare)).With(side, Emplaced(s.Of(side), p, spare))
  }

  function Destroy<L>(s: Shelves<L>, side: Side, p: int): Shelves<L> {
    s.(store := s.store - {p}).With(side, s.Of(side) - {p})
  }

  /**
   A level that is created at a price of the other ladder is not kept by the store, which goes
   on owning the other side's level: the new ladder entry then leads to a level nobody owns.
   */
  lemma GetOrCreateAgreesIff<L>(s: Shelves<L>, side: Side, p: int, spare: L)
    requires Agree(s) && p !in s.Of(side) && spare !in s.store.Values
    ensures Agree(GetOrCreate(s, side, p, spare)) <==> p !in s.Of(side.Opposite())
    ensures p in s.Of(side.Opposite()) ==>
              var t := GetOrCreate(s, side, p, spare); t.Of(side)[p] == spare && spare !in t.store.Values
  {
    if p in s.Of(side.Opposite()) {
      assert s.store[p] in s.store.Values;
      assert GetOrCreate(s, side, p, spare).store[p] == s.store[p];
    }
  }

  lemma DestroyAgrees<L>(s: Shelves<L>, side: Side, p: int)
    requires Agree(s) && p in s.Of(side) && p !in s.Of(side.Opposite())
    ensures Agree(Destroy(s, side, p))
  {
  }

  // ---- Shelves of a book ---------------------------------------------------------------------

  /** The shelves of a book: a level on a ladder for each of its prices there, none on both. */
  ghost predicate StandsFor<L>(s: Shelves<L>, b: Book) {
    && Agree(s)
    && (forall p :: p in s.bids <==> CountAt(b.bids, p) > 0)
    && (forall p :: p in s.asks <==> CountAt(b.asks, p) > 0)
    && s.bids.Keys !! s.asks.Keys
  }

  lemma {:induction false} CountIff(s: seq<Order>, p: int)
    ensures CountAt(s, p) > 0 <==> exists k :: 0 <= k < |s| && s[k].price == p
    decreases |s|
  {
    if s != [] {
      CountIff(s[1..], p);
      if k :| 0 <= k < |s| && s[k].price == p {
        assert k > 0 ==> s[1..][k - 1].price == p;
      }
      if k :| 0 <= k < |s| - 1 && s[1..][k].price == p {
        assert s[k + 1].price == p;
      }
    }
  }

  lemma CountOne(o: Order, p: int)
    ensures CountAt([o], p) == if o.price == p then 1 else 0
  {
    assert [o][1..] == [];
  }

  lemma CountEnqueue(s: seq<Order>, o: Order, p: int)
    ensures CountAt(Enqueue(s, o), p) == CountAt(s, p) + if o.price == p then 1 else 0
  {
    var k := Rank(s, o.side, o.price);
    hide Rank;
    hide CountAt;
    assert s == s[..k] + s[k..];
    ScanConcat(s[..k], s[k..], p);
    ScanConcat(s[..k], [o], p);
    ScanConcat(s[..k] + [o], s[k..], p);
    CountOne(o, p);
  }

  lemma CountRemoveAt(s: seq<Order>, k: nat, p: int)
    requires k < |s|
    ensures CountAt(RemoveAt(s, k), p) == CountAt(s, p) - if s[k].price == p then 1 else 0
  {
    hide CountAt;
    assert s == s[..k] + ([s[k]] + s[k + 1..]);
    ScanConcat(s[..k], [s[k]] + s[k + 1..], p);
    ScanConcat([s[k]], s[k + 1..], p);
    ScanConcat(s[..k], s[k + 1..], p);
    CountOne(s[k], p);
  }

  lemma OnLadderIff<L>(s: Shelves<L>, b: Book, side: Side, p: int)
    requires StandsFor(s, b)
    ensures p in s.Of(side.Opposite()) <==> !Unshared(b, side, p)
  {
    CountIff(b.Get(side.Opposite()), p);
  }

  /** The shelves after a new order is put on its level. */
  lemma InsertShelvesIff<L>(s: Shelves<L>, b: Book, o: Order, spare: L)
    requires StandsFor(s, b) && Insertable(b, o) && spare !in s.store.Values
    ensures var t := GetOrCreate(s, o.side, o.price, spare);
            && (Agree(t) <==> Unshared(b, o.side, o.price))
            && (Agree(t) ==> StandsFor(t, Insert(b, o)))
  {
    var t := GetOrCreate(s, o.side, o.price, spare);
    OnLadderIff(s, b, o.side, o.price);
    if o.price !in s.Of(o.side) {
      GetOrCreateAgreesIff(s, o.side, o.price, spare);
    }
    hide Enqueue;
    hide CountAt;
    hide Unshared;
    hide Insertable;
    forall p ensures CountAt(Enqueue(b.Get(o.side), o), p) == CountAt(b.Get(o.side), p) + if o.price == p then 1 else 0 {
      CountEnqueue(b.Get(o.side), o, p);
    }
  }

  /** The shelves after an order is taken off its level. */
  function Lightened<L>(s: Shelves<L>, b: Book, id: nat): Shelves<L>
    requires Live(b, id)
  {
    var side, p := HolderOf(b, id), OrderOf(b, id).price;
    if CountAt(b.Get(side), p) == 1 then Destroy(s, side, p) else s
  }

  lemma CancelShelves<L>(s: Shelves<L>, b: Book, id: nat)
    requires StandsFor(s, b) && Cancellable(b, id)
    ensures StandsFor(Lightened(s, b, id), BookSpec.Cancel(b, id))
  {
    var side, p := HolderOf(b, id), OrderOf(b, id).price;
    var q := b.Get(side);
    hide PosOf;
    hide CountAt;
    CountIff(q, p);
    assert p in s.Of(side) && p !in s.Of(side.Opposite());
    DestroyAgrees(s, side, p);
    hide RemoveAt;
    forall r ensures CountAt(RemoveAt(q, PosOf(q, id)), r) == CountAt(q, r) - if p == r then 1 else 0 {
      CountRemoveAt(q, PosOf(q, id), r);
    }
  }

  /** The shelves after a modify. */
  function Reshelved<L>(s: Shelves<L>, b: Book, id: nat, q: int, p: int, spare: L): Shelves<L> {
    if ModifyKind(b, id, q, p).Replaced? then GetOrCreate(Lightened(s, b, id), HolderOf(b, id), p, spare) else s
  }

  /** A modify keeps the ladders and the store in agreement exactly when its price is not on the other side. */
  lemma ModifyShelvesIff<L>(s: Shelves<L>, b: Book, id: nat, q: int, p: int, spare: L)
    requires Valid(b) && StandsFor(s, b) && spare !in s.store.Values
    ensures Agree(Reshelved(s, b, id, q, p, spare)) <==> Permitted(b, id, q, p)
    ensures Permitted(b, id, q, p) ==> StandsFor(Reshelved(s, b, id, q, p, spare), Modify(b, id, q, p))
  {
    if ModifyKind(b, id, q, p).Replaced? {
      var o := Requoted(OrderOf(b, id), q, p);
      assert o.side == HolderOf(b, id);
      CancelElsewhere(b, id);
      CancelShelves(s, b, id);
      ReplacementInsertable(b, id, q, p);
      hide Valid;
      hide BookSpec.Cancel;
      hide Cancellable;
      hide Insertable;
      hide Insert;
      hide GetOrCreate;
      hide Agree;
      hide StandsFor;
      assert spare !in Lightened(s, b, id).store.Values;
      InsertShelvesIff(Lightened(s, b, id), BookSpec.Cancel(b, id), o, spare);
    } else {
      ModifiedShelves(s, b, id, q, p);
    }
  }

  lemma ModifiedShelves<L>(s: Shelves<L>, b: Book, id: nat, q: int, p: int)
    requires StandsFor(s, b) && !ModifyKind(b, id, q, p).Replaced?
    ensures StandsFor(s, Modify(b, id, q, p))
  {
    if ModifyKind(b, id, q, p).Modified? && q != OrderOf(b, id).remaining {
      var side := HolderOf(b, id);
      var t, k := b.Get(side), PosOf(b.Get(side), id);
      var o := Shrunk(t[k], q).(quantity := t[k].quantity - (t[k].remaining - q));
      hide CountAt;
      hide PosOf;
      forall r ensures CountAt(t[k := o], r) == CountAt(t, r) {
        CountRemoveAt(t, k, r);
        CountRemoveAt(t[k := o], k, r);
        assert RemoveAt(t[k := o], k) == RemoveAt(t, k);
      }
    }
  }

  /**
   From a sound book, a modify leaves the ladders and the store in agreement and the book
   uncrossed if and only if it does not collide.
   */
  lemma ModifySoundIff<L>(s: Shelves<L>, b: Book, id: nat, q: int, p: int, spare: L)
    requires Valid(b) && Uncrossed(b) && StandsFor(s, b) && spare !in s.store.Values
    ensures Agree(Reshelved(s, b, id, q, p, spare)) && Uncrossed(Modify(b, id, q, p)) <==> !Collides(b, id, q, p)
  {
    ModifyShelvesIff(s, b, id, q, p, spare);
    hide StandsFor;
    hide Agree;
    if Permitted(b, id, q, p) {
      ModifyUncrossedIff(b, id, q, p);
    } else {
      SharedCollides(b, id, q, p);
    }
  }

  /**
   A bid at 100 that is modified to 101 while an ask rests at 101: the new ladder entry leads
   to a level that the store does not own, and the store keeps the ask's level.
   */
  lemma SharedPriceBreaks()
    ensures var bid := Order(1, 7, 1, Buy, Limit, GTC, 100, 5, 5, 1, New);
            var ask := Order(2, 8, 1, Sell, Limit, GTC, 101, 5, 5, 2, New);
            var b, s := Book([bid], [ask]), Shelves(map[100 := 1], map[101 := 2], map[100 := 1, 101 := 2]);
            var t := Reshelved(s, b, 1, 5, 101, 3);
            && Valid(b) && Uncrossed(b) && StandsFor(s, b)
            && !Permitted(b, 1, 5, 101)
            && t == Shelves(map[101 := 3], map[101 := 2], map[101 := 2])
            && !Agree(t)
  {
    var bid := Order(1, 7, 1, Buy, Limit, GTC, 100, 5, 5, 1, New);
    var ask := Order(2, 8, 1, Sell, Limit, GTC, 101, 5, 5, 2, New);
    var b, s := Book([bid], [ask]), Shelves(map[100 := 1], map[101 := 2], map[100 := 1, 101 := 2]);
    CountOne(bid, 100);
    forall p ensures CountAt(b.bids, p) == (if p == 100 then 1 else 0) && CountAt(b.asks, p) == (if p == 101 then 1 else 0) {
      CountOne(bid, p);
      CountOne(ask, p);
    }
    assert PosOf([bid], 1) == 0;
    assert HolderOf(b, 1) == Buy && OrderOf(b, 1) == bid && ModifyKind(b, 1, 5, 101) == Replaced;
    assert b.Get(Side.Buy.Opposite())[0].price == 101;
    assert !Unshared(b, Buy, 101);
    assert StandsFor(s, b);
    hide CountAt;
    hide PosOf;
    var u := Lightened(s, b, 1);
    assert u == Shelves(map[], map[101 := 2], map[101 := 2]);
    var t := Reshelved(s, b, 1, 5, 101, 3);
    assert t == GetOrCreate(u, Buy, 101, 3) == Shelves(map[101 := 3], map[101 := 2], map[101 := 2]);
    assert t.bids[101] != t.store[101];
  }

  // ---- The index ---------------------------------------------------------------------------

  /** The index holds exactly the ids on the levels. */
  ghost predicate Indexes(ids: set<nat>, b: Book) {
    forall id :: id in ids <==> Live(b, id)
  }

  /** A fill that consumes the front of the level erases the id it was called with. */
  function FilledIndex(ids: set<nat>, b: Book, id: nat, q: int): set<nat>
    requires Live(b, id)
  {
    if 0 < q && q >= b.Get(HolderOf(b, id))[FilledAt(b, id)].remaining then ids - {id} else ids
  }

  function FrontFilled(b: Book, id: nat, q: int): Book
    requires Live(b, id)
  {
    b.With(HolderOf(b, id), FillAt(b.Get(HolderOf(b, id)), FilledAt(b, id), q))
  }

  /**
   A fill reduces the front of the level whatever id it is given, so it keeps the index and the
   levels in agreement if and only if the front is the id's own order or is not consumed.
   */
  lemma FillIndexIff(ids: set<nat>, b: Book, id: nat, q: int)
    requires Valid(b) && Indexes(ids, b) && Live(b, id)
    ensures Indexes(FilledIndex(ids, b, id, q), FrontFilled(b, id, q)) <==> Fillable(b, id, q)
  {
    var side := HolderOf(b, id);
    var s, k := b.Get(side), FilledAt(b, id);
    assert k < |s| && s[k].remaining > 0;
    hide Valid;
    hide RemoveAt;
    hide Live;
    hide FilledAt;
    hide PosOf;
    hide Indexes;
    if 0 < q && q >= s[k].remaining {
      ConsumedLives(b, side, k);
      OneGone(ids, b, b.With(side, RemoveAt(s, k)), id, s[k].id);
    } else if q > 0 {
      ReducedLives(b, side, k, Shrunk(s[k], s[k].remaining - q));
      NoneGone(ids, b, b.With(side, s[k := Shrunk(s[k], s[k].remaining - q)]));
    } else {
      assert b.With(side, s) == b;
    }
  }

  /**
   Two bids of five lots at one price, filled under the id of the second: the first one leaves
   its level, and the index loses the second.
   */
  lemma WrongFrontBreaks()
    ensures var first := Order(1, 7, 1, Buy, Limit, GTC, 100, 5, 5, 1, New);
            var second := Order(2, 8, 1, Buy, Limit, GTC, 100, 5, 5, 2, New);
            var b := Book([first, second], []);
            && Valid(b) && Indexes({1, 2}, b)
            && !Fillable(b, 2, 5)
            && FrontFilled(b, 2, 5) == Book([second], [])
            && FilledIndex({1, 2}, b, 2, 5) == {1}
            && !Indexes({1}, Book([second], []))
  {
    var first := Order(1, 7, 1, Buy, Limit, GTC, 100, 5, 5, 1, New);
    var second := Order(2, 8, 1, Buy, Limit, GTC, 100, 5, 5, 2, New);
    var b := Book([first, second], []);
    assert Indexes({1, 2}, b) by {
      forall id ensures Live(b, id) <==> id in {1, 2} {
        HasIff(b.bids, id);
        assert b.bids[0].id == 1 && b.bids[1].id == 2;
      }
    }
    assert HolderOf(b, 2) == Buy && OrderOf(b, 2) == second by {
      assert b.bids[1..] == [second] && PosOf([second], 2) == 0 && PosOf(b.bids, 2) == 1;
    }
    assert Valid(b);
    assert FilledAt(b, 2) == 0;
    assert RemoveAt(b.bids, 0) == [second];
    hide Valid;
    hide PosOf;
    hide FilledAt;
    hide RemoveAt;
    hide Indexes;
    assert !Fillable(b, 2, 5);
    FillIndexIff({1, 2}, b, 2, 5);
  }

  lemma OneGone(ids: set<nat>, b: Book, c: Book, id: nat, gone: nat)
    requires Indexes(ids, b) && Live(b, id) && forall x :: Live(c, x) <==> Live(b, x) && x != gone
    ensures Indexes(ids - {id}, c) <==> gone == id
  {
    hide Live;
    if gone != id {
      assert Live(c, id) && id !in ids - {id};
    }
  }

  lemma NoneGone(ids: set<nat>, b: Book, c: Book)
    requires Indexes(ids, b) && forall x :: Live(c, x) <==> Live(b, x)
    ensures Indexes(ids, c)
  {
    hide Live;
  }

  lemma ConsumedLives(b: Book, side: Side, k: nat)
    requires Valid(b) && k < |b.Get(side)|
    ensures forall x :: Live(b.With(side, RemoveAt(b.Get(side), k)), x) <==> Live(b, x) && x != b.Get(side)[k].id
  {
    var s := b.Get(side);
    RemoveAtValid(s, k, side);
    forall x ensures Has(RemoveAt(s, k), x) <==> Has(s, x) && x != s[k].id {
      HasRemaining(s, k, x);
    }
    assert !Has(b.Get(side.Opposite()), s[k].id);
  }

  lemma HasRemaining(s: seq<Order>, k: nat, x: nat)
    requires DistinctIds(s) && k < |s|
    ensures Has(RemoveAt(s, k), x) <==> Has(s, x) && x != s[k].id
  {
    var t := RemoveAt(s, k);
    assert forall i :: 0 <= i < |t| ==> t[i] == s[if i < k then i else i + 1];
    HasIff(s, x);
    HasIff(t, x);
    if j :| 0 <= j < |s| && s[j].id == x && j != k {
      assert t[if j < k then j else j - 1] == s[j];
    }
  }

  lemma HasIff(s: seq<Order>, x: nat)
    ensures Has(s, x) <==> exists k :: 0 <= k < |s| && s[k].id == x
  {
  }

  lemma ReducedLives(b: Book, side: Side, k: nat, o: Order)
    requires k < |b.Get(side)| && o.id == b.Get(side)[k].id
    ensures forall x :: Live(b.With(side, b.Get(side)[k := o]), x) <==> Live(b, x)
  {
    var s := b.Get(side);
    forall x ensures Has(s[k := o], x) <==> Has(s, x) {
      HasIff(s, x);
      HasIff(s[k := o], x);
      if j :| 0 <= j < |s| && s[j].id == x {
        assert s[k := o][j].id == x;
      }
    }
  }
}
