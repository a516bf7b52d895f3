/**
 The order book as the exchange keeps it: two sorted ladders of price levels, one store of
 levels keyed by price alone, and an index of orders by id. `View` is the reference book it
 stands for; every method is proved to act on `View` as the reference operation does.
 */
module OrderBooks {
  import opened Types
  import opened BookSpec
  import opened Ladder
  import opened Levels
  import opened LevelStore

  /** The index leads from the id of each queued order to its node. */
  ghost predicate Finds(ix: map<nat, OrderNode>, q: seq<Order>, nodes: seq<OrderNode>) {
    |q| == |nodes| && forall i :: 0 <= i < |q| ==> q[i].id in ix && ix[q[i].id] == nodes[i]
  }

  lemma FindsStill(ix: map<nat, OrderNode>, jx: map<nat, OrderNode>, q: seq<Order>, nodes: seq<OrderNode>)
    requires Finds(ix, q, nodes) && forall id :: id in ix ==> id in jx && jx[id] == ix[id]
    ensures Finds(jx, q, nodes)
  {
  }

  lemma FindsMore(ix: map<nat, OrderNode>, q: seq<Order>, nodes: seq<OrderNode>, n: OrderNode, o: Order)
    requires Finds(ix, q, nodes) && o.id !in ix
    ensures Finds(ix[o.id := n], q + [o], nodes + [n])
  {
  }

  lemma FindsWithout(ix: map<nat, OrderNode>, q: seq<Order>, nodes: seq<OrderNode>, id: nat)
    requires Finds(ix, q, nodes) && id in ix && ix[id] !in nodes
    ensures Finds(ix - {id}, q, nodes)
  {
  }

  lemma FindsFewer(ix: map<nat, OrderNode>, q: seq<Order>, nodes: seq<OrderNode>, k: nat)
    requires Finds(ix, q, nodes) && k < |nodes| && forall i, j :: 0 <= i < j < |nodes| ==> nodes[i] != nodes[j]
    ensures Finds(ix - {q[k].id}, RemoveAt(q, k), RemoveAt(nodes, k))
  {
    RemoveAtKeeps(q, k);
    RemoveAtKeeps(nodes, k);
  }

  lemma FindsSame(ix: map<nat, OrderNode>, q: seq<Order>, r: seq<Order>, nodes: seq<OrderNode>)
    requires Finds(ix, q, nodes) && |r| == |q| && forall i :: 0 <= i < |q| ==> q[i].id == r[i].id
    ensures Finds(ix, r, nodes)
  {
  }

  class OrderBook {
    const instrument: nat
    var bids: map<int, Level>
    var asks: map<int, Level>
    var bidPrices: seq<int>   // iteration order of the bid ladder, best first
    var askPrices: seq<int>   // iteration order of the ask ladder, best first
    var levels: map<int, Level>
    var index: map<nat, OrderNode>
    ghost var queues: Queues
    ghost var Repr: set<object>   // the levels and the nodes on them

    ghost function View(): Book
      reads `bidPrices, `askPrices, `queues
    {
      Book(Flat(bidPrices, queues), Flat(askPrices, queues))
    }

    function Prices(side: Side): seq<int>
      reads `bidPrices, `askPrices
    {
      if side.Buy? then bidPrices else askPrices
    }

    function Shelf(): Shelves<Level>
      reads `bids, `asks, `levels
    {
      Shelves(bids, asks, levels)
    }

    /** The ladders and the level store agree, and the ladders have their prices in order. */
    ghost predicate Stored()
      reads `bids, `asks, `bidPrices, `askPrices, `levels
    {
      && (forall p :: p in bids <==> p in bidPrices)
      && (forall p :: p in asks <==> p in askPrices)
      && Agree(Shelf())
    }

    /** The level at p is a valid list of the orders queued at p, and `ix` finds each of its nodes. */
    ghost predicate LevelAt(p: int, ix: map<nat, OrderNode>)
      reads `levels, `queues, `Repr, Repr
    {
      && p in levels && p in queues && levels[p] in Repr && levels[p].price == p
      && (forall n :: n in levels[p].nodes ==> n in Repr)
      && levels[p].Carries(queues[p])
      && Finds(ix, queues[p], levels[p].nodes)
    }

    /** The node indexed under this id carries it and is on the list of its price. */
    ghost predicate NodeAt(id: nat, ix: map<nat, OrderNode>)
      reads `levels, `Repr, Repr
    {
      && id in ix && ix[id] in Repr
      && ix[id].order.id == id
      && ix[id].order.price in levels
      && levels[ix[id].order.price] in Repr
      && ix[id] in levels[ix[id].order.price].nodes
    }

    ghost predicate Listed(ix: map<nat, OrderNode>)
      reads `levels, `queues, `Repr, Repr
    {
      && (forall p :: p in levels <==> p in queues)
      && (forall p :: p in levels ==> LevelAt(p, ix))
    }

    ghost predicate Found(ix: map<nat, OrderNode>)
      reads `levels, `Repr, Repr
    {
      forall id :: id in ix ==> NodeAt(id, ix)
    }

    ghost predicate Heap(ix: map<nat, OrderNode>)
      reads `levels, `queues, `Repr, Repr
    {
      Listed(ix) && Found(ix)
    }

    ghost predicate ValidWith(ix: map<nat, OrderNode>)
      reads `bids, `asks, `bidPrices, `askPrices, `levels, `queues, `Repr, Repr
    {
      this !in Repr && Stored() && Shape(bidPrices, askPrices, queues) && Heap(ix)
    }

    ghost predicate Valid()
      reads this, Repr
    {
      ValidWith(index)
    }

    constructor (i: nat)
      ensures instrument == i && Valid() && View() == EMPTY
      ensures Repr == {}
    {
      instrument := i;
      bids, asks, levels, index, queues := map[], map[], map[], map[], map[];
      bidPrices, askPrices := [], [];
      Repr := {};
    }

    /** Where an indexed order sits: its price, and its place in the queue there. */
    lemma Located(ix: map<nat, OrderNode>, id: nat) returns (p: int, k: nat)
      requires ValidWith(ix) && id in ix
      ensures p == ix[id].order.price && p in levels && p in queues && k < |queues[p]|
      ensures k < |levels[p].nodes| && levels[p].nodes[k] == ix[id]
      ensures queues[p][k] == ix[id].order && queues[p][k].id == id
      ensures p in Prices(ix[id].order.side) && p !in Prices(ix[id].order.side.Opposite())
      ensures if ix[id].order.side.Buy? then p in bids && levels[p] == bids[p] else p in asks && levels[p] == asks[p]
      ensures levels[p].price == p && levels[p] in Repr && forall n :: n in levels[p].nodes ==> n in Repr
    {
      p := ix[id].order.price;
      assert NodeAt(id, ix) && LevelAt(p, ix);
      k :| 0 <= k < |levels[p].nodes| && levels[p].nodes[k] == ix[id];
      assert QueueAt(queues, p)[k] == ix[id].order;
    }

    lemma Unique(ix: map<nat, OrderNode>)
      requires ValidWith(ix)
      ensures UniqueIds(queues)
    {
      forall p, r, i, j | p in queues && r in queues && 0 <= i < |queues[p]| && 0 <= j < |queues[r]|
        && queues[p][i].id == queues[r][j].id ensures p == r && i == j
      {
        assert levels[p].nodes[i] == levels[r].nodes[j];
        assert QueueAt(queues, p)[i].price == p && QueueAt(queues, r)[j].price == r;
      }
    }

    lemma ViewValid(ix: map<nat, OrderNode>)
      requires ValidWith(ix)
      ensures BookSpec.Valid(View())
    {
      Unique(ix);
      ShapeValid(bidPrices, askPrices, queues);
    }

    /** The index holds exactly the live orders of the view. */
    lemma IndexAgrees(ix: map<nat, OrderNode>, id: nat)
      requires ValidWith(ix)
      ensures id in ix <==> Live(View(), id)
      ensures id in ix ==> OrderOf(View(), id) == ix[id].order && HolderOf(View(), id) == ix[id].order.side
      ensures id in ix ==> ix[id] in Repr && ix[id].order.id == id
    {
      hide Level.Valid;
      ViewValid(ix);
      if id in ix {
        assert NodeAt(id, ix);
        var p, j := Located(ix, id);
        var side := ix[id].order.side;
        var k := FlatHolds(Prices(side), queues, p, j);
        PosOfUnique(View().Get(side), k);
      } else if Live(View(), id) {
        var side := HolderOf(View(), id);
        var p, j := FlatLocate(Prices(side), queues, PosOf(View().Get(side), id));
        assert false;
      }
    }

    lemma PriceFree(ix: map<nat, OrderNode>, side: Side, p: int)
      requires ValidWith(ix) && Unshared(View(), side, p)
      ensures p !in Prices(side.Opposite())
    {
      hide OrderBook.Heap;
      var keys := Prices(side.Opposite());
      forall i | 0 <= i < |keys| ensures keys[i] != p {
        var k := FlatHolds(keys, queues, keys[i], 0);
        assert QueueAt(queues, keys[i])[0].price == keys[i];
        assert View().Get(side.Opposite())[k] == queues[keys[i]][0];
      }
    }

    lemma NotIndexed(ix: map<nat, OrderNode>, o: OrderNode)
      requires Heap(ix) && o !in Repr
      ensures forall id :: id in ix ==> ix[id] != o
    {
      hide Level.Valid;
      assert forall id :: id in ix ==> NodeAt(id, ix);
    }

    // ---- Levels -------------------------------------------------------------------

    /** What a level tells about its nodes. */
    ghost predicate Known(p: int, ix: map<nat, OrderNode>)
      requires p in levels
      reads this, levels[p], levels[p].nodes
    {
      && p in queues && levels[p].orderCount == |levels[p].nodes| == |queues[p]| && levels[p].Valid()
      && levels[p].queue == queues[p]
      && (forall i :: 0 <= i < |queues[p]| ==> levels[p].nodes[i].order == queues[p][i] && queues[p][i].price == p)
      && (forall i, j :: 0 <= i < j < |queues[p]| ==> levels[p].nodes[i] != levels[p].nodes[j])
      && (forall n :: n in levels[p].nodes ==> n.order.price == p && n.order.id in ix && ix[n.order.id] == n)
    }

    lemma IsKnown(ix: map<nat, OrderNode>, p: int)
      requires p in levels && LevelAt(p, ix)
      ensures Known(p, ix)
    {
    }

    /** Levels share no nodes. */
    lemma Apart(ix: map<nat, OrderNode>, p: int)
      requires Listed(ix) && p in levels
      ensures Known(p, ix)
      ensures forall r :: r in levels && r != p ==>
                levels[r] != levels[p] && forall n :: n in levels[r].nodes ==> n !in levels[p].nodes
    {
      hide Level.Valid;
      hide Level.Carries;
      hide Finds;
      IsKnown(ix, p);
      forall r | r in levels && r != p
        ensures levels[r] != levels[p] && forall n :: n in levels[r].nodes ==> n !in levels[p].nodes
      {
        IsKnown(ix, r);
        assert LevelAt(r, ix) && LevelAt(p, ix);
      }
    }

    lemma Elsewhere(ix: map<nat, OrderNode>, o: OrderNode)
      requires Listed(ix) && forall id :: id in ix ==> ix[id] != o
      ensures forall r :: r in levels ==> o !in levels[r].nodes
    {
      hide Level.Valid;
      hide Level.Carries;
      forall r | r in levels ensures o !in levels[r].nodes {
        IsKnown(ix, r);
      }
    }

    /**
     Enter a level in the store and in its ladder. The store keeps a level it has at this price
     already, so the two agree afterwards exactly when the other ladder has none.
     */
    method EnterLevel(lvl: Level, price: int, side: Side)
      requires Stored() && StrictlySorted(Prices(side), side) && price !in Prices(side) && lvl !in levels.Values
      modifies this`bids, this`asks, this`bidPrices, this`askPrices, this`levels
      ensures Stored() <==> price !in Prices(side.Opposite())
      ensures Shelf() == GetOrCreate(old(Shelf()), side, price, lvl)
      ensures Prices(side) == AddKey(old(Prices(side)), side, price)
      ensures Prices(side.Opposite()) == old(Prices(side.Opposite()))
      ensures levels == if price in Prices(side.Opposite()) then old(levels) else old(levels)[price := lvl]
      ensures price !in Prices(side.Opposite()) ==> price !in old(levels)
    {
      hide Agree;
      hide AddKey;
      hide StrictlySorted;
      AddKeySorted(Prices(side), side, price);
      OnLadder(side, price);
      OwnedIff(price, side);
      GetOrCreateAgreesIff(Shelf(), side, price, lvl);
      levels := Emplaced(levels, price, lvl);
      if side.Buy? {
        bids := Emplaced(bids, price, lvl);
        bidPrices := AddKey(bidPrices, Buy, price);
      } else {
        asks := Emplaced(asks, price, lvl);
        askPrices := AddKey(askPrices, Sell, price);
      }
    }

    method CreateLevel(price: int, side: Side) returns (lvl: Level)
      requires Stored() && StrictlySorted(Prices(side), side) && price !in Prices(side)
      modifies this`bids, this`asks, this`bidPrices, this`askPrices, this`levels
      ensures Stored() <==> price !in Prices(side.Opposite())
      ensures Shelf() == GetOrCreate(old(Shelf()), side, price, lvl)
      ensures Prices(side) == AddKey(old(Prices(side)), side, price)
      ensures Prices(side.Opposite()) == old(Prices(side.Opposite()))
      ensures levels == if price in Prices(side.Opposite()) then old(levels) else old(levels)[price := lvl]
      ensures price !in Prices(side.Opposite()) ==> price !in old(levels)
      ensures fresh(lvl) && lvl.Carries([]) && lvl.nodes == [] && lvl.price == price
    {
      hide OrderBook.Stored;
      hide AddKey;
      hide StrictlySorted;
      hide GetOrCreate;
      lvl := new Level(price);
      EnterLevel(lvl, price, side);
    }

    lemma OwnedIff(price: int, side: Side)
      requires Stored() && price !in Prices(side)
      ensures price in levels <==> price in Prices(side.Opposite())
    {
    }

    method DestroyLevel(price: int, side: Side)
      requires Stored() && StrictlySorted(Prices(side), side)
      requires price in Prices(side) && price !in Prices(side.Opposite())
      modifies this`bids, this`asks, this`bidPrices, this`askPrices, this`levels
      ensures Stored() && levels == old(levels) - {price}
      ensures Prices(side) == DropKey(old(Prices(side)), side, price)
      ensures Prices(side.Opposite()) == old(Prices(side.Opposite()))
    {
      DropKeySorted(Prices(side), side, price);
      DestroyAgrees(Shelf(), side, price);
      hide Agree;
      hide DropKey;
      hide StrictlySorted;
      if side.Buy? {
        bids := bids - {price};
        bidPrices := DropKey(bidPrices, Buy, price);
      } else {
        asks := asks - {price};
        askPrices := DropKey(askPrices, Sell, price);
      }
      levels := levels - {price};
    }

    method AppendTo(lvl: Level, o: OrderNode, ghost ix: map<nat, OrderNode>)
      requires Heap(ix) && o.order.id !in ix && forall id :: id in ix ==> ix[id] != o
      requires o.order.price in levels && lvl == levels[o.order.price]
      modifies this`queues, this`Repr, lvl, lvl.nodes, o
      ensures o.order == old(o.order)
      ensures Heap(ix[o.order.id := o])
      ensures Repr == old(Repr) + {o}
      ensures queues == old(queues)[o.order.price := old(queues[o.order.price]) + [o.order]]
    {
      hide Level.Valid;
      hide Finds;
      ghost var p, jx := o.order.price, ix[o.order.id := o];
      Apart(ix, p);
      Elsewhere(ix, o);
      FindsMore(ix, queues[p], lvl.nodes, o, o.order);
      lvl.Append(o);
      queues := queues[p := queues[p] + [o.order]];
      Repr := Repr + {o};
      assert lvl.Carries(queues[p]);
      hide Level.Carries;
      assert Listed(jx) by {
        hide OrderBook.NodeAt;
        forall r | r in levels ensures LevelAt(r, jx) {
          if r != p {
            assert old(LevelAt(r, ix));
            FindsStill(ix, jx, queues[r], levels[r].nodes);
          }
        }
      }
      assert Found(jx) by {
        hide OrderBook.LevelAt;
        forall id | id in ix ensures NodeAt(id, jx) {
          assert old(NodeAt(id, ix));
        }
      }
    }

    method RemoveFrom(lvl: Level, o: OrderNode, ghost ix: map<nat, OrderNode>, ghost k: nat)
      requires Heap(ix) && o.order.price in levels && lvl == levels[o.order.price]
      requires k < |lvl.nodes| && lvl.nodes[k] == o && o.order.price in queues && k < |queues[o.order.price]|
      modifies this`queues, lvl, lvl.nodes
      ensures o.order == old(o.order)
      ensures Heap(ix - {o.order.id})
      ensures queues == old(queues)[o.order.price := RemoveAt(old(queues[o.order.price]), k)]
    {
      hide Level.Valid;
      hide RemoveAt;
      hide Finds;
      ghost var p, id := o.order.price, o.order.id;
      ghost var jx := ix - {id};
      Apart(ix, p);
      OthersFound(ix, p, id);
      RemoveAtKeeps(lvl.nodes, k);
      RemoveAtKeeps(queues[p], k);
      FindsFewer(ix, queues[p], lvl.nodes, k);
      lvl.Remove(o, k);
      queues := queues[p := RemoveAt(queues[p], k)];
      assert lvl.Carries(queues[p]) by {
        hide OrderBook.LevelAt;
        hide OrderBook.NodeAt;
      }
      hide Level.Carries;
      assert Listed(jx) by {
        hide OrderBook.NodeAt;
        forall r | r in levels ensures LevelAt(r, jx) {
          assert old(LevelAt(r, ix));
        }
      }
      assert Found(jx) by {
        hide OrderBook.LevelAt;
        hide OrderBook.Known;
        forall x | x in jx ensures NodeAt(x, jx) {
          assert old(NodeAt(x, ix));
        }
      }
    }

    /** The index without an order of level p still finds the nodes of all other levels. */
    lemma OthersFound(ix: map<nat, OrderNode>, p: int, id: nat)
      requires Listed(ix) && p in levels && id in ix && ix[id] in levels[p].nodes
      ensures forall r :: r in levels && r != p ==> Finds(ix - {id}, queues[r], levels[r].nodes)
    {
      hide Level.Valid;
      hide Level.Carries;
      hide Finds;
      Apart(ix, p);
      forall r | r in levels && r != p ensures Finds(ix - {id}, queues[r], levels[r].nodes) {
        assert LevelAt(r, ix);
        FindsWithout(ix, queues[r], levels[r].nodes, id);
      }
    }

    /** A node that is no longer indexed is no longer part of the book. */
    ghost method Forget(o: OrderNode, ix: map<nat, OrderNode>)
      requires Heap(ix) && o.order.id !in ix
      modifies this`Repr
      ensures Heap(ix) && Repr == old(Repr) - {o}
    {
      hide Level.Valid;
      hide Level.Carries;
      hide Finds;
      forall r | r in levels ensures o !in levels[r].nodes {
        IsKnown(ix, r);
      }
      Repr := Repr - {o};
      forall r | r in levels ensures LevelAt(r, ix) {
        assert old(LevelAt(r, ix));
      }
      forall x | x in ix ensures NodeAt(x, ix) {
        assert old(NodeAt(x, ix));
      }
    }

    method AmendIn(lvl: Level, o: OrderNode, changed: Order, ghost ix: map<nat, OrderNode>, ghost k: nat)
      requires Heap(ix) && o.order.price in levels && lvl == levels[o.order.price]
      requires k < |lvl.nodes| && lvl.nodes[k] == o && o.order.price in queues && k < |queues[o.order.price]|
      requires changed.id == o.order.id && changed.price == o.order.price
      modifies this`queues, lvl, o
      ensures o.order == changed
      ensures Heap(ix)
      ensures queues == old(queues)[o.order.price := old(queues[o.order.price])[k := changed]]
    {
      hide Level.Valid;
      hide Finds;
      ghost var p := o.order.price;
      Apart(ix, p);
      FindsSame(ix, queues[p], queues[p][k := changed], lvl.nodes);
      lvl.Amend(o, changed, k);
      queues := queues[p := queues[p][k := changed]];
      assert lvl.Carries(queues[p]);
      hide Level.Carries;
      assert Listed(ix) by {
        hide OrderBook.NodeAt;
        forall r | r in levels ensures LevelAt(r, ix) {
          assert old(LevelAt(r, ix));
        }
      }
      assert Found(ix) by {
        hide OrderBook.LevelAt;
        forall x | x in ix ensures NodeAt(x, ix) {
          assert old(NodeAt(x, ix));
        }
      }
    }

    /** An emptied level leaves its ladder and the store. */
    method DropIfEmpty(lvl: Level, side: Side, ghost ix: map<nat, OrderNode>)
      requires Stored() && StrictlySorted(Prices(side), side) && Heap(ix)
      requires lvl.price in Prices(side) && lvl.price !in Prices(side.Opposite())
      requires lvl.price in levels && lvl == levels[lvl.price]
      modifies this`bids, this`asks, this`bidPrices, this`askPrices, this`levels, this`queues
      ensures Stored() && Heap(ix)
      ensures queues == QueuesPut(old(queues), lvl.price, old(queues)[lvl.price])
      ensures Prices(side) == KeysPut(old(Prices(side)), side, lvl.price, old(queues)[lvl.price])
      ensures Prices(side.Opposite()) == old(Prices(side.Opposite()))
      ensures levels.Keys <= old(levels.Keys)
    {
      hide Level.Valid;
      hide Level.Carries;
      hide Finds;
      hide OrderBook.Stored;
      hide StrictlySorted;
      hide DropKey;
      ghost var p := lvl.price;
      IsKnown(ix, p);
      if lvl.orderCount == 0 {
        DestroyLevel(lvl.price, side);
        queues := queues - {p};
        forall r | r in levels ensures LevelAt(r, ix) {
          assert old(LevelAt(r, ix));
        }
        forall x | x in ix ensures NodeAt(x, ix) {
          assert old(NodeAt(x, ix));
        }
      }
    }

    /** One more object in the footprint leaves levels and nodes as they are. */
    ghost method Widen(x: object, p: int, ix: map<nat, OrderNode>)
      requires Found(ix) && forall r :: r in levels && r != p ==> LevelAt(r, ix)
      modifies this`Repr
      ensures Found(ix) && forall r :: r in levels && r != p ==> LevelAt(r, ix)
      ensures Repr == old(Repr) + {x}
    {
      hide Finds;
      hide Level.Valid;
      hide Level.Carries;
      Repr := Repr + {x};
      forall r | r in levels && r != p ensures LevelAt(r, ix) {
        assert old(LevelAt(r, ix));
      }
      forall i | i in ix ensures NodeAt(i, ix) {
        assert old(NodeAt(i, ix));
      }
    }

    /** A level without nodes gets its empty queue. */
    ghost method OpenQueue(p: int, ix: map<nat, OrderNode>)
      requires p in levels && p !in queues && levels[p] in Repr && levels[p].price == p
      requires levels[p].Carries([]) && levels[p].nodes == []
      requires forall r :: r in levels && r != p <==> r in queues
      requires forall r :: r in levels && r != p ==> LevelAt(r, ix)
      modifies this`queues
      ensures Listed(ix) && queues == old(queues)[p := []]
    {
      assert Finds(ix, [], []);
      hide Finds;
      hide Level.Valid;
      hide Level.Carries;
      queues := queues[p := []];
      forall r | r in levels ensures LevelAt(r, ix) {
        assert r != p ==> old(LevelAt(r, ix));
      }
    }

    /** A fresh empty level becomes part of the book. */
    ghost method Enroll(lvl: Level, ix: map<nat, OrderNode>)
      requires lvl.price in levels && lvl == levels[lvl.price] && lvl.price !in queues
      requires lvl.Carries([]) && lvl.nodes == []
      requires forall r :: r in levels && r != lvl.price <==> r in queues
      requires forall r :: r in levels && r != lvl.price ==> LevelAt(r, ix)
      requires Found(ix)
      modifies this`queues, this`Repr
      ensures Heap(ix)
      ensures queues == old(queues)[lvl.price := []] && Repr == old(Repr) + {lvl}
    {
      hide OrderBook.LevelAt;
      hide OrderBook.Listed;
      hide Level.Carries;
      Widen(lvl, lvl.price, ix);
      label Widened:
      OpenQueue(lvl.price, ix);
      forall x | x in ix ensures NodeAt(x, ix) {
        assert old@Widened(NodeAt(x, ix));
      }
    }

    /** Creating a level leaves all queued orders where they are, and enrolls the level if the store took it. */
    method AddLevel(p: int, side: Side, ghost ix: map<nat, OrderNode>) returns (lvl: Level)
      requires Stored() && StrictlySorted(Prices(side), side) && Heap(ix) && p !in Prices(side)
      modifies this`bids, this`asks, this`bidPrices, this`askPrices, this`levels, this`queues, this`Repr
      ensures Heap(ix) && fresh(lvl)
      ensures Stored() <==> p !in Prices(side.Opposite())
      ensures Shelf() == GetOrCreate(old(Shelf()), side, p, lvl)
      ensures Prices(side) == AddKey(old(Prices(side)), side, p)
      ensures Prices(side.Opposite()) == old(Prices(side.Opposite()))
      ensures p !in Prices(side.Opposite()) ==>
                p in levels && lvl == levels[p] && queues == old(queues)[p := []] && Repr == old(Repr) + {lvl}
      ensures p in Prices(side.Opposite()) ==> queues == old(queues) && Repr == old(Repr)
    {
      hide Level.Valid;
      hide Level.Carries;
      hide Finds;
      hide StrictlySorted;
      hide AddKey;
      hide OrderBook.Stored;
      lvl := CreateLevel(p, side);
      forall r | r in old(levels) ensures LevelAt(r, ix) {
        assert old(LevelAt(r, ix));
      }
      forall x | x in ix ensures NodeAt(x, ix) {
        assert old(NodeAt(x, ix));
      }
      if p !in Prices(side.Opposite()) {
        Enroll(lvl, ix);
      }
    }

    /**
     The level at a price, created empty if the ladder has none. Afterwards the ladders and the
     store agree exactly when the level was there or its price is not on the other ladder.
     */
    method GetOrCreateLevel(p: int, side: Side, ghost ix: map<nat, OrderNode>) returns (lvl: Level)
      requires Stored() && StrictlySorted(Prices(side), side) && Heap(ix)
      modifies this`bids, this`asks, this`bidPrices, this`askPrices, this`levels, this`queues, this`Repr
      ensures Heap(ix)
      ensures Stored() <==> p in old(Prices(side)) || p !in Prices(side.Opposite())
      ensures Shelf() == GetOrCreate(old(Shelf()), side, p, lvl) && p in Shelf().Of(side) && lvl == Shelf().Of(side)[p]
      ensures Stored() ==> p in levels && lvl == levels[p]
      ensures Prices(side) == KeysWith(old(Prices(side)), side, p)
      ensures Prices(side.Opposite()) == old(Prices(side.Opposite()))
      ensures queues == if !Stored() || p in old(Prices(side)) then old(queues) else old(queues)[p := []]
      ensures old(Repr) <= Repr && fresh(Repr - old(Repr))
    {
      hide OrderBook.Heap;
      hide OrderBook.Stored;
      hide AddKey;
      OnLadder(side, p);
      if p in Prices(side) {
        LevelOn(side, p);
        return if side.Buy? then bids[p] else asks[p];
      }
      lvl := AddLevel(p, side, ix);
    }

    lemma OnLadder(side: Side, p: int)
      requires Stored()
      ensures p in Prices(side) <==> p in Shelf().Of(side)
    {
    }

    lemma InRepr(ix: map<nat, OrderNode>, p: int)
      requires Heap(ix) && p in levels
      ensures levels[p] in Repr && forall n :: n in levels[p].nodes ==> n in Repr
    {
      hide Level.Valid;
      assert LevelAt(p, ix);
    }

    /** Put an order at the back of the level at its price. */
    method Attach(o: OrderNode, ghost ix: map<nat, OrderNode>)
      requires ValidWith(ix) && o.order.id !in ix && forall id :: id in ix ==> ix[id] != o
      requires Resting(o.order, o.order.side) && o.order.price !in Prices(o.order.side.Opposite())
      modifies this, Repr, o
      ensures o.order == old(o.order) && index == old(index)
      ensures ValidWith(ix[o.order.id := o])
      ensures fresh(Repr - old(Repr) - {o}) && old(Repr) <= Repr
      ensures View() == old(View()).With(o.order.side, Enqueue(old(View()).Get(o.order.side), o.order))
    {
      hide Level.Valid;
      hide Enqueue;
      hide Flat;
      hide AddKey;
      hide OrderBook.Stored;
      hide OrderBook.Heap;
      hide KeysWith;
      hide StrictlySorted;
      hide Shape;
      hide GetOrCreate;
      var side, p := o.order.side, o.order.price;
      ghost var q := Attached(Prices(side), queues, o.order);
      Attachment(ix, o.order);
      var lvl := GetOrCreateLevel(p, side, ix);
      InRepr(ix, p);
      AppendTo(lvl, o, ix);
      assert queues == q;
    }

    /** The effect of putting an order on its level, on prices, queues and view. */
    lemma Attachment(ix: map<nat, OrderNode>, o: Order)
      requires ValidWith(ix) && Resting(o, o.side) && o.price !in Prices(o.side.Opposite())
      ensures var keys, q := KeysWith(Prices(o.side), o.side, o.price), Attached(Prices(o.side), queues, o);
              && (o.side.Buy? ==> Shape(keys, askPrices, q))
              && (o.side.Sell? ==> Shape(bidPrices, keys, q))
              && StrictlySorted(Prices(o.side), o.side) && (o.price in Prices(o.side) ==> o.price in queues)
              && Flat(keys, q) == Enqueue(View().Get(o.side), o)
              && Flat(Prices(o.side.Opposite()), q) == View().Get(o.side.Opposite())
    {
      hide OrderBook.Heap;
      hide OrderBook.Stored;
      hide Flat;
      hide Enqueue;
      hide KeysWith;
      ShapeAttach(bidPrices, askPrices, queues, o);
      FlatEnqueue(Prices(o.side), queues, o.side, o);
      FlatFrame(Prices(o.side.Opposite()), queues, Attached(Prices(o.side), queues, o));
    }

    /** Take an indexed order off its level. */
    method Detach(o: OrderNode, ghost ix: map<nat, OrderNode>)
      requires ValidWith(ix) && o.order.id in ix && ix[o.order.id] == o
      modifies this, Repr
      ensures o.order == old(o.order) && index == old(index) && Repr == old(Repr) - {o}
      ensures ValidWith(ix - {o.order.id})
      ensures Prices(o.order.side.Opposite()) == old(Prices(o.order.side.Opposite()))
      ensures var s := old(View()).Get(o.order.side);
              Has(s, o.order.id) && View() == old(View()).With(o.order.side, RemoveAt(s, PosOf(s, o.order.id)))
    {
      hide Level.Valid;
      hide Flat;
      hide DropKey;
      hide StrictlySorted;
      hide RemoveAt;
      hide OrderBook.Heap;
      hide OrderBook.Stored;
      hide PricedRight;
      var side := o.order.side;
      ghost var p, k := Located(ix, o.order.id);
      ghost var s, q := RemoveAt(queues[p], k), queues;
      Removal(ix, p, k, side);
      var lvl := if side.Buy? then bids[o.order.price] else asks[o.order.price];
      RemoveFrom(lvl, o, ix, k);
      DropIfEmpty(lvl, side, ix - {o.order.id});
      Forget(o, ix - {o.order.id});
      assert queues == QueuesPut(q, p, s);
    }

    /** The effect of taking element k off the level at p, on prices, queues and view. */
    lemma Removal(ix: map<nat, OrderNode>, p: int, k: nat, side: Side)
      requires ValidWith(ix) && p in Prices(side) && p in queues && k < |queues[p]|
      ensures var s, t := RemoveAt(queues[p], k), View().Get(side);
              && (side.Buy? ==> Shape(KeysPut(bidPrices, Buy, p, s), askPrices, QueuesPut(queues, p, s)))
              && (side.Sell? ==> Shape(bidPrices, KeysPut(askPrices, Sell, p, s), QueuesPut(queues, p, s)))
              && Has(t, queues[p][k].id)
              && Flat(KeysPut(Prices(side), side, p, s), QueuesPut(queues, p, s)) == RemoveAt(t, PosOf(t, queues[p][k].id))
              && Flat(Prices(side.Opposite()), QueuesPut(queues, p, s)) == View().Get(side.Opposite())
    {
      hide OrderBook.Heap;
      hide OrderBook.Stored;
      hide Flat;
      hide DropKey;
      ghost var s := RemoveAt(queues[p], k);
      ViewValid(ix);
      forall j | 0 <= j < |s| ensures s[j].price == p && Resting(s[j], side) {
        assert QueueAt(queues, p) == queues[p];
        assert s[j] == queues[p][if j < k then j else j + 1];
      }
      ShapePut(bidPrices, askPrices, queues, side, p, s);
      FlatRemove(Prices(side), queues, side, p, k);
      FlatFrame(Prices(side.Opposite()), queues, QueuesPut(queues, p, s));
    }

    /** Change an indexed order in place. */
    method AmendOrder(o: OrderNode, changed: Order, ghost ix: map<nat, OrderNode>)
      requires ValidWith(ix) && o.order.id in ix && ix[o.order.id] == o
      requires changed.id == o.order.id && changed.price == o.order.price && Resting(changed, o.order.side)
      modifies this, Repr
      ensures o.order == changed && index == old(index) && Repr == old(Repr)
      ensures ValidWith(ix)
      ensures var s := old(View()).Get(changed.side);
              Has(s, changed.id) && View() == old(View()).With(changed.side, s[PosOf(s, changed.id) := changed])
    {
      hide Level.Valid;
      hide Flat;
      hide StrictlySorted;
      hide OrderBook.Heap;
      hide OrderBook.Stored;
      hide PricedRight;
      ghost var p, k := Located(ix, o.order.id);
      Amendment(ix, p, k, o.order.side, changed);
      var lvl := if o.order.side.Buy? then bids[o.order.price] else asks[o.order.price];
      AmendIn(lvl, o, changed, ix, k);
    }

    lemma Amendment(ix: map<nat, OrderNode>, p: int, k: nat, side: Side, o: Order)
      requires ValidWith(ix) && p in Prices(side) && p in queues && k < |queues[p]|
      requires o.price == p && Resting(o, side)
      ensures var q, t := queues[p := queues[p][k := o]], View().Get(side);
              && Shape(bidPrices, askPrices, q)
              && Has(t, queues[p][k].id)
              && Flat(Prices(side), q) == t[PosOf(t, queues[p][k].id) := o]
              && Flat(Prices(side.Opposite()), q) == View().Get(side.Opposite())
    {
      hide OrderBook.Heap;
      hide OrderBook.Stored;
      hide Flat;
      hide DropKey;
      ghost var s := queues[p][k := o];
      ViewValid(ix);
      forall j | 0 <= j < |s| ensures s[j].price == p && Resting(s[j], side) {
        assert QueueAt(queues, p) == queues[p];
      }
      ShapePut(bidPrices, askPrices, queues, side, p, s);
      FlatUpdate(Prices(side), queues, side, p, k, o);
      FlatFrame(Prices(side.Opposite()), queues, queues[p := s]);
    }

    // ---- Operations ---------------------------------------------------------------

    method Insert(o: OrderNode) returns (ok: bool)
      requires Valid() && o !in Repr && Unshared(View(), o.order.side, o.order.price)
      modifies this, Repr, o
      ensures Valid() && old(Repr) <= Repr && fresh(Repr - old(Repr) - {o})
      ensures o.order == old(o.order)
      ensures ok == Insertable(old(View()), o.order)
      ensures View() == BookSpec.Insert(old(View()), o.order)
    {
      hide OrderBook.Heap;
      hide OrderBook.Stored;
      hide Flat;
      hide Enqueue;
      hide Shape;
      if o.order.id == INVALID_ID || !o.order.kind.Limit? || !ValidPrice(o.order.price) || !ValidQuantity(o.order.remaining) {
        return false;
      }
      IndexAgrees(index, o.order.id);
      if o.order.id in index {
        return false;
      }
      NotIndexed(index, o);
      PriceFree(index, o.order.side, o.order.price);
      Attach(o, index);
      index := index[o.order.id := o];
      return true;
    }

    method Cancel(id: nat) returns (ok: bool)
      requires Valid()
      modifies this, Repr
      ensures Valid() && Repr <= old(Repr)
      ensures ok == Cancellable(old(View()), id)
      ensures View() == BookSpec.Cancel(old(View()), id)
    {
      hide OrderBook.Heap;
      hide OrderBook.Stored;
      hide Flat;
      hide Shape;
      hide RemoveAt;
      IndexAgrees(index, id);
      if id !in index {
        return false;
      }
      var o := index[id];
      if !Open(o.order) {
        return false;
      }
      Detach(o, index);
      o.order := o.order.(status := OrderStatus.Cancelled);
      index := index - {id};
      return true;
    }

    /**
     Fill an order. As in the source, it is the front of the order's level that is reduced; a
     consumed front leaves the book together with the index entry of the id, so it must be the
     id's own order.
     */
    method Fill(id: nat, qty: int) returns (alive: bool)
      requires Valid() && Fillable(View(), id, qty)
      modifies this, Repr
      ensures Valid() && Repr <= old(Repr)
      ensures !Live(old(View()), id) ==> View() == old(View()) && !alive
      ensures Live(old(View()), id) ==>
                var b := old(View());
                && View() == FrontFilled(b, id, qty)
                && alive == (qty < b.Get(HolderOf(b, id))[FilledAt(b, id)].remaining)
    {
      hide OrderBook.Heap;
      hide OrderBook.Stored;
      hide Flat;
      hide Shape;
      hide RemoveAt;
      IndexAgrees(index, id);
      if id !in index {
        return false;
      }
      RestsIn(index, id);
      FrontNode(id);
      var lvl := levels[index[id].order.price];
      var front := lvl.head;
      if qty <= 0 {
        return true;
      }
      var left := front.order.remaining - Min(qty, front.order.remaining);
      if left == 0 {
        Detach(front, index);
        front.order := front.order.(remaining := left, status := OrderStatus.Filled);
        index := index - {id};
        return false;
      }
      AmendOrder(front, Shrunk(front.order, left), index);
      return true;
    }

    /** The head of the level of an indexed order is the front of that level in the view. */
    lemma FrontNode(id: nat)
      requires Valid() && id in index && index[id].order.price in levels
      ensures Live(View(), id)
      ensures var s, k := View().Get(HolderOf(View(), id)), FilledAt(View(), id);
              var front := levels[index[id].order.price].head;
              && front != null && front.order == s[k] && Resting(s[k], HolderOf(View(), id))
              && s[k].id in index && index[s[k].id] == front && PosOf(s, s[k].id) == k
    {
      ViewValid(index);
      IndexAgrees(index, id);
      var p, j := Located(index, id);
      var side := index[id].order.side;
      hide OrderBook.Stored;
      hide Flat;
      assert LevelAt(p, index);
      FlatFront(Prices(side), queues, side, p);
      PosOfUnique(View().Get(side), FrontAt(View().Get(side), p));
    }

    /** This node is the oldest order of the level at its price. */
    ghost predicate HeadOfLevel(n: OrderNode)
      reads `levels, n, levels.Values
    {
      n.order.price in levels && levels[n.order.price].head == n
    }

    lemma RestsIn(ix: map<nat, OrderNode>, id: nat)
      requires ValidWith(ix) && id in ix
      ensures Resting(ix[id].order, ix[id].order.side) && ix[id].order.price in levels
    {
      var p, k := Located(ix, id);
      assert QueueAt(queues, p)[k] == ix[id].order;
    }

    method Reduce(id: nat, qty: int) returns (ok: bool)
      requires Valid()
      modifies this, Repr
      ensures Valid() && Repr == old(Repr)
      ensures ok == Reducible(old(View()), id, qty)
      ensures View() == BookSpec.Reduce(old(View()), id, qty)
    {
      hide OrderBook.Heap;
      hide OrderBook.Stored;
      hide Flat;
      hide Shape;
      IndexAgrees(index, id);
      if id !in index {
        return false;
      }
      RestsIn(index, id);
      var o := index[id];
      if !Open(o.order) || qty <= 0 || qty >= o.order.remaining {
        return false;
      }
      AmendOrder(o, Shrunk(o.order, qty), index);
      return true;
    }

    /** A price change must not land on a price of the other side: the level store keeps one level per price. */
    method Modify(id: nat, qty: int, price: int) returns (r: ModifyResult)
      requires Valid()
      requires Permitted(View(), id, qty, price)
      modifies this, Repr
      ensures Valid() && fresh(Repr - old(Repr))
      ensures r == ModifyKind(old(View()), id, qty, price)
      ensures View() == BookSpec.Modify(old(View()), id, qty, price)
    {
      hide OrderBook.Heap;
      hide OrderBook.Stored;
      hide Flat;
      hide Shape;
      IndexAgrees(index, id);
      if id !in index {
        return NotFound;
      }
      RestsIn(index, id);
      var o := index[id];
      if !Open(o.order) {
        return NotFound;
      }
      if o.order.kind.Market? || !ValidQuantity(qty) || !ValidPrice(price) {
        return Refused;
      }
      if price == o.order.price && qty == o.order.remaining {
        return Modified;
      }
      if price == o.order.price && qty < o.order.remaining {
        var diff := o.order.remaining - qty;
        AmendOrder(o, Shrunk(o.order, qty).(quantity := o.order.quantity - diff), index);
        return Modified;
      }
      Replace(o, qty, price);
      return Replaced;
    }

    /** Move an order to the back of the level at its new price. */
    method Replace(o: OrderNode, qty: int, price: int)
      requires Valid() && o.order.id in index && index[o.order.id] == o
      requires Cancellable(View(), o.order.id) && ValidQuantity(qty) && ValidPrice(price)
      requires Unshared(View(), o.order.side, price)
      modifies this, Repr
      ensures Valid() && fresh(Repr - old(Repr))
      ensures View() == BookSpec.Insert(BookSpec.Cancel(old(View()), old(o.order.id)), Requoted(old(o.order), qty, price))
    {
      hide OrderBook.Heap;
      hide OrderBook.Stored;
      hide Flat;
      hide Shape;
      hide RemoveAt;
      hide Enqueue;
      ghost var id := o.order.id;
      IndexAgrees(index, id);
      RestsIn(index, id);
      ViewValid(index);
      CancelValid(View(), id);
      PriceFree(index, o.order.side, price);
      Detach(o, index);
      assert View() == BookSpec.Cancel(old(View()), id);
      o.order := Requoted(o.order, qty, price);
      NotIndexed(index - {id}, o);
      Attach(o, index - {id});
      assert index[id := o] == index;
      assert (index - {id})[id := o] == index;
    }

    /** The ladders and the store of a valid book are the shelves of its view. */
    lemma ShelvesStand()
      requires Valid()
      ensures StandsFor(Shelf(), View())
    {
      hide OrderBook.Heap;
      hide Flat;
      hide CountAt;
      forall p: int ensures p in bids <==> CountAt(View().bids, p) > 0 {
        OnLadderScan(Buy, p);
      }
      forall p: int ensures p in asks <==> CountAt(View().asks, p) > 0 {
        OnLadderScan(Sell, p);
      }
      forall p | p in bids ensures p !in asks {
        assert p in bidPrices;
      }
    }

    lemma OnLadderScan(side: Side, p: int)
      requires Valid()
      ensures p in Prices(side) <==> CountAt(View().Get(side), p) > 0
    {
      hide OrderBook.Heap;
      hide Flat;
      hide CountAt;
      var s := View().Get(side);
      if p in Prices(side) {
        LevelScan(Prices(side), queues, side, p);
      } else {
        FlatPrices(Prices(side), queues, side);
        CountIff(s, p);
      }
    }

    /** The precondition of `Modify` is exact: without it the ladders and the store no longer agree. */
    lemma ModifyExact(id: nat, qty: int, price: int, spare: Level)
      requires Valid() && spare !in levels.Values
      ensures Agree(Reshelved(Shelf(), View(), id, qty, price, spare)) <==> Permitted(View(), id, qty, price)
    {
      ViewValid(index);
      ShelvesStand();
      hide OrderBook.ValidWith;
      hide OrderBook.View;
      ModifyShelvesIff(Shelf(), View(), id, qty, price, spare);
    }

    /** So is that of `Insert`, for an order that passes its tests. */
    lemma InsertExact(o: Order, spare: Level)
      requires Valid() && Insertable(View(), o) && spare !in levels.Values
      ensures Agree(GetOrCreate(Shelf(), o.side, o.price, spare)) <==> Unshared(View(), o.side, o.price)
    {
      ShelvesStand();
      hide OrderBook.ValidWith;
      hide OrderBook.View;
      InsertShelvesIff(Shelf(), View(), o, spare);
    }

    /** And that of `Fill`: without it the index no longer holds the ids on the levels. */
    lemma FillExact(id: nat, qty: int)
      requires Valid() && Live(View(), id)
      ensures Indexes(FilledIndex(index.Keys, View(), id, qty), FrontFilled(View(), id, qty)) <==> Fillable(View(), id, qty)
    {
      ViewValid(index);
      forall x: nat ensures x in index <==> Live(View(), x) {
        IndexAgrees(index, x);
      }
      hide OrderBook.ValidWith;
      hide OrderBook.View;
      FillIndexIff(index.Keys, View(), id, qty);
    }

    // ---- Queries --------------------------------------------------------------------

    lemma FirstLevel(side: Side)
      requires Valid()
      ensures Prices(side) == [] <==> View().Get(side) == []
      ensures Prices(side) != [] ==>
                var p := Prices(side)[0];
                && p in levels && p in queues && queues[p] != [] && View().Get(side)[0] == queues[p][0]
                && queues[p][0].price == p && (if side.Buy? then p in bids && bids[p] == levels[p] else p in asks && asks[p] == levels[p])
    {
      hide OrderBook.Heap;
      FlatFirst(Prices(side), queues);
      if Prices(side) != [] {
        assert QueueAt(queues, Prices(side)[0])[0].price == Prices(side)[0];
      }
    }

    method BestPrice(side: Side) returns (p: int)
      requires Valid()
      ensures View().Get(side) == [] ==> p == INVALID_PRICE == -0x8000_0000_0000_0000
      ensures View().Get(side) != [] ==> View().Get(side)[0].price == p
      ensures forall k :: 0 <= k < |View().Get(side)| ==> !Better(side, View().Get(side)[k].price, p)
    {
      hide OrderBook.Heap;
      hide OrderBook.Stored;
      hide Flat;
      FirstLevel(side);
      ViewValid(index);
      if Prices(side) == [] {
        return INVALID_PRICE;
      }
      return Prices(side)[0];
    }

    /** The front of the queue at the best price. */
    method BestOrder(side: Side) returns (o: OrderNode?)
      requires Valid()
      ensures o == null <==> View().Get(side) == []
      ensures o != null ==>
                && o in Repr && o.order == View().Get(side)[0]
                && o.order.id in index && index[o.order.id] == o && HeadOfLevel(o)
    {
      hide OrderBook.Stored;
      hide Flat;
      hide Shape;
      FirstLevel(side);
      if Prices(side) == [] {
        return null;
      }
      var p := Prices(side)[0];
      var lvl := if side.Buy? then bids[p] else asks[p];
      assert LevelAt(p, index);
      return lvl.head;
    }

    method Top(side: Side) returns (t: TopOfBook)
      requires Valid()
      ensures t == TopOf(View().Get(side))
    {
      hide OrderBook.Stored;
      hide Flat;
      FirstLevel(side);
      if Prices(side) == [] {
        return NO_QUOTE;
      }
      var p := Prices(side)[0];
      var lvl := if side.Buy? then bids[p] else asks[p];
      LevelTotals(side, p);
      return TopOfBook(true, p, lvl.totalQuantity, lvl.orderCount);
    }

    lemma LevelTotals(side: Side, p: int)
      requires Valid() && p in Prices(side) && p in levels
      ensures levels[p].totalQuantity == TotalAt(View().Get(side), p)
      ensures levels[p].orderCount == CountAt(View().Get(side), p) > 0
    {
      hide Level.Linked;
      assert LevelAt(p, index);
      LevelScan(Prices(side), queues, side, p);
    }

    lemma LevelOn(side: Side, p: int)
      requires Stored() && p in Prices(side)
      ensures p in levels
      ensures if side.Buy? then p in bids && bids[p] == levels[p] else p in asks && asks[p] == levels[p]
    {
    }

    lemma DepthCovers(side: Side, n: nat, d: seq<DepthLevel>)
      requires Valid() && |d| == Min(n, |Prices(side)|)
      requires forall k :: 0 <= k < |d| ==> d[k].price == Prices(side)[k]
      ensures forall k :: 0 <= k < |View().Get(side)| ==> Covered(View().Get(side)[k].price, side, n, d)
      ensures forall i, j :: 0 <= i < j < |d| ==> Better(side, d[i].price, d[j].price)
    {
      hide OrderBook.Heap;
      hide OrderBook.Stored;
      hide Flat;
      hide Covered;
      FlatPrices(Prices(side), queues, side);
      ListedCovers(View().Get(side), Prices(side), side, n, d);
    }

    /** The best n levels of a side, as a scan of all its orders would aggregate them. */
    method Depth(side: Side, n: nat) returns (d: seq<DepthLevel>)
      requires Valid()
      ensures Aggregates(View().Get(side), side, n, d)
    {
      hide OrderBook.Heap;
      hide OrderBook.Stored;
      hide Shape;
      hide Flat;
      hide TotalAt;
      hide CountAt;
      d := [];
      var prices := Prices(side);
      ghost var s := View().Get(side);
      var i := 0;
      while i < |prices| && i < n
        invariant 0 <= i <= |prices| && i <= n && |d| == i
        invariant forall k :: 0 <= k < i ==>
                    d[k].price == prices[k] && d[k].total == TotalAt(s, prices[k]) && d[k].count == CountAt(s, prices[k]) > 0
      {
        var p := prices[i];
        LevelOn(side, p);
        LevelTotals(side, p);
        var lvl := if side.Buy? then bids[p] else asks[p];
        d := d + [DepthLevel(p, lvl.totalQuantity, lvl.orderCount)];
        i := i + 1;
      }
      DepthCovers(side, n, d);
    }
  }

  datatype TopOfBook = TopOfBook(valid: bool, price: int, quantity: int, count: nat)

  const NO_QUOTE: TopOfBook := TopOfBook(false, 0, 0, 0)

  /** Best price of a side with everything resting at it, by a scan of the whole side. */
  function QuoteOf(s: seq<Order>): TopOfBook
    requires s != []
  {
    TopOfBook(true, s[0].price, TotalAt(s, s[0].price), CountAt(s, s[0].price))
  }

  function TopOf(s: seq<Order>): TopOfBook {
    if s == [] then NO_QUOTE else QuoteOf(s)
  }

  datatype DepthLevel = DepthLevel(price: int, total: int, count: nat)

  ghost predicate Covered(p: int, side: Side, n: nat, d: seq<DepthLevel>) {
    || (exists j :: 0 <= j < |d| && d[j].price == p)
    || (|d| == n && forall j :: 0 <= j < |d| ==> Better(side, d[j].price, p))
  }

  lemma ListedCovers(s: seq<Order>, prices: seq<int>, side: Side, n: nat, d: seq<DepthLevel>)
    requires StrictlySorted(prices, side) && |d| == Min(n, |prices|)
    requires forall k :: 0 <= k < |d| ==> d[k].price == prices[k]
    requires forall k :: 0 <= k < |s| ==> s[k].price in prices
    ensures forall k :: 0 <= k < |s| ==> Covered(s[k].price, side, n, d)
    ensures forall i, j :: 0 <= i < j < |d| ==> Better(side, d[i].price, d[j].price)
  {
    forall k | 0 <= k < |s| ensures Covered(s[k].price, side, n, d) {
      var j :| 0 <= j < |prices| && prices[j] == s[k].price;
      if j < |d| {
        assert d[j].price == prices[j];
      }
    }
  }

  /** d lists the best n prices of s in order, each with the total and count of a scan. */
  ghost predicate Aggregates(s: seq<Order>, side: Side, n: nat, d: seq<DepthLevel>) {
    && |d| <= n
    && (forall i, j :: 0 <= i < j < |d| ==> Better(side, d[i].price, d[j].price))
    && (forall i :: 0 <= i < |d| ==> d[i].total == TotalAt(s, d[i].price) && d[i].count == CountAt(s, d[i].price) > 0)
    && (forall k :: 0 <= k < |s| ==> Covered(s[k].price, side, n, d))
  }
}
