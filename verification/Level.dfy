/** A price level: an intrusive doubly linked queue of orders with cached count and total. */
module Levels {
  import opened Types
  import opened BookSpec

  /** An order with its intrusive links. */
  class OrderNode {
    var order: Order
    var prev: OrderNode?
    var next: OrderNode?

    constructor (o: Order)
      ensures order == o && prev == null && next == null
    {
      order, prev, next := o, null, null;
    }
  }

  class Level {
    const price: int
    var head: OrderNode?   // oldest order
    var tail: OrderNode?   // newest order
    var orderCount: nat
    var totalQuantity: int
    ghost var nodes: seq<OrderNode>
    ghost var queue: seq<Order>

    /** Neighbours are linked both ways and the ends are closed. */
    ghost predicate Linked()
      reads `head, `tail, `nodes, nodes
    {
      && (nodes == [] ==> head == null && tail == null)
      && (nodes != [] ==> head == nodes[0] && tail == nodes[|nodes| - 1])
      && (forall i {:trigger nodes[i].prev} :: 0 <= i < |nodes| ==>
            nodes[i].prev == if i == 0 then null else nodes[i - 1])
      && (forall i {:trigger nodes[i].next} :: 0 <= i < |nodes| ==>
            nodes[i].next == if i + 1 == |nodes| then null else nodes[i + 1])
    }

    ghost predicate Valid()
      reads this, nodes
    {
      && Linked()
      && (forall i, j :: 0 <= i < j < |nodes| ==> nodes[i] != nodes[j])
      && |queue| == |nodes| == orderCount
      && (forall i :: 0 <= i < |nodes| ==> nodes[i].order == queue[i])
      && totalQuantity == Total(queue)
    }

    /** A valid list of exactly these orders, all at this price. */
    ghost predicate Carries(q: seq<Order>)
      reads this, nodes
    {
      Valid() && queue == q && forall i :: 0 <= i < |q| ==> q[i].price == price
    }

    constructor (p: int)
      ensures price == p && Valid() && queue == [] && nodes == [] && Carries([])
    {
      price := p;
      head, tail := null, null;
      orderCount, totalQuantity := 0, 0;
      nodes, queue := [], [];
    }

    /** Put a node behind the tail. */
    method Link(o: OrderNode)
      requires Linked() && o !in nodes
      requires forall i, j :: 0 <= i < j < |nodes| ==> nodes[i] != nodes[j]
      modifies this`head, this`tail, this`nodes, nodes, o
      ensures nodes == old(nodes) + [o] && Linked()
      ensures forall i, j :: 0 <= i < j < |nodes| ==> nodes[i] != nodes[j]
      ensures forall n :: n in nodes ==> n.order == old(n.order)
    {
      o.prev := tail;
      o.next := null;
      if tail != null {
        tail.next := o;
      } else {
        head := o;
      }
      tail := o;
      nodes := nodes + [o];
    }

    method Append(o: OrderNode)
      requires Valid() && o !in nodes
      modifies this, nodes, o
      ensures Valid()
      ensures nodes == old(nodes) + [o] && queue == old(queue) + [o.order]
      ensures o.order == old(o.order)
      ensures forall n :: n in old(nodes) ==> n.order == old(n.order)
    {
      hide Total;
      hide Level.Linked;
      Link(o);
      orderCount := orderCount + 1;
      totalQuantity := totalQuantity + o.order.remaining;
      TotalConcat(queue, [o.order]);
      TotalOne(o.order);
      queue := queue + [o.order];
    }

    method Unlink(o: OrderNode, ghost k: nat)
      requires Linked() && k < |nodes| && nodes[k] == o
      requires forall i, j :: 0 <= i < j < |nodes| ==> nodes[i] != nodes[j]
      modifies this`head, this`tail, this`nodes, nodes
      ensures nodes == RemoveAt(old(nodes), k) && Linked()
      ensures forall i, j :: 0 <= i < j < |nodes| ==> nodes[i] != nodes[j]
      ensures o.prev == null && o.next == null
      ensures forall n :: n in old(nodes) ==> n.order == old(n.order)
    {
      if o.prev != null {
        o.prev.next := o.next;
      } else {
        head := o.next;
      }
      if o.next != null {
        o.next.prev := o.prev;
      } else {
        tail := o.prev;
      }
      o.prev := null;
      o.next := null;
      nodes := RemoveAt(nodes, k);
    }

    method Remove(o: OrderNode, ghost k: nat)
      requires Valid() && k < |nodes| && nodes[k] == o
      modifies this, nodes
      ensures Valid()
      ensures nodes == RemoveAt(old(nodes), k) && queue == RemoveAt(old(queue), k)
      ensures o.prev == null && o.next == null
      ensures forall n :: n in old(nodes) ==> n.order == old(n.order)
    {
      hide Total;
      hide Level.Linked;
      RemoveAtKeeps(queue, k);
      RemoveAtKeeps(nodes, k);
      Unlink(o, k);
      orderCount := orderCount - 1;
      totalQuantity := totalQuantity - o.order.remaining;
      TotalRemoveAt(queue, k);
      queue := RemoveAt(queue, k);
    }

    /** Lower the remaining quantity of a queued order in place, with the level total. */
    method Amend(o: OrderNode, changed: Order, ghost k: nat)
      requires Valid() && k < |nodes| && nodes[k] == o
      modifies this`totalQuantity, this`queue, o`order
      ensures Valid()
      ensures o.order == changed && queue == old(queue)[k := changed]
    {
      totalQuantity := totalQuantity - (o.order.remaining - changed.remaining);
      TotalUpdate(queue, k, changed);
      o.order := changed;
      queue := queue[k := changed];
    }
  }
}
