/**
 The match loop as a recursion over the opposite side of the book, and the closed form
 that characterises it: every crossing order, taken in priority order, is filled by what
 is left of the taker, up to its own remaining quantity.
 */
module MatchSpec {
  import opened Types
  import opened BookSpec

  /** A market order accepts any price; a limit order accepts its price or a better one. */
  predicate Crosses(taker: Order, p: int) {
    taker.kind.Market? || (if taker.side.Buy? then p <= taker.price else p >= taker.price)
  }

  /** `qty` lots of the taker executed against `resting`, as that order was before the fill. */
  datatype Fill = Fill(resting: Order, qty: int)

  /** Fills in execution order, the opposite side afterwards, what is left of the taker. */
  datatype Swept = Swept(fills: seq<Fill>, rest: seq<Order>, left: int)

  predicate Trading(s: seq<Order>, taker: Order) {
    taker.remaining > 0 && s != [] && Crosses(taker, s[0].price)
  }

  function Bite(s: seq<Order>, taker: Order): int
    requires s != []
  {
    Min(taker.remaining, s[0].remaining)
  }

  function Hit(taker: Order, q: int): Order {
    taker.(remaining := taker.remaining - q)
  }

  function Sweep(s: seq<Order>, taker: Order): Swept
    decreases |s|
  {
    if !Trading(s, taker) then Swept([], s, taker.remaining) else
      var q := Bite(s, taker);
      var head := Fill(s[0], q);
      if q < s[0].remaining then Swept([head], FillAt(s, 0, q), taker.remaining - q) else
        var more := Sweep(s[1..], Hit(taker, q));
        more.(fills := [head] + more.fills)
  }

  /** The opposite side after each fill of a sweep. */
  function Trail(s: seq<Order>, taker: Order): (ss: seq<seq<Order>>)
    ensures |ss| == |Sweep(s, taker).fills|
    decreases |s|
  {
    if !Trading(s, taker) then [] else
      var q := Bite(s, taker);
      if q < s[0].remaining then [FillAt(s, 0, q)] else [s[1..]] + Trail(s[1..], Hit(taker, q))
  }

  /** One turn of the match loop: fill the head, then sweep on. */
  lemma SweepTurn(s: seq<Order>, taker: Order)
    requires Trading(s, taker) && s[0].remaining > 0
    ensures var q := Bite(s, taker);
            var t, on := FillAt(s, 0, q), Sweep(FillAt(s, 0, q), Hit(taker, q));
            && q > 0
            && Sweep(s, taker) == Swept([Fill(s[0], q)] + on.fills, on.rest, on.left)
            && Trail(s, taker) == [t] + Trail(t, Hit(taker, q))
  {
    var q := Bite(s, taker);
    if q < s[0].remaining {
      assert !Trading(FillAt(s, 0, q), Hit(taker, q));
    } else {
      assert FillAt(s, 0, q) == s[1..];
    }
  }

  function Lots(fills: seq<Fill>): int {
    if fills == [] then 0 else fills[0].qty + Lots(fills[1..])
  }

  // ---- The closed form -----------------------------------------------------------

  /** Length of the longest prefix at prices the taker accepts. */
  function Reach(s: seq<Order>, taker: Order): (n: nat)
    ensures n <= |s|
    ensures forall k :: 0 <= k < n ==> Crosses(taker, s[k].price)
    ensures n < |s| ==> !Crosses(taker, s[n].price)
  {
    if s == [] || !Crosses(taker, s[0].price) then 0 else 1 + Reach(s[1..], taker)
  }

  /** On a sorted side, the reach covers every order the taker accepts. */
  lemma ReachIsAll(s: seq<Order>, taker: Order)
    requires ValidSide(s, taker.side.Opposite())
    ensures forall k :: 0 <= k < |s| ==> (Crosses(taker, s[k].price) <==> k < Reach(s, taker))
    ensures forall k :: 0 <= k < |s| ==>
              (k < Reach(s, taker) <==>
                 taker.kind.Market? || (if taker.side.Buy? then s[k].price <= taker.price else s[k].price >= taker.price))
  {
    var n := Reach(s, taker);
    forall k | n <= k < |s| ensures !Crosses(taker, s[k].price) {
      assert k > n ==> !Better(taker.side.Opposite(), s[k].price, s[n].price);
    }
  }

  /** What the order at position k receives from a taker that serves positions in turn. */
  function Share(s: seq<Order>, want: int, k: nat): int
    requires k < |s|
  {
    Min(s[k].remaining, want - Total(s[..k]))
  }

  lemma TotalTakeStep(s: seq<Order>, k: nat)
    requires 0 < k <= |s|
    ensures Total(s[..k]) == s[0].remaining + Total(s[1..][..k - 1])
  {
    assert s[..k][1..] == s[1..][..k - 1];
  }

  lemma {:induction false} TotalTakeMonotone(s: seq<Order>, j: nat, k: nat)
    requires j <= k <= |s|
    requires forall i :: 0 <= i < |s| ==> s[i].remaining > 0
    ensures Total(s[..j]) + (k - j) <= Total(s[..k])
    decreases k
  {
    if j < k {
      TotalTakeMonotone(s, j, k - 1);
      assert s[..k] == s[..k - 1] + [s[k - 1]];
      TotalConcat(s[..k - 1], [s[k - 1]]);
      TotalOne(s[k - 1]);
    }
  }

  /** The fills go to the first crossing orders in turn, each receiving its share. */
  ghost predicate GreedyFills(s: seq<Order>, taker: Order, fills: seq<Fill>) {
    && |fills| <= Reach(s, taker)
    && (forall k :: 0 <= k < |fills| ==>
          fills[k] == Fill(s[k], Share(s, taker.remaining, k)) && fills[k].qty > 0)
    && (|fills| < Reach(s, taker) ==> taker.remaining <= Total(s[..|fills|]))
  }

  /** The taker gets what it wants or all it can reach; nothing else on the side changes. */
  ghost predicate GreedyTotals(s: seq<Order>, taker: Order, r: Swept)
    requires |r.fills| <= |s|
  {
    var want := taker.remaining;
    && Lots(r.fills) == (if want <= 0 then 0 else Min(want, Total(s[..Reach(s, taker)])))
    && r.left == want - Lots(r.fills)
    && r.rest == Leftover(s, want, |r.fills|)
  }

  ghost predicate Greedy(s: seq<Order>, taker: Order, r: Swept) {
    GreedyFills(s, taker, r.fills) && GreedyTotals(s, taker, r)
  }

  /** The side without its first m orders, the last of them put back if only partly filled. */
  function Leftover(s: seq<Order>, want: int, m: nat): seq<Order>
    requires m <= |s|
  {
    if m == 0 || Share(s, want, m - 1) >= s[m - 1].remaining then s[m..]
    else [Shrunk(s[m - 1], s[m - 1].remaining - Share(s, want, m - 1))] + s[m..]
  }

  lemma {:induction false} SweepIsGreedy(s: seq<Order>, taker: Order)
    requires forall i :: 0 <= i < |s| ==> s[i].remaining > 0
    ensures Greedy(s, taker, Sweep(s, taker))
    decreases |s|
  {
    if Trading(s, taker) {
      var q := Bite(s, taker);
      if q < s[0].remaining {
        GreedyLast(s, taker);
      } else {
        SweepIsGreedy(s[1..], Hit(taker, q));
        var more := Sweep(s[1..], Hit(taker, q));
        GreedyFillsStep(s, taker, more.fills);
        GreedyTotalsStep(s, taker, more);
      }
    }
  }

  lemma GreedyLast(s: seq<Order>, taker: Order)
    requires forall i :: 0 <= i < |s| ==> s[i].remaining > 0
    requires Trading(s, taker) && taker.remaining < s[0].remaining
    ensures Greedy(s, taker, Sweep(s, taker))
  {
    var n := Reach(s, taker);
    TotalTakeMonotone(s, 1, n);
    TotalTakeStep(s, 1);
    assert s[1..][..0] == [];
    assert Lots([Fill(s[0], taker.remaining)][1..]) == 0;
  }

  lemma ShareStep(s: seq<Order>, want: int, k: nat)
    requires 1 <= k < |s|
    ensures s[k] == s[1..][k - 1]
    ensures Share(s, want, k) == Share(s[1..], want - s[0].remaining, k - 1)
  {
    TotalTakeStep(s, k);
  }

  lemma GreedyFillsStep(s: seq<Order>, taker: Order, more: seq<Fill>)
    requires Trading(s, taker) && taker.remaining >= s[0].remaining > 0
    requires GreedyFills(s[1..], Hit(taker, s[0].remaining), more)
    ensures GreedyFills(s, taker, [Fill(s[0], s[0].remaining)] + more)
  {
    var q := s[0].remaining;
    var fills := [Fill(s[0], q)] + more;
    SameReach(s[1..], taker, Hit(taker, q));
    TotalTakeStep(s, |fills|);
    forall k | 0 <= k < |fills|
      ensures fills[k] == Fill(s[k], Share(s, taker.remaining, k)) && fills[k].qty > 0
    {
      if k == 0 {
        assert s[..0] == [];
      } else {
        ShareStep(s, taker.remaining, k);
      }
    }
  }

  lemma LeftoverStep(s: seq<Order>, want: int, m: nat)
    requires 1 <= m <= |s| && want >= s[0].remaining
    ensures Leftover(s, want, m) == Leftover(s[1..], want - s[0].remaining, m - 1)
  {
    assert s[m..] == s[1..][m - 1..];
    if m == 1 {
      assert s[..0] == [];
    } else {
      ShareStep(s, want, m - 1);
    }
  }

  lemma GreedyTotalsStep(s: seq<Order>, taker: Order, more: Swept)
    requires forall i :: 0 <= i < |s| ==> s[i].remaining > 0
    requires Trading(s, taker) && taker.remaining >= s[0].remaining && |more.fills| < |s|
    requires GreedyTotals(s[1..], Hit(taker, s[0].remaining), more)
    ensures GreedyTotals(s, taker, more.(fills := [Fill(s[0], s[0].remaining)] + more.fills))
  {
    var n := Reach(s, taker);
    SameReach(s[1..], taker, Hit(taker, s[0].remaining));
    assert ([Fill(s[0], s[0].remaining)] + more.fills)[1..] == more.fills;
    TotalTakeStep(s, n);
    TotalTakeMonotone(s[1..], 0, n - 1);
    assert s[1..][..0] == [];
    LeftoverStep(s, taker.remaining, |more.fills| + 1);
  }

  lemma {:induction false} SameReach(s: seq<Order>, t: Order, u: Order)
    requires t.kind == u.kind && t.side == u.side && t.price == u.price
    ensures Reach(s, t) == Reach(s, u)
  {
    if s != [] && Crosses(t, s[0].price) {
      SameReach(s[1..], t, u);
    }
  }
}
