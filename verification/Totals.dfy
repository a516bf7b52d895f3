/** Level totals fit a signed 64-bit integer up to a stated number of orders, and no further. */
module Totals {
  import opened Types
  import opened BookSpec
  import opened EngineSpec
  import opened Safety
  import opened Bytes

  /** The largest number of orders whose total cannot overflow. */
  const SAFE_COUNT: nat := 9_223_372

  lemma {:induction false} LevelBounds(s: seq<Order>, side: Side, p: int)
    requires forall k :: 0 <= k < |s| ==> Resting(s[k], side)
    ensures CountAt(s, p) <= TotalAt(s, p) <= CountAt(s, p) * MAX_QUANTITY
  {
    if s != [] {
      LevelBounds(s[1..], side, p);
    }
  }

  /** After every run, each level's total is between its count and its count times the maximum quantity. */
  lemma RunLevelTotals(e: Engine, cs: seq<Command>, i: nat, side: Side, p: int)
    requires AllValid(e) && AllowedRun(e, cs)
    ensures var s := BookOf(Run(e, cs), i).Get(side);
            && CountAt(s, p) <= TotalAt(s, p) <= CountAt(s, p) * MAX_QUANTITY
            && (CountAt(s, p) <= SAFE_COUNT ==> TotalAt(s, p) < TWO_63)
  {
    RunValid(e, cs);
    LevelBounds(BookOf(Run(e, cs), i).Get(side), side, p);
  }

  // ---- The bound is sharp ---------------------------------------------------------------

  /** A queue of n orders of one price, all of the maximum quantity. */
  function Heaviest(n: nat): (s: seq<Order>)
    ensures |s| == n
  {
    seq(n, k requires 0 <= k < n =>
      Order(k + 1, 1, 1, Buy, Limit, GTC, 0, MAX_QUANTITY, MAX_QUANTITY, k + 1, New))
  }

  lemma {:induction false} HeavyTotal(s: seq<Order>)
    requires forall k :: 0 <= k < |s| ==> s[k].remaining == MAX_QUANTITY
    ensures Total(s) == |s| * MAX_QUANTITY
  {
    if s != [] {
      HeavyTotal(s[1..]);
    }
  }

  ghost predicate OneLevel(s: seq<Order>, n: nat) {
    ValidSide(s, Buy) && |s| == n && forall k :: 0 <= k < |s| ==> s[k].price == s[0].price
  }

  /** The totals of all levels of n orders fit 64 bits exactly when n is at most the safe count. */
  lemma TotalFitsIff(n: nat)
    ensures (forall s :: OneLevel(s, n) ==> 0 <= Total(s) < TWO_63) <==> n <= SAFE_COUNT
  {
    forall s | OneLevel(s, n) ensures n <= Total(s) <= n * MAX_QUANTITY {
      TotalBounds(s);
    }
    HeavyTotal(Heaviest(n));
    assert OneLevel(Heaviest(n), n);
  }
}
