/** The bounded buffer of recent events, proved against the full history. */
module EventRings {
  import opened Types

  const CAPACITY: nat := 4096

  /** The last n events, newest first, as far as the ring reaches back. */
  function Newest<T>(history: seq<T>, n: nat): (r: seq<T>)
    ensures |r| == Min(Min(n, |history|), CAPACITY)
  {
    seq(Min(Min(n, |history|), CAPACITY), i requires 0 <= i < |history| => history[|history| - 1 - i])
  }

  class EventRing<T(0)> {
    const ring: array<T>
    var head: nat
    var count: nat
    ghost var history: seq<T>

    ghost predicate Valid()
      reads this, ring
    {
      && ring.Length == CAPACITY
      && head == |history| % CAPACITY
      && count == Min(|history|, CAPACITY)
      && forall k :: |history| - count <= k < |history| ==> ring[k % CAPACITY] == history[k]
    }

    constructor ()
      ensures Valid() && history == [] && fresh(ring)
    {
      ring := new T[CAPACITY];
      head, count, history := 0, 0, [];
    }

    method Record(e: T)
      requires Valid()
      modifies this, ring
      ensures Valid() && history == old(history) + [e]
    {
      ring[head] := e;
      head := (head + 1) % CAPACITY;
      if count < CAPACITY {
        count := count + 1;
      }
      history := history + [e];
    }

    method RecentEvents(n: nat) returns (recent: seq<T>)
      requires Valid()
      ensures recent == Newest(history, n)
      ensures |recent| == Min(Min(n, |history|), 4096)
      ensures forall k :: 0 <= k < |recent| ==> recent[k] == history[|history| - 1 - k]
    {
      var m := Min(n, count);
      recent := [];
      var i := 0;
      while i < m
        invariant 0 <= i <= m && |recent| == i
        invariant forall k :: 0 <= k < i ==> recent[k] == history[|history| - 1 - k]
      {
        var idx := (head + CAPACITY - 1 - i) % CAPACITY;
        assert idx == (|history| - 1 - i) % CAPACITY;
        recent := recent + [ring[idx]];
        i := i + 1;
      }
    }
  }
}
