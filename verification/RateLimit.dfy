/**
 The token bucket that limits the orders of each trader. Tokens are real numbers, the clock
 is an input in nanoseconds.
 */
module RateLimit {

  /** `last` is zero until the trader's first order. */
  datatype Bucket = Bucket(tokens: real, last: int)

  /** Bucket size, and nanoseconds for one token; zero for rates above one order per nanosecond. */
  datatype Limits = Limits(burst: nat, refill: nat)

  datatype Attempt = Attempt(trader: nat, now: int)

  type Buckets = map<nat, Bucket>

  const UNUSED: Bucket := Bucket(0.0, 0)

  function Lower(x: real, y: real): real {
    if x <= y then x else y
  }

  /** Tokens after a wait; without a refill interval any wait fills the bucket. */
  function Topped(l: Limits, tokens: real, elapsed: int): real {
    if l.refill == 0 then l.burst as real else Lower(tokens + elapsed as real / l.refill as real, l.burst as real)
  }

  function Refilled(l: Limits, b: Bucket, now: int): Bucket {
    if b.last == 0 then Bucket(l.burst as real, now)
    else if now > b.last then Bucket(Topped(l, b.tokens, now - b.last), now)
    else b
  }

  predicate Passes(l: Limits, b: Bucket, now: int) {
    Refilled(l, b, now).tokens >= 1.0
  }

  function Charged(l: Limits, b: Bucket, now: int): Bucket {
    var r := Refilled(l, b, now);
    if Passes(l, b, now) then r.(tokens := r.tokens - 1.0) else r
  }

  function BucketOf(s: Buckets, trader: nat): Bucket {
    if trader in s then s[trader] else UNUSED
  }

  function Next(l: Limits, s: Buckets, a: Attempt): Buckets {
    s[a.trader := Charged(l, BucketOf(s, a.trader), a.now)]
  }

  function Run(l: Limits, s: Buckets, attempts: seq<Attempt>): Buckets
    decreases |attempts|
  {
    if attempts == [] then s else Run(l, Next(l, s, attempts[0]), attempts[1..])
  }

  /** How many attempts of a trader pass between two moments, both included. */
  function Passed(l: Limits, s: Buckets, attempts: seq<Attempt>, trader: nat, from: int, to: int): nat
    decreases |attempts|
  {
    if attempts == [] then 0 else
      var a := attempts[0];
      (if a.trader == trader && from <= a.now <= to && Passes(l, BucketOf(s, trader), a.now) then 1 else 0)
      + Passed(l, Next(l, s, a), attempts[1..], trader, from, to)
  }

  // ---- Well-formed states ------------------------------------------------------------------

  ghost predicate Level(l: Limits, b: Bucket) {
    0.0 <= b.tokens <= l.burst as real && 0 <= b.last
  }

  ghost predicate AllLevel(l: Limits, s: Buckets) {
    forall t :: t in s ==> Level(l, s[t])
  }

  /** A positive clock that never runs back. */
  ghost predicate Clocked(attempts: seq<Attempt>) {
    && (forall k :: 0 <= k < |attempts| ==> attempts[k].now > 0)
    && (forall j, k :: 0 <= j < k < |attempts| ==> attempts[j].now <= attempts[k].now)
  }

  ghost predicate Reached(s: Buckets, attempts: seq<Attempt>) {
    forall t, k :: t in s && 0 <= k < |attempts| ==> s[t].last <= attempts[k].now
  }

  function Span(l: Limits, from: int, to: int): real
    requires l.refill > 0
  {
    (to - from) as real / l.refill as real
  }

  lemma SpanAdds(l: Limits, x: int, y: int, z: int)
    requires l.refill > 0
    ensures Span(l, x, y) + Span(l, y, z) == Span(l, x, z)
    ensures x <= y ==> Span(l, x, y) >= 0.0
  {
    var r := l.refill as real;
    assert (y - x) as real + (z - y) as real == (z - x) as real;
    assert ((y - x) as real + (z - y) as real) / r == (y - x) as real / r + (z - y) as real / r;
  }

  lemma ChargedLevel(l: Limits, b: Bucket, now: int)
    requires Level(l, b) && b.last <= now && now > 0
    ensures Level(l, Charged(l, b, now)) && Charged(l, b, now).last == now
    ensures Refilled(l, b, now).tokens <= l.burst as real
    ensures l.refill > 0 && b.last > 0 ==> Refilled(l, b, now).tokens <= b.tokens + Span(l, b.last, now)
  {
    if l.refill > 0 {
      SpanAdds(l, b.last, now, now);
    }
  }

  lemma NextLevel(l: Limits, s: Buckets, attempts: seq<Attempt>)
    requires attempts != [] && AllLevel(l, s) && Clocked(attempts) && Reached(s, attempts)
    ensures var n := Next(l, s, attempts[0]);
            AllLevel(l, n) && Reached(n, attempts[1..]) && Clocked(attempts[1..])
  {
    var a := attempts[0];
    ChargedLevel(l, BucketOf(s, a.trader), a.now);
    hide Charged;
    assert forall k :: 0 <= k < |attempts| - 1 ==> attempts[1..][k] == attempts[k + 1];
  }

  /** Over every run, every trader's tokens stay between zero and the burst size. */
  lemma {:induction false} TokensBounded(l: Limits, s: Buckets, attempts: seq<Attempt>)
    requires AllLevel(l, s) && Clocked(attempts) && Reached(s, attempts)
    ensures AllLevel(l, Run(l, s, attempts))
    decreases |attempts|
  {
    if attempts != [] {
      NextLevel(l, s, attempts);
      TokensBounded(l, Next(l, s, attempts[0]), attempts[1..]);
    }
  }

  // ---- The bound ---------------------------------------------------------------------------

  /** After the window nothing more passes in it. */
  lemma {:induction false} NothingLater(l: Limits, s: Buckets, attempts: seq<Attempt>, trader: nat, from: int, to: int)
    requires Clocked(attempts) && (attempts != [] ==> attempts[0].now > to)
    ensures Passed(l, s, attempts, trader, from, to) == 0
    decreases |attempts|
  {
    if attempts != [] {
      assert forall k :: 0 <= k < |attempts| - 1 ==> attempts[1..][k] == attempts[k + 1];
      NothingLater(l, Next(l, s, attempts[0]), attempts[1..], trader, from, to);
    }
  }

  /** A used bucket passes at most its tokens plus what drips in until the end of the window. */
  lemma {:induction false} FromTokens(l: Limits, s: Buckets, attempts: seq<Attempt>, trader: nat, from: int, to: int)
    requires l.refill > 0 && AllLevel(l, s) && Clocked(attempts) && Reached(s, attempts)
    requires trader in s && 0 < s[trader].last <= to
    ensures Passed(l, s, attempts, trader, from, to) as real <= s[trader].tokens + Span(l, s[trader].last, to)
    decreases |attempts|
  {
    var b := s[trader];
    SpanAdds(l, b.last, to, to);
    if attempts != [] {
      var a := attempts[0];
      if a.now > to {
        NothingLater(l, s, attempts, trader, from, to);
      } else {
        NextLevel(l, s, attempts);
        FromTokens(l, Next(l, s, a), attempts[1..], trader, from, to);
        ChargedLevel(l, b, a.now);
        SpanAdds(l, b.last, a.now, to);
        hide Span;
        hide Refilled;
      }
    }
  }

  /**
   In every run and every time window, at most the burst size plus one order for each refill
   interval of the window passes, for every trader.
   */
  lemma {:induction false} RateBound(l: Limits, s: Buckets, attempts: seq<Attempt>, trader: nat, from: int, to: int)
    requires l.refill > 0 && AllLevel(l, s) && Clocked(attempts) && Reached(s, attempts) && from <= to
    ensures Passed(l, s, attempts, trader, from, to) as real <= l.burst as real + Span(l, from, to)
    decreases |attempts|
  {
    SpanAdds(l, from, to, to);
    if attempts != [] {
      var a := attempts[0];
      NextLevel(l, s, attempts);
      if a.trader != trader || a.now < from {
        RateBound(l, Next(l, s, a), attempts[1..], trader, from, to);
      } else if a.now > to {
        NothingLater(l, s, attempts, trader, from, to);
      } else {
        ChargedLevel(l, BucketOf(s, trader), a.now);
        FromTokens(l, Next(l, s, a), attempts[1..], trader, from, to);
        SpanAdds(l, from, a.now, to);
        hide Span;
        hide Refilled;
      }
    }
  }

  // ---- The bound is met ----------------------------------------------------------------------

  /** A trader who waits one refill interval is served. */
  lemma IdleIsServed(l: Limits, b: Bucket, now: int)
    requires l.burst >= 1 && Level(l, b) && now > 0
    requires b.last == 0 || (now > b.last && now - b.last >= l.refill)
    ensures Passes(l, b, now)
  {
    if b.last != 0 && l.refill > 0 {
      AtLeastTimes((now - b.last) as real, l.refill as real, 1.0);
    }
  }

  /** n attempts of one trader at one moment. */
  function Volley(trader: nat, now: int, n: nat): seq<Attempt> {
    seq(n, _ => Attempt(trader, now))
  }

  /** From a bucket at this moment, as many orders pass as it holds whole tokens; each takes one. */
  lemma {:induction false} VolleyPasses(l: Limits, s: Buckets, trader: nat, now: int, n: nat)
    requires now > 0 && trader in s && s[trader].last == now && s[trader].tokens >= 0.0
    ensures var k, had := Passed(l, s, Volley(trader, now, n), trader, now, now), s[trader].tokens;
            && k <= n && k as real <= had && (k < n ==> had < k as real + 1.0)
            && BucketOf(Run(l, s, Volley(trader, now, n)), trader) == Bucket(had - k as real, now)
    decreases n
  {
    if n > 0 {
      var v := Volley(trader, now, n);
      assert v[1..] == Volley(trader, now, n - 1);
      VolleyPasses(l, Next(l, s, v[0]), trader, now, n - 1);
    }
  }

  /**
   Of n orders sent at one moment, as many pass as the bucket then holds whole tokens: the burst
   size for a new trader, otherwise what was left and one token for each refill interval since,
   up to the burst size.
   */
  lemma VolleyIsExact(l: Limits, s: Buckets, trader: nat, now: int, n: nat)
    requires n > 0 && now > 0 && Level(l, BucketOf(s, trader)) && BucketOf(s, trader).last <= now
    ensures var b := BucketOf(s, trader);
            var earned := if l.refill == 0 then l.burst as real else (now - b.last) as real / l.refill as real;
            var had := if b.last == 0 then l.burst as real
                       else if now == b.last then b.tokens
                       else if b.tokens + earned <= l.burst as real then b.tokens + earned else l.burst as real;
            var k := Passed(l, s, Volley(trader, now, n), trader, now, now);
            && k <= n && k as real <= had && (k < n ==> had < k as real + 1.0)
            && BucketOf(Run(l, s, Volley(trader, now, n)), trader) == Bucket(had - k as real, now)
  {
    var b := BucketOf(s, trader);
    var had := Refilled(l, b, now).tokens;
    hide Refilled;
    hide Passed;
    hide Run;
    hide Volley;
    TokensHad(l, b, now);
    FirstOfVolley(l, s, trader, now, n);
    VolleyPasses(l, Next(l, s, Attempt(trader, now)), trader, now, n - 1);
  }

  /** What a bucket holds at a moment, and that it is not negative. */
  lemma TokensHad(l: Limits, b: Bucket, now: int)
    requires now > 0 && Level(l, b) && b.last <= now
    ensures var earned := if l.refill == 0 then l.burst as real else (now - b.last) as real / l.refill as real;
            var had := if b.last == 0 then l.burst as real
                       else if now == b.last then b.tokens
                       else if b.tokens + earned <= l.burst as real then b.tokens + earned else l.burst as real;
            Refilled(l, b, now).tokens == had >= 0.0
  {
    if l.refill > 0 {
      SpanAdds(l, b.last, now, now);
    }
  }

  lemma FirstOfVolley(l: Limits, s: Buckets, trader: nat, now: int, n: nat)
    requires n > 0 && now > 0 && Level(l, BucketOf(s, trader)) && BucketOf(s, trader).last <= now
    ensures var v, on, had := Volley(trader, now, n), Next(l, s, Attempt(trader, now)), Refilled(l, BucketOf(s, trader), now).tokens;
            && Passed(l, s, v, trader, now, now) ==
               (if had >= 1.0 then 1 else 0) + Passed(l, on, Volley(trader, now, n - 1), trader, now, now)
            && Run(l, s, v) == Run(l, on, Volley(trader, now, n - 1))
            && on[trader] == Bucket(if had >= 1.0 then had - 1.0 else had, now)
  {
    var v := Volley(trader, now, n);
    assert v[0] == Attempt(trader, now) && v[1..] == Volley(trader, now, n - 1);
  }

  /** Of n orders that a new trader sends at one moment, exactly the burst size passes, or all of them. */
  lemma BurstIsExact(l: Limits, trader: nat, now: int, n: nat)
    requires now > 0
    ensures Passed(l, map[], Volley(trader, now, n), trader, now, now) == if n <= l.burst then n else l.burst
  {
    if n > 0 {
      VolleyIsExact(l, map[], trader, now, n);
    }
  }

  /** A bucket idle for m refill intervals passes m orders at once, or the burst size, or all there are. */
  lemma IdleEarns(l: Limits, s: Buckets, trader: nat, now: int, n: nat, m: nat)
    requires now > 0 && Level(l, BucketOf(s, trader)) && 0 < BucketOf(s, trader).last < now
    requires now - BucketOf(s, trader).last >= m * l.refill
    ensures var k := Passed(l, s, Volley(trader, now, n), trader, now, now); k >= n || k >= m || k >= l.burst
  {
    if n > 0 {
      VolleyIsExact(l, s, trader, now, n);
      if l.refill > 0 {
        Intervals(now - BucketOf(s, trader).last, l.refill, m);
      }
      hide Passed;
      hide Run;
    }
  }

  lemma AtLeastTimes(x: real, r: real, k: real)
    requires r > 0.0 && x >= k * r
    ensures x / r >= k
  {
    var q := x / r;
    assert q * r == x;
    assert (q - k) * r >= 0.0;
  }

  lemma {:induction false} ProductAsReal(m: nat, refill: nat)
    ensures (m * refill) as real == m as real * refill as real
  {
    if m > 0 {
      ProductAsReal(m - 1, refill);
      assert m * refill == (m - 1) * refill + refill;
      assert (m - 1) as real == m as real - 1.0;
    }
  }

  lemma Intervals(elapsed: int, refill: nat, m: nat)
    requires refill > 0 && elapsed >= m * refill
    ensures elapsed as real / refill as real >= m as real
  {
    ProductAsReal(m, refill);
    AtLeastTimes(elapsed as real, refill as real, m as real);
  }

  // ---- The check ---------------------------------------------------------------------------

  class RateLimitCheck {
    const limits: Limits
    var states: Buckets

    constructor (limits: Limits)
      ensures this.limits == limits && states == map[]
    {
      this.limits := limits;
      states := map[];
    }

    method Evaluate(trader: nat, now: int) returns (pass: bool)
      modifies this
      ensures pass == Passes(limits, BucketOf(old(states), trader), now)
      ensures states == Next(limits, old(states), Attempt(trader, now))
    {
      var b := if trader in states then states[trader] else UNUSED;
      if b.last == 0 {
        b := Bucket(limits.burst as real, now);
      } else {
        var elapsed := now - b.last;
        if elapsed > 0 {
          b := Bucket(Topped(limits, b.tokens, elapsed), now);
        }
      }
      if b.tokens < 1.0 {
        states := states[trader := b];
        return false;
      }
      states := states[trader := b.(tokens := b.tokens - 1.0)];
      return true;
    }
  }
}
