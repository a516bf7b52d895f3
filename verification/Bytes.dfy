/** Bytes and little-endian integers. */
module Bytes {
  import opened Bits

  type Byte = b: int | 0 <= b < 256

  const TWO_32: int := 0x1_0000_0000
  const TWO_63: int := 0x8000_0000_0000_0000
  const TWO_64: int := 0x1_0000_0000_0000_0000

  function Pow256(n: nat): nat {
    if n == 0 then 1 else 256 * Pow256(n - 1)
  }

  /** The n low-order bytes of v, least significant first. */
  function LittleEndian(v: nat, n: nat): (bs: seq<Byte>)
    ensures |bs| == n
  {
    if n == 0 then [] else [v % 256] + LittleEndian(v / 256, n - 1)
  }

  function FromLittleEndian(bs: seq<Byte>): nat {
    if bs == [] then 0 else bs[0] + 256 * FromLittleEndian(bs[1..])
  }

  lemma {:induction false} FromLittleEndianBound(bs: seq<Byte>, n: nat)
    requires |bs| <= n
    ensures FromLittleEndian(bs) < Pow256(n)
    decreases n
  {
    if bs != [] {
      FromLittleEndianBound(bs[1..], n - 1);
    } else {
      PowPositive(n);
    }
  }

  lemma {:induction false} PowPositive(n: nat)
    ensures Pow256(n) > 0
  {
    if n > 0 {
      PowPositive(n - 1);
    }
  }

  lemma {:induction false} LittleEndianRoundTrip(v: nat, n: nat)
    requires v < Pow256(n)
    ensures FromLittleEndian(LittleEndian(v, n)) == v
    decreases n
  {
    if n > 0 {
      assert v / 256 < Pow256(n - 1);
      LittleEndianRoundTrip(v / 256, n - 1);
      assert LittleEndian(v, n)[1..] == LittleEndian(v / 256, n - 1);
    }
  }

  /** The n low-order bytes of v, most significant first. */
  function BigEndian(v: nat, n: nat): (bs: seq<Byte>)
    ensures |bs| == n
  {
    if n == 0 then [] else BigEndian(v / 256, n - 1) + [v % 256]
  }

  function FromBigEndian(bs: seq<Byte>): nat {
    if bs == [] then 0 else 256 * FromBigEndian(bs[..|bs| - 1]) + bs[|bs| - 1]
  }

  lemma {:induction false} LittleEndianBack(bs: seq<Byte>)
    ensures LittleEndian(FromLittleEndian(bs), |bs|) == bs
    decreases |bs|
  {
    if bs != [] {
      LittleEndianBack(bs[1..]);
      assert FromLittleEndian(bs) % 256 == bs[0] && FromLittleEndian(bs) / 256 == FromLittleEndian(bs[1..]);
    }
  }

  lemma {:induction false} FromBigEndianBound(bs: seq<Byte>)
    ensures FromBigEndian(bs) < Pow256(|bs|)
    decreases |bs|
  {
    if bs != [] {
      FromBigEndianBound(bs[..|bs| - 1]);
    }
  }

  lemma {:induction false} BigEndianRoundTrip(v: nat, n: nat)
    requires v < Pow256(n)
    ensures FromBigEndian(BigEndian(v, n)) == v
    decreases n
  {
    if n > 0 {
      assert v / 256 < Pow256(n - 1);
      BigEndianRoundTrip(v / 256, n - 1);
      assert BigEndian(v, n)[..n - 1] == BigEndian(v / 256, n - 1);
    }
  }

  // ---- The bytes of a number ------------------------------------------------------------------

  lemma DivideTwice(v: nat, p: nat)
    requires p > 0
    ensures (v / 256) / p == v / (256 * p)
  {
    var q := (v / 256) / p;
    var a, b := v % 256, (v / 256) % p;
    assert v == 256 * (v / 256) + a && v / 256 == p * q + b;
    assert v == (256 * p) * q + (256 * b + a);
    assert 0 <= 256 * b + a < 256 * p;
    ModUnique(v, 256 * p, q, 256 * b + a);
  }

  /** Byte k of a little-endian number, counted from the first. */
  lemma {:induction false} LittleEndianAt(v: nat, n: nat, k: nat)
    requires k < n
    ensures Pow256(k) > 0 && LittleEndian(v, n)[k] == v / Pow256(k) % 256
    decreases n
  {
    PowPositive(k);
    if k > 0 {
      LittleEndianAt(v / 256, n - 1, k - 1);
      DivideTwice(v, Pow256(k - 1));
    }
  }

  /** Byte k of a big-endian number, counted from the last. */
  lemma {:induction false} BigEndianAt(v: nat, n: nat, k: nat)
    requires k < n
    ensures Pow256(k) > 0 && BigEndian(v, n)[n - 1 - k] == v / Pow256(k) % 256
    decreases n
  {
    PowPositive(k);
    if k > 0 {
      BigEndianAt(v / 256, n - 1, k - 1);
      DivideTwice(v, Pow256(k - 1));
    }
  }

  lemma Pow256Values()
    ensures Pow256(1) == 256 && Pow256(4) == TWO_32 && Pow256(8) == TWO_64
  {
    assert Pow256(2) == 256 * Pow256(1);
    assert Pow256(3) == 256 * Pow256(2);
    assert Pow256(4) == 256 * Pow256(3);
    assert Pow256(5) == 256 * Pow256(4);
    assert Pow256(6) == 256 * Pow256(5);
    assert Pow256(7) == 256 * Pow256(6);
  }

  /** Unsigned 64-bit arithmetic: the low 64 bits of a result, and the pattern of a signed integer. */
  function Wrap(v: int): (w: nat)
    ensures w < TWO_64 && (0 <= v < TWO_64 ==> w == v)
  {
    v % TWO_64
  }

  /** The signed integer with this 64-bit pattern. */
  function FromPattern(p: nat): int {
    var q := p % TWO_64;
    if q < TWO_63 then q else q - TWO_64
  }

  lemma PatternKept(p: nat)
    requires p < TWO_64
    ensures Wrap(FromPattern(p)) == p && -TWO_63 <= FromPattern(p) < TWO_63
  {
    if p >= TWO_63 {
      assert FromPattern(p) == p - TWO_64;
    }
  }

  lemma PatternRoundTrip(v: int)
    requires -TWO_63 <= v < TWO_63
    ensures FromPattern(Wrap(v)) == v
  {
    if v < 0 {
      assert Wrap(v) == v + TWO_64;
    }
  }
}
