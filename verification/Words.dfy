/** 32-bit words as their bits, most significant first, and what shifting and masking them means for the number. */
module Words {
  import opened Base
  import opened Slots

  type Word = w: seq<bool> | |w| == 32 witness seq(32, i => false)

  function Zeros(n: nat): (r: seq<bool>)
    ensures |r| == n && forall k :: 0 <= k < n ==> !r[k]
  {
    seq(n, k => false)
  }

  function Ones(n: nat): (r: seq<bool>)
    ensures |r| == n && forall k :: 0 <= k < n ==> r[k]
  {
    seq(n, k => true)
  }

  function Number(bits: seq<bool>): nat {
    if bits == [] then 0 else 2 * Number(bits[..|bits| - 1]) + if bits[|bits| - 1] then 1 else 0
  }

  /** The last `width` bits of a number. */
  function Bits(n: nat, width: nat): (r: seq<bool>)
    ensures |r| == width
  {
    if width == 0 then [] else Bits(n / 2, width - 1) + [n % 2 == 1]
  }

  function And(a: Word, b: Word): Word { seq(32, k requires 0 <= k < 32 => a[k] && b[k]) }

  function Or(a: Word, b: Word): Word { seq(32, k requires 0 <= k < 32 => a[k] || b[k]) }

  /** Shifting left drops the top bits. */
  function Shl(a: Word, n: nat): Word
    requires n <= 32
  {
    a[n..] + Zeros(n)
  }

  /** The value of `>>> 0`, and the signed value that every other operator compares. */
  function Unsigned(a: Word): nat { Number(a) }

  function Signed(a: Word): int { if a[0] then Number(a) - 0x1_0000_0000 else Number(a) }

  // ---- numbers and bits -----------------------------------------------------------------------

  lemma {:induction false} NumberAppend(a: seq<bool>, b: seq<bool>)
    ensures Number(a + b) == Number(a) * Pow2(|b|) + Number(b)
  {
    if b == [] {
      assert a + b == a;
    } else {
      var n := |b| - 1;
      assert (a + b)[..|a + b| - 1] == a + b[..n];
      NumberAppend(a, b[..n]);
      Doubled(Number(a), Pow2(n));
    }
  }

  lemma Doubled(x: nat, p: nat)
    ensures x * (2 * p) == 2 * (x * p)
  { }

  lemma {:induction false} NumberBound(a: seq<bool>)
    ensures Number(a) < Pow2(|a|)
  {
    if a != [] {
      NumberBound(a[..|a| - 1]);
    }
  }

  lemma {:induction false} NumberOfBits(n: nat, width: nat)
    requires n < Pow2(width)
    ensures Number(Bits(n, width)) == n
  {
    if width > 0 {
      NumberOfBits(n / 2, width - 1);
      assert Bits(n, width)[..width - 1] == Bits(n / 2, width - 1);
    }
  }

  lemma {:induction false} NumberInjective(a: seq<bool>, b: seq<bool>)
    requires |a| == |b| && Number(a) == Number(b)
    ensures a == b
  {
    if a != [] {
      var n := |a| - 1;
      NumberInjective(a[..n], b[..n]);
      assert a == a[..n] + [a[n]] && b == b[..n] + [b[n]];
    }
  }

  lemma {:induction false} NumberOfZeros(n: nat)
    ensures Number(Zeros(n)) == 0
  {
    if n > 0 {
      NumberOfZeros(n - 1);
      assert Zeros(n)[..n - 1] == Zeros(n - 1);
    }
  }

  lemma Pow32()
    ensures Pow2(32) == 0x1_0000_0000 && Pow2(8) == 256 && Pow2(16) == 65536
  {
    PowAdd(8, 8);
    PowAdd(16, 16);
    assert Pow2(8) == 256;
  }

  lemma {:induction false} PowAdd(a: nat, b: nat)
    ensures Pow2(a + b) == Pow2(a) * Pow2(b)
  {
    if a > 0 {
      PowAdd(a - 1, b);
    }
  }

  lemma SignedInjective(a: Word, b: Word)
    requires Signed(a) == Signed(b)
    ensures a == b
  {
    NumberBound(a);
    NumberBound(b);
    Pow32();
    NumberInjective(a, b);
  }

  /** The first `p` bits are the number divided by the block size. */
  lemma TopBits(a: Word, p: nat)
    requires p <= 32
    ensures Number(a[..p]) == Number(a) / BlockSize(p)
  {
    assert a == a[..p] + a[p..];
    NumberAppend(a[..p], a[p..]);
    NumberBound(a[p..]);
    Divides(Number(a), Number(a[..p]), Pow2(32 - p), Number(a[p..]));
  }

  lemma Divides(x: nat, q: nat, d: nat, r: nat)
    requires x == q * d + r && r < d
    ensures x / d == q
  {
    var p, rest := x / d, x % d;
    assert x == p * d + rest && 0 <= rest < d;
    if p < q {
      assert (q - p) * d == rest - r by { Distribute(q, p, d); }
      AtLeast(q - p, d);
    } else if q < p {
      assert (p - q) * d == r - rest by { Distribute(p, q, d); }
      AtLeast(p - q, d);
    }
  }

  lemma Distribute(a: nat, b: nat, d: nat)
    ensures (a - b) * d == a * d - b * d
  { }

  lemma AtLeast(q: nat, d: nat)
    requires q > 0
    ensures q * d >= d
  { }
}
