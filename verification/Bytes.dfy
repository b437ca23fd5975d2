/** Bytes, options and the big-endian integers used by every wire format of the program. */
module Bytes {

  newtype Byte = x: int | 0 <= x < 256

  /** One more than the largest usize of the 64-bit targets. */
  const USIZE := 0x1_0000_0000_0000_0000

  datatype Option<+T> = None | Some(value: T)

  /** 256 to the power k. */
  function Pow256(k: nat): (p: nat)
    ensures p > 0
  {
    if k == 0 then 1 else 256 * Pow256(k - 1)
  }

  /** The integer whose big-endian bytes are `s`. */
  function FromBe(s: seq<Byte>): (n: nat)
    ensures n < Pow256(|s|)
  {
    if s == [] then 0 else FromBe(s[..|s| - 1]) * 256 + s[|s| - 1] as int
  }

  /** The k low-order bytes of n, most significant first. */
  function ToBe(n: nat, k: nat): (s: seq<Byte>)
    ensures |s| == k
  {
    if k == 0 then [] else ToBe(n / 256, k - 1) + [(n % 256) as Byte]
  }

  lemma {:induction false} FromToBe(n: nat, k: nat)
    requires n < Pow256(k)
    ensures FromBe(ToBe(n, k)) == n
  {
    if k != 0 {
      var s := ToBe(n, k);
      FromToBe(n / 256, k - 1);
      assert s[..k - 1] == ToBe(n / 256, k - 1);
    }
  }

  lemma {:induction false} ToFromBe(s: seq<Byte>)
    ensures ToBe(FromBe(s), |s|) == s
  {
    if s != [] {
      var front, last := s[..|s| - 1], s[|s| - 1];
      ToFromBe(front);
      assert FromBe(s) / 256 == FromBe(front) && FromBe(s) % 256 == last as int;
      assert s == front + [last];
    }
  }

  /** The most significant byte comes first: the byte at position i counts 256 to the power of the bytes after it. */
  lemma {:induction false} MostSignificantFirst(s: seq<Byte>)
    requires s != []
    ensures FromBe(s) == s[0] as nat * Pow256(|s| - 1) + FromBe(s[1..])
  {
    if |s| > 1 {
      var front := s[..|s| - 1];
      MostSignificantFirst(front);
      assert s[1..][..|s| - 2] == front[1..];
      assert Pow256(|s| - 1) == 256 * Pow256(|s| - 2);
      Distribute(s[0] as nat, Pow256(|s| - 2));
    }
  }

  lemma Distribute(a: nat, p: nat)
    ensures a * p * 256 == a * (256 * p)
  {
  }

  lemma Pow256Values()
    ensures Pow256(1) == 0x100 && Pow256(2) == 0x1_0000 && Pow256(3) == 0x100_0000
    ensures Pow256(4) == 0x1_0000_0000 && Pow256(8) == 0x1_0000_0000_0000_0000
  {
    assert Pow256(3) == 256 * Pow256(2);
    assert Pow256(4) == 256 * Pow256(3);
    assert Pow256(5) == 256 * Pow256(4);
    assert Pow256(6) == 256 * Pow256(5);
    assert Pow256(7) == 256 * Pow256(6);
  }

  lemma Resliced(b: seq<Byte>, lo: nat, hi: nat, i: nat, j: nat)
    requires lo <= hi <= |b| && i <= j <= hi - lo
    ensures b[lo + i..lo + j] == b[lo..hi][i..j]
  {
    var p, q := b[lo + i..lo + j], b[lo..hi][i..j];
    assert |p| == |q|;
    forall k | 0 <= k < |p| ensures p[k] == q[k] {
      assert p[k] == b[lo + i + k] && q[k] == b[lo..hi][i + k];
    }
  }

  lemma SplitSlice(b: seq<Byte>, lo: nat, hi: nat, x: seq<Byte>, y: seq<Byte>)
    requires lo <= hi <= |b| && b[lo..hi] == x + y
    ensures lo + |x| <= hi && b[lo..lo + |x|] == x && b[lo + |x|..hi] == y
  {
    var s := b[lo..hi];
    assert s[..|x|] == x && s[|x|..] == y;
  }

  lemma Assoc<T>(a: seq<T>, b: seq<T>, c: seq<T>)
    ensures a + (b + c) == a + b + c
  {
  }

  lemma ConsConcat<T>(a: seq<T>, b: seq<T>)
    requires a != []
    ensures (a + b)[0] == a[0] && (a + b)[1..] == a[1..] + b
  {
  }

  // ----- exclusive or -----

  function Pow2(k: nat): (p: nat)
    ensures p > 0
  {
    if k == 0 then 1 else 2 * Pow2(k - 1)
  }

  /** Exclusive or of the k low bits, bit by bit. */
  function XorBits(a: nat, b: nat, k: nat): (r: nat)
    ensures r < Pow2(k)
  {
    if k == 0 then 0 else (a % 2 + b % 2) % 2 + 2 * XorBits(a / 2, b / 2, k - 1)
  }

  lemma {:induction false} XorBitsTwice(a: nat, b: nat, k: nat)
    requires a < Pow2(k)
    ensures XorBits(XorBits(a, b, k), b, k) == a
  {
    if k != 0 {
      var r := XorBits(a, b, k);
      Halves((a % 2 + b % 2) % 2, XorBits(a / 2, b / 2, k - 1));
      XorBitsTwice(a / 2, b / 2, k - 1);
      assert (r % 2 + b % 2) % 2 == a % 2;
    }
  }

  /** Each bit of the result is set exactly when the bits of the operands differ. */
  lemma {:induction false} XorBit(a: nat, b: nat, k: nat, i: nat)
    requires i < k
    ensures XorBits(a, b, k) / Pow2(i) % 2 == 1 <==> a / Pow2(i) % 2 != b / Pow2(i) % 2
  {
    Halves((a % 2 + b % 2) % 2, XorBits(a / 2, b / 2, k - 1));
    if i > 0 {
      XorBit(a / 2, b / 2, k - 1, i - 1);
      Shifted(XorBits(a, b, k), Pow2(i - 1));
      Shifted(a, Pow2(i - 1));
      Shifted(b, Pow2(i - 1));
    }
  }

  lemma Shifted(n: nat, p: nat)
    requires p > 0
    ensures n / (2 * p) == n / 2 / p
  {
    var q, r := n / 2 / p, n / 2 % p;
    assert n / 2 == q * p + r;
    assert n == q * (2 * p) + (2 * r + n % 2);
    QuotientIs(n, 2 * p, q, 2 * r + n % 2);
  }

  lemma QuotientIs(n: nat, d: nat, q: nat, r: nat)
    requires r < d && n == q * d + r
    ensures n / d == q
  {
    var k := n / d;
    assert n == k * d + n % d;
    if k < q { NextMultiple(k, q, d); }
    if q < k { NextMultiple(q, k, d); }
  }

  lemma NextMultiple(a: nat, b: nat, d: nat)
    requires a < b
    ensures a * d + d <= b * d
  {
    assert (b - a - 1) * d >= 0;
    assert b * d == a * d + d + (b - a - 1) * d;
  }

  lemma Halves(bit: nat, half: nat)
    requires bit < 2
    ensures (bit + 2 * half) % 2 == bit && (bit + 2 * half) / 2 == half
  {
  }

  function Xor(a: Byte, b: Byte): Byte {
    assert Pow2(8) == 256 by { Pow2Of8(); }
    XorBits(a as nat, b as nat, 8) as Byte
  }

  lemma Pow2Of8()
    ensures Pow2(8) == 256
  {
    assert Pow2(4) == 2 * Pow2(3);
  }

  /** Is bit i of the byte set? */
  predicate Bit(a: Byte, i: nat) {
    a as nat / Pow2(i) % 2 == 1
  }

  lemma XorBitwise(a: Byte, b: Byte, i: nat)
    requires i < 8
    ensures Bit(Xor(a, b), i) <==> Bit(a, i) != Bit(b, i)
  {
    XorBit(a as nat, b as nat, 8, i);
  }

  lemma XorTwice(a: Byte, b: Byte)
    ensures Xor(Xor(a, b), b) == a
  {
    Pow2Of8();
    XorBitsTwice(a as nat, b as nat, 8);
  }
}
