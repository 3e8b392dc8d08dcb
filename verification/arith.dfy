// Natural-number facts the formatting proofs rest on: powers, the split
// of a number into digits or octets, and bit counts.

module Arith {

  /** `b` to the power `e`. */
  function Pow(b: nat, e: nat): (p: nat)
    ensures b > 0 ==> p > 0
    decreases e
  {
    if e == 0 then 1 else b * Pow(b, e - 1)
  }

  /** Division by a positive number is unique: a quotient and remainder
      that rebuild `n` are the ones `/` and `%` give. */
  lemma DivModUnique(n: int, m: int, q: int, r: int)
    requires m > 0 && 0 <= r < m && n == m * q + r
    ensures n / m == q && n % m == r
  {
    var q' := n / m;
    var r' := n % m;
    assert m * q + r == m * q' + r';
    if q > q' {
      assert m * (q - q') == r' - r;
      assert m * (q - q') >= m by { MulAtLeast(m, q - q'); }
    } else if q < q' {
      assert m * (q' - q) == r - r';
      assert m * (q' - q) >= m by { MulAtLeast(m, q' - q); }
    }
  }

  lemma MulAtLeast(m: int, x: int)
    requires m > 0 && x >= 1
    ensures m * x >= m
  {
  }

  /** Peeling the lowest digit in base `d` off a remainder modulo `d * p`. */
  lemma ModOfProduct(n: nat, d: nat, p: nat)
    requires d > 0 && p > 0
    ensures (n / d % p) * d + n % d == n % (d * p)
    ensures n / d / p == n / (d * p)
  {
    var q := n / d;
    var r := n % d;
    var a := q / p;
    var b := q % p;
    assert n == d * q + r;
    assert q == p * a + b;
    assert d * q == d * (p * a) + d * b;
    assert d * (p * a) == (d * p) * a;
    assert n == (d * p) * a + (d * b + r);
    assert d * b <= d * (p - 1) by { MulMonotone(d, b, p - 1); }
    assert d * (p - 1) == d * p - d;
    DivModUnique(n, d * p, a, d * b + r);
  }

  /** A number below the divisor is its own remainder. */
  lemma ModBelow(n: nat, m: nat)
    requires n < m
    ensures n % m == n
  {
    DivModUnique(n, m, 0, n);
  }

  lemma MulMonotone(d: nat, x: nat, y: nat)
    requires x <= y
    ensures d * x <= d * y
  {
  }

  /** The number of set bits among the lowest `width` bits of `n`. */
  function PopCount(n: nat, width: nat): (c: nat)
    ensures c <= width
    decreases width
  {
    if width == 0 then 0 else n % 2 + PopCount(n / 2, width - 1)
  }

  /** Counting bits over a width split in two: the low `a` bits and the
      `b` bits above them. */
  lemma {:induction false} PopCountSplit(n: nat, a: nat, b: nat)
    ensures PopCount(n, a + b) == PopCount(n % Pow(2, a), a) + PopCount(n / Pow(2, a), b)
    decreases a
  {
    if a > 0 {
      var p := Pow(2, a - 1);
      assert Pow(2, a) == 2 * p;
      var m := n % Pow(2, a);
      PopCountSplit(n / 2, a - 1, b);
      assert m % 2 == n % 2 by {
        ModMod(n, 2, p);
      }
      assert m / 2 == n / 2 % p by {
        DivOfMod(n, 2, p);
      }
      assert n / 2 / p == n / Pow(2, a) by {
        ModOfProduct(n, 2, p);
      }
      assert PopCount(n, a + b) == n % 2 + PopCount(n / 2, a - 1 + b);
      assert PopCount(m, a) == m % 2 + PopCount(m / 2, a - 1);
    }
  }

  /** Over 32 bits, only the low 32 bits count. */
  lemma PopCountLow(n: nat, width: nat)
    ensures PopCount(n, width) == PopCount(n % Pow(2, width), width)
  {
    PopCountSplit(n, width, 0);
  }

  lemma ModMod(n: nat, d: nat, p: nat)
    requires d > 0 && p > 0
    ensures n % (d * p) % d == n % d
  {
    ModOfProduct(n, d, p);
    var k := n / d % p;
    assert n % (d * p) == k * d + n % d;
    DivModUnique(n % (d * p), d, k, n % d);
  }

  lemma DivOfMod(n: nat, d: nat, p: nat)
    requires d > 0 && p > 0
    ensures n % (d * p) / d == n / d % p
  {
    ModOfProduct(n, d, p);
    var k := n / d % p;
    assert n % (d * p) == k * d + n % d;
    DivModUnique(n % (d * p), d, k, n % d);
  }

  /** An unsigned 8-bit value. */
  type Octet = n: nat | n < 256

  /** The lowest `k` octets of `n`, most significant first. */
  function Octets(n: nat, k: nat): (os: seq<Octet>)
    ensures |os| == k
    decreases k
  {
    if k == 0 then [] else Octets(n / 256, k - 1) + [n % 256]
  }

  /** Octets read back most significant first. */
  function FromOctets(os: seq<nat>): nat
    decreases |os|
  {
    if os == [] then 0 else FromOctets(os[..|os| - 1]) * 256 + os[|os| - 1]
  }

  /** Splitting into `k` octets and reassembling keeps `n` modulo 256 to
      the `k`. */
  lemma {:induction false} OctetsRoundTrip(n: nat, k: nat)
    ensures FromOctets(Octets(n, k)) == n % Pow(256, k)
    decreases k
  {
    if k > 0 {
      OctetsRoundTrip(n / 256, k - 1);
      var os := Octets(n, k);
      assert os[..k - 1] == Octets(n / 256, k - 1);
      ModOfProduct(n, 256, Pow(256, k - 1));
    }
  }

  /** Reassembling octets gives a number below 256 to their count, and
      splitting it again gives the octets back. */
  lemma {:induction false} FromOctetsRoundTrip(os: seq<nat>)
    requires forall i :: 0 <= i < |os| ==> os[i] < 256
    ensures FromOctets(os) < Pow(256, |os|)
    ensures Octets(FromOctets(os), |os|) == os
    decreases |os|
  {
    if os != [] {
      var init := os[..|os| - 1];
      var last := os[|os| - 1];
      FromOctetsRoundTrip(init);
      var n := FromOctets(os);
      assert n == FromOctets(init) * 256 + last;
      DivModUnique(n, 256, FromOctets(init), last);
      assert FromOctets(init) * 256 + last < Pow(256, |init|) * 256 by {
        assert FromOctets(init) <= Pow(256, |init|) - 1;
        MulMonotone(256, FromOctets(init), Pow(256, |init|) - 1);
      }
      assert os == init + [last];
    }
  }

  /** Counting bits octet by octet: the bits of four octets read most
      significant first are the bits of the octets. */
  lemma PopCountOctets4(os: seq<nat>)
    requires |os| == 4 && forall i :: 0 <= i < 4 ==> os[i] < 256
    ensures PopCount(FromOctets(os), 32) ==
      PopCount(os[0], 8) + PopCount(os[1], 8) + PopCount(os[2], 8) + PopCount(os[3], 8)
  {
    var n := FromOctets(os);
    var n3 := FromOctets(os[..3]);
    var n2 := FromOctets(os[..2]);
    var n1 := FromOctets(os[..1]);
    assert os[..3][..2] == os[..2];
    assert os[..2][..1] == os[..1];
    assert os[..1][..0] == [];
    assert n == n3 * 256 + os[3];
    assert n3 == n2 * 256 + os[2];
    assert n2 == n1 * 256 + os[1];
    assert FromOctets(os[..1]) == FromOctets(os[..1][..0]) * 256 + os[..1][0];
    assert n1 == os[0];
    assert Pow(2, 8) == 256;
    DivModUnique(n, 256, n3, os[3]);
    DivModUnique(n3, 256, n2, os[2]);
    DivModUnique(n2, 256, n1, os[1]);
    PopCountSplit(n, 8, 24);
    PopCountSplit(n3, 8, 16);
    PopCountSplit(n2, 8, 8);
  }

  /** The 32-bit mask whose `p` highest bits are set. */
  function PrefixMask(p: nat): nat
    requires p <= 32
  {
    (Pow(2, p) - 1) * Pow(2, 32 - p)
  }

  /** A mask of `p` leading one bits over 32 bits has `p` bits set. */
  lemma PrefixMaskCount(p: nat)
    requires p <= 32
    ensures PopCount(PrefixMask(p), 32) == p
  {
    var low := 32 - p;
    var m := Pow(2, low);
    var ones := Pow(2, p) - 1;
    assert PrefixMask(p) == ones * m;
    assert low + p == 32;
    DivModUnique(ones * m, m, ones, 0);
    PopCountSplit(ones * m, low, p);
    PopCountZero(low);
    PopCountOnes(p);
  }

  lemma {:induction false} PowAdd(b: nat, x: nat, y: nat)
    ensures Pow(b, x + y) == Pow(b, x) * Pow(b, y)
    decreases x
  {
    if x > 0 {
      PowAdd(b, x - 1, y);
      var p := Pow(b, x - 1);
      var q := Pow(b, y);
      assert Pow(b, x + y) == b * Pow(b, x - 1 + y);
      assert Pow(b, x - 1 + y) == p * q;
      MulAssoc(b, p, q);
    }
  }

  lemma MulAssoc(a: int, b: int, c: int)
    ensures a * (b * c) == (a * b) * c
  {
  }

  /** The powers the 32- and 48-bit formats use. */
  lemma Powers()
    ensures Pow(2, 8) == 256 && Pow(2, 32) == 0x1_0000_0000
    ensures Pow(16, 2) == 256 && Pow(16, 8) == 0x1_0000_0000 && Pow(16, 12) == 0x1_0000_0000_0000
    ensures Pow(256, 4) == 0x1_0000_0000 && Pow(256, 6) == 0x1_0000_0000_0000
  {
    assert Pow(2, 8) == 256;
    assert Pow(2, 16) == Pow(2, 8) * Pow(2, 8) by { PowAdd(2, 8, 8); }
    assert Pow(2, 32) == Pow(2, 16) * Pow(2, 16) by { PowAdd(2, 16, 16); }
    assert Pow(16, 4) == 0x1_0000;
    assert Pow(16, 8) == Pow(16, 4) * Pow(16, 4) by { PowAdd(16, 4, 4); }
    assert Pow(16, 12) == Pow(16, 8) * Pow(16, 4) by { PowAdd(16, 8, 4); }
    assert Pow(256, 2) == 0x1_0000;
    assert Pow(256, 4) == Pow(256, 2) * Pow(256, 2) by { PowAdd(256, 2, 2); }
    assert Pow(256, 6) == Pow(256, 4) * Pow(256, 2) by { PowAdd(256, 4, 2); }
  }

  lemma {:induction false} PopCountZero(width: nat)
    ensures PopCount(0, width) == 0
    decreases width
  {
    if width > 0 { PopCountZero(width - 1); }
  }

  /** All `p` low bits of 2^p - 1 are set. */
  lemma {:induction false} PopCountOnes(p: nat)
    ensures PopCount(Pow(2, p) - 1, p) == p
    decreases p
  {
    if p > 0 {
      var n := Pow(2, p) - 1;
      assert n == 2 * (Pow(2, p - 1) - 1) + 1;
      DivModUnique(n, 2, Pow(2, p - 1) - 1, 1);
      PopCountOnes(p - 1);
    }
  }

  /** Bitwise OR of the low `width` bits of `a` and `b`. */
  function BitOr(a: nat, b: nat, width: nat): (r: nat)
    ensures r < Pow(2, width)
    decreases width
  {
    if width == 0 then 0
    else BitOr(a / 2, b / 2, width - 1) * 2 + (if a % 2 == 1 || b % 2 == 1 then 1 else 0)
  }

  /** OR with zero keeps a value that fits the width. */
  lemma {:induction false} BitOrZero(a: nat, width: nat)
    requires a < Pow(2, width)
    ensures BitOr(a, 0, width) == a
    decreases width
  {
    if width > 0 {
      BitOrZero(a / 2, width - 1);
    }
  }

  /** OR of a value whose low `k` bits are clear with a value below 2^k is
      their sum. */
  lemma {:induction false} BitOrDisjoint(a: nat, b: nat, k: nat, width: nat)
    requires k <= width && a < Pow(2, width)
    requires a % Pow(2, k) == 0 && b < Pow(2, k)
    ensures BitOr(a, b, width) == a + b
    decreases width
  {
    if k == 0 {
      BitOrZero(a, width);
    } else {
      ModOfProduct(a, 2, Pow(2, k - 1));
      assert a % 2 == 0 && a / 2 % Pow(2, k - 1) == 0;
      BitOrDisjoint(a / 2, b / 2, k - 1, width - 1);
    }
  }
}
