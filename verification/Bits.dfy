/** Powers of two, bytes, and big-endian byte strings as natural numbers. */
module Bits {

  newtype Byte = x: int | 0 <= x < 256

  function Pow2(n: nat): (r: nat)
    ensures r >= 1
  {
    if n == 0 then 1 else 2 * Pow2(n - 1)
  }

  lemma {:induction false} Pow2Add(a: nat, b: nat)
    ensures Pow2(a + b) == Pow2(a) * Pow2(b)
  {
    if a == 0 {
    } else {
      Pow2Add(a - 1, b);
      calc {
        Pow2(a + b);
        2 * Pow2(a - 1 + b);
        2 * (Pow2(a - 1) * Pow2(b));
        (2 * Pow2(a - 1)) * Pow2(b);
        Pow2(a) * Pow2(b);
      }
    }
  }

  lemma Pow2Monotone(a: nat, b: nat)
    requires a <= b
    ensures Pow2(a) <= Pow2(b)
  {
    Pow2Add(a, b - a);
    MulLeft(Pow2(a), 1, Pow2(b - a));
  }

  // Elementary facts about products and quotients, stated once so that the
  // solver never has to search for them.

  lemma MulLeft(x: nat, a: int, b: int)
    requires a <= b
    ensures x * a <= x * b
  {
  }

  /**
   The largest multiple of s that is not above n: n with its low part masked away.
   By repeated subtraction, so that no proof has to divide.
   */
  function BlockStart(n: nat, s: nat): (b: nat)
    requires s > 0
    ensures b <= n < b + s
  {
    if n < s then 0 else s + BlockStart(n - s, s)
  }

  predicate Aligned(n: nat, s: nat)
    requires s > 0
  {
    BlockStart(n, s) == n
  }

  /** Everything inside an aligned block masks to its start, and nothing else does. */
  lemma {:induction false} BlockOfAligned(b: nat, a: nat, s: nat)
    requires s > 0 && Aligned(b, s)
    ensures BlockStart(a, s) == b <==> b <= a < b + s
  {
    if a < s || b < s {
    } else {
      BlockOfAligned(b - s, a - s, s);
    }
  }

  lemma {:induction false} BlockStartAligned(n: nat, s: nat)
    requires s > 0
    ensures Aligned(BlockStart(n, s), s)
  {
    if n < s {
    } else {
      BlockStartAligned(n - s, s);
    }
  }

  lemma AlignedGap(a: nat, b: nat, s: nat)
    requires s > 0 && Aligned(a, s) && Aligned(b, s) && a < b
    ensures a + s <= b
  {
    BlockOfAligned(a, b, s);
  }

  lemma {:induction false} AlignedPlus(n: nat, s: nat, k: nat)
    requires s > 0 && Aligned(n, s)
    ensures s * k >= 0 && Aligned(n + s * k, s)
    decreases k
  {
    if k == 0 {
    } else {
      AlignedPlus(n, s, k - 1);
      assert n + s * k == (n + s * (k - 1)) + s;
    }
  }

  lemma {:induction false} AlignedQuotient(n: nat, s: nat) returns (q: nat)
    requires s > 0 && Aligned(n, s)
    ensures n == s * q
  {
    if n < s {
      q := 0;
    } else {
      q := AlignedQuotient(n - s, s);
      q := q + 1;
    }
  }

  /** A multiple of s * e is a multiple of s. */
  lemma AlignedFiner(n: nat, s: nat, e: nat)
    requires s > 0 && s * e > 0 && Aligned(n, s * e)
    ensures Aligned(n, s)
  {
    var q := AlignedQuotient(n, s * e);
    assert n == 0 + s * (e * q);
    AlignedPlus(0, s, e * q);
  }

  lemma AlignedSmaller(n: nat, a: nat, b: nat)
    requires a <= b && Aligned(n, Pow2(b))
    ensures Aligned(n, Pow2(a))
  {
    Pow2Add(a, b - a);
    AlignedFiner(n, Pow2(a), Pow2(b - a));
  }

  /** The block around a number below s * m ends no later than s * m. */
  lemma BlockFits(n: nat, s: nat, m: nat)
    requires s > 0 && n < s * m
    ensures BlockStart(n, s) + s <= s * m
  {
    AlignedPlus(0, s, m);
    BlockStartAligned(n, s);
    AlignedGap(BlockStart(n, s), s * m, s);
  }

  /** Two numbers in one small block are in one large block. */
  lemma BlockCoarser(a: nat, n: nat, s: nat, e: nat)
    requires s > 0 && s * e > 0 && BlockStart(a, s) == BlockStart(n, s)
    ensures BlockStart(a, s * e) == BlockStart(n, s * e)
  {
    var b, c := BlockStart(n, s), BlockStart(n, s * e);
    BlockStartAligned(n, s * e);
    AlignedFiner(c, s, e);
    AlignedPlus(c, s, e);
    BlockStartAligned(n, s);
    if b < c {
      AlignedGap(b, c, s);
      assert false;
    }
    AlignedGap(b, c + s * e, s);
    BlockOfAligned(c, a, s * e);
  }

  /** The number a byte string denotes, most significant byte first. */
  function Value(s: seq<Byte>): (v: nat)
  {
    if s == [] then 0 else 256 * Value(s[..|s| - 1]) + s[|s| - 1] as nat
  }

  lemma {:induction false} ValueBound(s: seq<Byte>)
    ensures Value(s) < Pow2(8 * |s|)
  {
    if s == [] {
    } else {
      ValueBound(s[..|s| - 1]);
      Pow2Byte(8 * (|s| - 1));
    }
  }

  lemma Pow2Byte(n: nat)
    ensures Pow2(n + 8) == 256 * Pow2(n)
  {
    Pow2Add(n, 8);
    assert Pow2(8) == 256;
  }

  /** Overwriting one byte moves the value by the weighted difference. */
  lemma {:induction false} ValueUpdate(s: seq<Byte>, i: nat, b: Byte)
    requires i < |s|
    ensures Value(s[i := b]) == Value(s) + (b as int - s[i] as int) * Pow2(8 * (|s| - 1 - i))
  {
    var last := |s| - 1;
    var u := s[i := b];
    if i == last {
      assert u[..last] == s[..last];
      assert Pow2(0) == 1;
    } else {
      assert u[..last] == s[..last][i := b];
      ValueUpdate(s[..last], i, b);
      var w := Pow2(8 * (last - 1 - i));
      Pow2Byte(8 * (last - 1 - i));
      Reassociate(b as int - s[i] as int, w);
    }
  }

  lemma Reassociate(d: int, w: int)
    ensures 256 * (d * w) == d * (256 * w)
  {
  }

  /** The n-byte big-endian form of a number that fits in it. */
  function ToBytes(v: nat, n: nat): (s: seq<Byte>)
    requires v < Pow2(8 * n)
    ensures |s| == n && Value(s) == v
    decreases n
  {
    if n == 0 then []
    else
      Pow2Byte(8 * (n - 1));
      ToBytes(v / 256, n - 1) + [(v % 256) as Byte]
  }

  /** One bit of a number, the least significant being bit 0. */
  function Bit(v: nat, i: nat): (b: nat)
    ensures b < 2
  {
    if i == 0 then v % 2 else Bit(v / 2, i - 1)
  }

  lemma {:induction false} BitBelow(n: nat, a: nat, b: nat, k: nat)
    requires k < n
    ensures Pow2(n) * a + b >= 0 && Bit(Pow2(n) * a + b, k) == Bit(b, k)
  {
    var t := Pow2(n - 1) * a;
    assert Pow2(n) * a == 2 * t;
    if k == 0 {
    } else {
      BitBelow(n - 1, a, b / 2, k - 1);
    }
  }

  lemma {:induction false} BitAbove(n: nat, a: nat, b: nat, e: nat)
    requires b < Pow2(n)
    ensures Bit(Pow2(n) * a + b, n + e) == Bit(a, e)
  {
    if n == 0 {
      assert Pow2(0) == 1;
    } else {
      var t := Pow2(n - 1) * a;
      assert Pow2(n) * a == 2 * t;
      BitAbove(n - 1, a, b / 2, e);
    }
  }

  /** Bit k of byte i is bit 8 * (distance from the end) + k of the value. */
  lemma {:induction false} BitOfValue(s: seq<Byte>, i: nat, k: nat)
    requires i < |s| && k < 8
    ensures Bit(s[i] as nat, k) == Bit(Value(s), 8 * (|s| - 1 - i) + k)
  {
    var last := |s| - 1;
    assert Pow2(8) == 256;
    if i == last {
      BitBelow(8, Value(s[..last]), s[last] as nat, k);
    } else {
      BitOfValue(s[..last], i, k);
      BitAbove(8, Value(s[..last]), s[last] as nat, 8 * (last - 1 - i) + k);
    }
  }

  /** A multiple of 2^(i+1) plus i one bits has bit i clear. */
  lemma {:induction false} BitAboveOnes(q: nat, i: nat)
    ensures Bit(Pow2(i + 1) * q + Pow2(i) - 1, i) == 0
  {
    var v := Pow2(i + 1) * q + Pow2(i) - 1;
    if i == 0 {
      assert Pow2(1) == 2;
    } else {
      assert v == 2 * (Pow2(i) * q + Pow2(i - 1) - 1) + 1;
      BitAboveOnes(q, i - 1);
    }
  }

  /** The machine operation b | 1 << k: the bit is added unless it is there. */
  function OrBit(b: Byte, k: nat): (r: Byte)
    requires k < 8
    ensures Bit(r as nat, k) == 1
  {
    if Bit(b as nat, k) == 1 then b
    else
      AddBit(b as nat, k, 8);
      assert Pow2(8) == 256;
      (b as int + Pow2(k)) as Byte
  }

  lemma {:induction false} AddBit(v: nat, k: nat, n: nat)
    requires k < n && v < Pow2(n) && Bit(v, k) == 0
    ensures v + Pow2(k) < Pow2(n) && Bit(v + Pow2(k), k) == 1
  {
    if k == 0 {
    } else {
      AddBit(v / 2, k - 1, n - 1);
      assert (v + Pow2(k)) / 2 == v / 2 + Pow2(k - 1);
    }
  }
}
