/**
 Addresses and prefixes the way net/netip gives them to the hub: an address is a
 family and a number, the 16-byte form of an IPv4 address is its IPv4-mapped
 IPv6 form (section 2.5.5.2 of RFC 4291), and an absent address is None.
 */
module Netip {
  import opened Bits
  import opened Wrappers

  datatype Family = F4 | F6

  function BitLen(f: Family): nat {
    if f.F4? then 32 else 128
  }

  function Limit(f: Family): nat {
    Pow2(BitLen(f))
  }

  datatype Addr = Addr(fam: Family, n: nat) {
    predicate Valid() {
      n < Limit(fam)
    }

    function Next(): Option<Addr> {
      if n + 1 < Limit(fam) then Some(Addr(fam, n + 1)) else None
    }

    function Prev(): Option<Addr> {
      if n > 0 then Some(Addr(fam, n - 1)) else None
    }
  }

  datatype Prefix = Prefix(addr: Addr, bits: int) {
    predicate Valid() {
      addr.Valid() && 0 <= bits <= BitLen(addr.fam)
    }

    /** How many addresses the prefix spans. */
    function Span(): nat
      requires Valid()
    {
      Pow2(BitLen(addr.fam) - bits)
    }

    /** The number of the network address. */
    function Base(): nat
      requires Valid()
    {
      BlockStart(addr.n, Span())
    }

    function Masked(): (p: Prefix)
      requires Valid()
    {
      Prefix(Addr(addr.fam, Base()), bits)
    }

    /** Same family, and equal in every bit above the host part. */
    predicate Contains(a: Option<Addr>) {
      && Valid()
      && a.Some?
      && a.value.fam == addr.fam
      && BlockStart(a.value.n, Span()) == Base()
    }

    /** Equal in every bit both prefixes fix. */
    predicate Overlaps(o: Prefix) {
      && Valid()
      && o.Valid()
      && addr.fam == o.addr.fam
      && var s := if bits <= o.bits then Span() else o.Span();
         BlockStart(addr.n, s) == BlockStart(o.addr.n, s)
    }
  }

  /** A prefix is the half-open interval from its network address. */
  lemma ContainsInterval(p: Prefix, a: Addr)
    requires p.Valid()
    ensures p.Contains(Some(a)) <==> a.fam == p.addr.fam && p.Base() <= a.n < p.Base() + p.Span()
  {
    BlockStartAligned(p.addr.n, p.Span());
    BlockOfAligned(p.Base(), a.n, p.Span());
  }

  /** The whole interval lies inside the address space. */
  lemma BaseFits(p: Prefix)
    requires p.Valid()
    ensures p.Base() + p.Span() <= Limit(p.addr.fam)
    ensures p.Masked().Valid() && p.Masked().Base() == p.Base()
    ensures Aligned(p.Base(), p.Span())
  {
    Pow2Add(BitLen(p.addr.fam) - p.bits, p.bits);
    BlockFits(p.addr.n, p.Span(), Pow2(p.bits));
    BlockStartAligned(p.addr.n, p.Span());
  }

  ghost predicate Disjoint(p: Prefix, q: Prefix) {
    forall a: Addr :: !(p.Contains(Some(a)) && q.Contains(Some(a)))
  }

  /** Overlaps answers exactly whether the two prefixes share an address. */
  lemma OverlapsIsSharing(p: Prefix, q: Prefix)
    requires p.Valid() && q.Valid()
    ensures p.Overlaps(q) <==> !Disjoint(p, q)
  {
    if p.addr.fam == q.addr.fam {
      if p.bits <= q.bits {
        NestedOrApart(p, q);
      } else {
        NestedOrApart(q, p);
      }
    }
  }

  /** The longer prefix lies wholly inside the shorter one or wholly outside. */
  lemma NestedOrApart(p: Prefix, q: Prefix)
    requires p.Valid() && q.Valid() && p.addr.fam == q.addr.fam && p.bits <= q.bits
    ensures p.Overlaps(q) ==> forall a: Addr :: q.Contains(Some(a)) ==> p.Contains(Some(a))
    ensures !p.Overlaps(q) ==> Disjoint(p, q)
    ensures p.Overlaps(q) ==> q.Contains(Some(q.addr)) && p.Contains(Some(q.addr))
  {
    var e := q.bits - p.bits;
    Pow2Add(BitLen(p.addr.fam) - q.bits, e);
    forall a: Addr | q.Contains(Some(a))
      ensures BlockStart(a.n, p.Span()) == BlockStart(q.addr.n, p.Span())
    {
      BlockCoarser(a.n, q.addr.n, q.Span(), Pow2(e));
    }
  }

  /** The IPv4-mapped block, and one more block after it, end inside the 16-byte space. */
  lemma MappedFits()
    ensures 0xffff * Limit(F4) + 2 * Limit(F4) <= Limit(F6)
  {
    MappedFitsAt(32, 128);
  }

  lemma MappedFitsAt(a: nat, b: nat)
    requires a + 17 <= b
    ensures 0xffff * Pow2(a) + 2 * Pow2(a) <= Pow2(b)
  {
    Pow2Add(8, 9);
    assert Pow2(8) == 0x100 && Pow2(9) == 0x200;
    Pow2Add(a, 17);
    MulLeft(Pow2(a), 0x1_0001, 0x2_0000);
    Pow2Monotone(a + 17, b);
  }

  /** The number the 16-byte form of an address denotes. */
  function Wide(a: Addr): (v: nat)
    requires a.Valid()
    ensures v < Limit(F6)
  {
    MappedFits();
    if a.fam.F4? then 0xffff * Limit(F4) + a.n else a.n
  }

  function As16(a: Addr): (s: seq<Byte>)
    requires a.Valid()
    ensures |s| == 16 && Value(s) == Wide(a)
  {
    ToBytes(Wide(a), 16)
  }

  function FromSlice(s: seq<Byte>): (a: Addr)
    requires |s| == 16
    ensures a.Valid() && a.fam.F6?
  {
    ValueBound(s);
    Addr(F6, Value(s))
  }

  /** An IPv4-mapped address becomes IPv4; any other is left alone. */
  function Unmap(a: Addr): (r: Addr)
    requires a.Valid()
    ensures r.Valid()
  {
    if a.fam.F6? && 0xffff * Limit(F4) <= a.n < 0x1_0000 * Limit(F4)
    then Addr(F4, a.n - 0xffff * Limit(F4))
    else a
  }

  lemma WidePlusFits(a: Addr, step: nat)
    requires a.Valid() && a.fam.F4? && step <= Limit(F4)
    ensures Wide(a) + step < Limit(F6)
  {
    MappedFits();
  }

  /** An IPv4 address moved up by at most the whole of IPv4, back from the 16-byte form. */
  lemma UnmapMoved(a: Addr, step: nat, v: nat)
    requires a.Valid() && a.fam.F4? && step <= Limit(F4) && v == Wide(a) + step
    requires Addr(F6, v).Valid()
    ensures a.n + step < Limit(F4) ==> Unmap(Addr(F6, v)) == Addr(F4, a.n + step)
    ensures a.n + step >= Limit(F4) ==> Unmap(Addr(F6, v)).fam.F6?
  {
  }

  lemma SliceValue(s: seq<Byte>)
    requires |s| == 16
    ensures FromSlice(s) == Addr(F6, Value(s)) && Value(s) < Limit(F6)
  {
    ValueBound(s);
  }

  /** Widening keeps an aligned address aligned. */
  lemma WideAligned(a: Addr, h: nat)
    requires a.Valid() && h <= BitLen(a.fam) && Aligned(a.n, Pow2(h))
    ensures Aligned(Wide(a), Pow2(h))
  {
    if a.fam.F4? {
      Pow2Add(h, 32 - h);
      MultiplePlus(a.n, Pow2(h), Pow2(32 - h), Limit(F4), 0xffff);
    }
  }

  lemma MultiplePlus(n: nat, d: nat, e: nat, w: nat, c: nat)
    requires d > 0 && Aligned(n, d) && w == d * e
    ensures c * w >= 0 && Aligned(c * w + n, d)
  {
    assert c * (d * e) == d * (c * e);
    AlignedPlus(n, d, c * e);
  }
}
