/**
 Carving instance overlays out of the hub's pools: stepping from one subnet to
 the next on the 16-byte form, and the search over several pools.
 */
module Overlays {
  import opened Bits
  import opened Wrappers
  import opened Netip
  import Ipam

  // ----- nextSubnet -----

  /** Adds 2^shift to a 16-byte number in place, and reports a carry out of the top. */
  method AddAt(raw: array<Byte>, shift: nat) returns (overflow: bool)
    requires raw.Length == 16 && shift <= 128
    modifies raw
    ensures Value(raw[..]) + (if overflow then Limit(F6) else 0) == old(Value(raw[..])) + Pow2(shift)
  {
    ghost var start := Value(raw[..]);
    ghost var c: nat := shift % 8;
    var i := 16 - 1 - shift / 8;
    var carry := Pow2(shift % 8);
    while i >= 0
      invariant -1 <= i <= 15 && c < 8 && carry == Pow2(c)
      invariant i == -1 ==> c == 0
      invariant Value(raw[..]) + Pow2(8 * (15 - i) + c) == start + Pow2(shift)
    {
      var sum := raw[i] as int + carry;
      var low := (sum % 256) as Byte;
      CarryStep(raw[..], i, c, low);
      ghost var next := raw[..][i := low];
      raw[i] := low;
      assert raw[..] == next;
      if sum <= 0xff {
        return false;
      }
      carry, c := 1, 0;
      i := i - 1;
    }
    return carry != 0;
  }

  /** Storing the low byte of the sum leaves a carry of one for the next byte, or none. */
  lemma CarryStep(raw: seq<Byte>, i: nat, c: nat, low: Byte)
    requires |raw| == 16 && i < 16 && c < 8 && low as int == (raw[i] as int + Pow2(c)) % 256
    ensures raw[i] as int + Pow2(c) <= 0xff ==>
              Value(raw[i := low]) == Value(raw) + Pow2(8 * (15 - i) + c)
    ensures raw[i] as int + Pow2(c) > 0xff ==>
              Value(raw[i := low]) + Pow2(8 * (16 - i)) == Value(raw) + Pow2(8 * (15 - i) + c)
  {
    CarryAt(raw, i, c, low, 8 * (15 - i));
    assert 8 * (15 - i) + 8 == 8 * (16 - i);
  }

  lemma CarryAt(raw: seq<Byte>, i: nat, c: nat, low: Byte, e: nat)
    requires |raw| == 16 && i < 16 && c < 8 && low as int == (raw[i] as int + Pow2(c)) % 256 && e == 8 * (15 - i)
    ensures raw[i] as int + Pow2(c) <= 0xff ==> Value(raw[i := low]) == Value(raw) + Pow2(e + c)
    ensures raw[i] as int + Pow2(c) > 0xff ==> Value(raw[i := low]) + Pow2(e + 8) == Value(raw) + Pow2(e + c)
  {
    CarryWeights(e, c);
    CarryMove(raw, i, low, e, Pow2(c), Pow2(e + c), Pow2(e + 8));
  }

  lemma CarryMove(raw: seq<Byte>, i: nat, low: Byte, e: nat, p: int, weighted: int, next: int)
    requires |raw| == 16 && i < 16 && e == 8 * (15 - i) && 0 <= p <= 128 && low as int == (raw[i] as int + p) % 256
    requires weighted == Pow2(e) * p && next == 256 * Pow2(e)
    ensures raw[i] as int + p <= 0xff ==> Value(raw[i := low]) == Value(raw) + weighted
    ensures raw[i] as int + p > 0xff ==> Value(raw[i := low]) + next == Value(raw) + weighted
  {
    ByteMoves(raw, i, low, e);
    CarrySum(Value(raw), Value(raw[i := low]), raw[i] as int, p, low as int, Pow2(e), weighted, next);
  }

  lemma ByteMoves(raw: seq<Byte>, i: nat, low: Byte, e: nat)
    requires |raw| == 16 && i < 16 && e == 8 * (15 - i)
    ensures Value(raw[i := low]) == Value(raw) + (low as int - raw[i] as int) * Pow2(e)
  {
    ValueUpdate(raw, i, low);
  }

  lemma CarryWeights(e: nat, c: nat)
    requires c < 8
    ensures Pow2(e + c) == Pow2(e) * Pow2(c) && Pow2(e + 8) == 256 * Pow2(e) && Pow2(c) <= 128
  {
    Pow2Add(e, c);
    Pow2Byte(e);
    Pow2Monotone(c, 7);
    assert Pow2(7) == 128;
  }

  lemma CarrySum(before: int, after: int, b: int, c: int, low: int, w: int, weighted: int, next: int)
    requires 0 <= b < 256 && 0 <= c <= 128 && low == (b + c) % 256 && after == before + (low - b) * w
    requires weighted == w * c && next == 256 * w
    ensures b + c <= 0xff ==> after == before + weighted
    ensures b + c > 0xff ==> after + next == before + weighted
  {
    CarrySplit(b, c, low, w);
  }

  lemma CarryLow(b: int, c: int, low: int)
    requires 0 <= b < 256 && 0 <= c <= 128 && low == (b + c) % 256
    ensures low - b == if b + c <= 0xff then c else c - 256
  {
  }

  lemma CarrySplit(b: int, c: int, low: int, w: int)
    requires 0 <= b < 256 && 0 <= c <= 128 && low == (b + c) % 256
    ensures b + c <= 0xff ==> (low - b) * w == w * c
    ensures b + c > 0xff ==> (low - b) * w + 256 * w == w * c
  {
    CarryLow(b, c, low);
  }

  /**
   Where a step from an address ends up: the next address of the family, or, past
   its end, nothing for IPv6 and an address that is no longer IPv4 for IPv4.
   */
  ghost predicate StepsTo(a: Addr, step: nat, r: Option<Addr>) {
    if a.n + step < Limit(a.fam) then r == Some(Addr(a.fam, a.n + step))
    else if a.fam.F6? then r == None
    else r.Some? && r.value.fam.F6?
  }

  /** The subnet of the given size that follows the one at a prefix's network address. */
  method NextSubnet(p: Prefix, size: int) returns (r: Option<Prefix>)
    requires p.Valid()
    ensures r.Some? ==> r.value.bits == size
    ensures if 0 <= size <= BitLen(p.addr.fam)
            then StepsTo(p.Masked().addr, Pow2(BitLen(p.addr.fam) - size), if r.Some? then Some(r.value.addr) else None)
            else r == None
  {
    BaseFits(p);
    var addr := p.Masked().addr;
    var bits := BitLen(addr.fam);
    if size < 0 || size > bits {
      return None;
    }
    Pow2Monotone(bits - size, bits);
    var next := Step(addr, bits - size);
    if next.None? {
      return None;
    }
    return Some(Prefix(next.value, size));
  }

  /** The 16-byte detour: widen, add, and come back to the family. */
  method Step(addr: Addr, shift: nat) returns (r: Option<Addr>)
    requires addr.Valid() && shift <= 128 && Pow2(shift) <= Limit(addr.fam)
    ensures StepsTo(addr, Pow2(shift), r)
  {
    var raw := Ipam.Bytes16(addr);
    var overflow := AddAt(raw, shift);
    StepOutcome(addr, Pow2(shift), raw[..], overflow);
    if overflow {
      return None;
    }
    var next := FromSlice(raw[..]);
    if addr.fam.F4? {
      next := Unmap(next);
    }
    return Some(next);
  }

  lemma StepOutcome(a: Addr, step: nat, s: seq<Byte>, overflow: bool)
    requires a.Valid() && step <= Limit(a.fam) && |s| == 16
    requires Value(s) + (if overflow then Limit(F6) else 0) == Wide(a) + step
    ensures overflow ==> StepsTo(a, step, None)
    ensures !overflow ==> StepsTo(a, step, Some(if a.fam.F4? then Unmap(FromSlice(s)) else FromSlice(s)))
  {
    SliceValue(s);
    if a.fam.F4? {
      WidePlusFits(a, step);
      UnmapMoved(a, step, Value(s));
    }
  }

  // ----- allocateOverlay -----

  datatype Pool = Pool(prefix: Prefix, size: int) {
    /** The instance size lies between the pool's own length and the family's. */
    predicate Fits() {
      prefix.Valid() && prefix.bits <= size <= BitLen(prefix.addr.fam)
    }
  }

  datatype OverlayError = NoPool | BadSize(pool: nat) | Full

  /** One of the aligned slices a pool is carved into. */
  ghost predicate IsSubnet(pool: Pool, q: Prefix) {
    && pool.Fits()
    && q.Valid()
    && q.bits == pool.size
    && Aligned(q.addr.n, q.Span())
    && pool.prefix.Contains(Some(q.addr))
  }

  ghost predicate PoolFull(pool: Pool, taken: set<Prefix>) {
    forall q: Prefix :: IsSubnet(pool, q) ==> q in taken
  }

  ghost predicate IsLowestFree(pool: Pool, taken: set<Prefix>, q: Prefix) {
    && IsSubnet(pool, q)
    && q !in taken
    && forall o: Prefix :: IsSubnet(pool, o) && o !in taken ==> q.addr.n <= o.addr.n
  }

  ghost predicate FullBefore(pools: seq<Pool>, taken: set<Prefix>, i: nat) {
    i <= |pools| && forall j :: 0 <= j < i ==> pools[j].Fits() && PoolFull(pools[j], taken)
  }

  method AllocateOverlay(pools: seq<Pool>, taken: set<Prefix>) returns (r: Result<Prefix, OverlayError>)
    requires forall i :: 0 <= i < |pools| ==> pools[i].prefix.Valid()
    ensures match r
            case Ok(q) => exists i: nat :: i < |pools| && FullBefore(pools, taken, i) && IsLowestFree(pools[i], taken, q)
            case Err(NoPool) => pools == []
            case Err(BadSize(i)) => i < |pools| && FullBefore(pools, taken, i) && !pools[i].Fits()
            case Err(Full) => pools != [] && FullBefore(pools, taken, |pools|)
  {
    if pools == [] {
      return Err(NoPool);
    }
    for i := 0 to |pools|
      invariant FullBefore(pools, taken, i)
    {
      var pool := pools[i];
      if pool.size < pool.prefix.bits || pool.size > BitLen(pool.prefix.addr.fam) {
        return Err(BadSize(i));
      }
      var found := WalkPool(pool, taken);
      if found.Some? {
        return Ok(found.value);
      }
    }
    return Err(Full);
  }

  /** Every free slice of the pool lies at the candidate or above it. */
  ghost predicate NoneBelow(pool: Pool, taken: set<Prefix>, candidate: Prefix) {
    forall q: Prefix :: IsSubnet(pool, q) && q !in taken ==>
      candidate.addr.fam == q.addr.fam && candidate.addr.n <= q.addr.n
  }

  /** How much of the address space is left at the candidate; none once it has left the family. */
  function Remaining(pool: Pool, c: Prefix): int {
    if c.addr.fam == pool.prefix.addr.fam then Limit(c.addr.fam) - c.addr.n else -1
  }

  /** The inner loop: every slice of one pool in turn. */
  method WalkPool(pool: Pool, taken: set<Prefix>) returns (r: Option<Prefix>)
    requires pool.Fits()
    ensures r.Some? ==> IsLowestFree(pool, taken, r.value)
    ensures r == None ==> PoolFull(pool, taken)
  {
    FirstSlice(pool);
    var candidate := Prefix(pool.prefix.Masked().addr, pool.size);
    while pool.prefix.Contains(Some(candidate.addr))
      invariant pool.prefix.Contains(Some(candidate.addr)) ==> IsSubnet(pool, candidate)
      invariant candidate.addr.fam == pool.prefix.addr.fam ==> candidate.addr.n >= pool.prefix.Base()
      invariant NoneBelow(pool, taken, candidate)
      decreases Remaining(pool, candidate)
    {
      if candidate !in taken {
        return Some(candidate);
      }
      var next := NextSubnet(candidate, pool.size);
      NextSlice(pool, taken, candidate, next);
      if next.None? {
        return None;
      }
      RemainingShrinks(pool, candidate, next.value);
      candidate := next.value;
    }
    PastTheEnd(pool, taken, candidate);
    return None;
  }

  lemma FirstIsSlice(pool: Pool)
    requires pool.Fits()
    ensures IsSubnet(pool, Prefix(pool.prefix.Masked().addr, pool.size))
  {
    var p := pool.prefix;
    BaseFits(p);
    ContainsInterval(p, p.Masked().addr);
    AlignedSmaller(p.Base(), BitLen(p.addr.fam) - pool.size, BitLen(p.addr.fam) - p.bits);
  }

  /** The first slice starts at the pool's own network address, and none starts before it. */
  lemma FirstSlice(pool: Pool)
    requires pool.Fits()
    ensures IsSubnet(pool, Prefix(pool.prefix.Masked().addr, pool.size))
    ensures forall q: Prefix :: IsSubnet(pool, q) ==> pool.prefix.Base() <= q.addr.n
  {
    FirstIsSlice(pool);
    forall q: Prefix | IsSubnet(pool, q)
      ensures pool.prefix.Base() <= q.addr.n
    {
      ContainsInterval(pool.prefix, q.addr);
    }
  }

  lemma PastTaken(pool: Pool, taken: set<Prefix>, c: Prefix, q: Prefix)
    requires IsSubnet(pool, c) && c in taken && NoneBelow(pool, taken, c) && IsSubnet(pool, q) && q !in taken
    ensures q.addr.fam == c.addr.fam && c.addr.n + c.Span() <= q.addr.n
  {
    AlignedGap(c.addr.n, q.addr.n, c.Span());
  }

  lemma NextIsSlice(pool: Pool, c: Prefix, next: Prefix)
    requires IsSubnet(pool, c) && next.bits == pool.size && pool.prefix.Contains(Some(next.addr)) && next.Valid()
    requires next.addr.n == c.addr.n + c.Span()
    ensures IsSubnet(pool, next)
  {
    assert next.addr.fam == c.addr.fam && next.Span() == c.Span();
    AlignedPlus(c.addr.n, c.Span(), 1);
  }

  /** Stepping over a taken slice skips no free one. */
  lemma NextSlice(pool: Pool, taken: set<Prefix>, c: Prefix, next: Option<Prefix>)
    requires IsSubnet(pool, c) && c in taken && NoneBelow(pool, taken, c)
    requires StepsTo(c.Masked().addr, c.Span(), if next.Some? then Some(next.value.addr) else None)
    requires next.Some? ==> next.value.bits == pool.size
    ensures next == None ==> PoolFull(pool, taken)
    ensures next.Some? ==> NoneBelow(pool, taken, next.value)
    ensures next.Some? && next.value.addr.fam == c.addr.fam ==> next.value.addr.n == c.addr.n + c.Span()
    ensures next.Some? && pool.prefix.Contains(Some(next.value.addr)) ==> IsSubnet(pool, next.value)
  {
    forall q: Prefix | IsSubnet(pool, q) && q !in taken
      ensures next.Some? && next.value.addr.fam == q.addr.fam && next.value.addr.n <= q.addr.n
    {
      PastTaken(pool, taken, c, q);
    }
    if next.Some? && pool.prefix.Contains(Some(next.value.addr)) {
      NextIsSlice(pool, c, next.value);
    }
  }

  lemma RemainingShrinks(pool: Pool, c: Prefix, next: Prefix)
    requires c.Valid() && c.addr.fam == pool.prefix.addr.fam
    requires next.addr.fam == c.addr.fam ==> next.addr.n == c.addr.n + c.Span()
    ensures Remaining(pool, c) > 0 && Remaining(pool, next) < Remaining(pool, c)
  {
  }

  lemma PastTheEnd(pool: Pool, taken: set<Prefix>, c: Prefix)
    requires pool.Fits() && NoneBelow(pool, taken, c) && !pool.prefix.Contains(Some(c.addr))
    requires c.addr.fam == pool.prefix.addr.fam ==> c.addr.n >= pool.prefix.Base()
    ensures PoolFull(pool, taken)
  {
    forall q: Prefix | IsSubnet(pool, q)
      ensures q in taken
    {
      ContainsInterval(pool.prefix, q.addr);
      ContainsInterval(pool.prefix, c.addr);
    }
  }

  // ----- Slices do not overlap -----

  /** Every address of a slice is an address of its pool. */
  lemma SubnetInside(pool: Pool, q: Prefix)
    requires IsSubnet(pool, q)
    ensures forall a: Addr :: q.Contains(Some(a)) ==> pool.prefix.Contains(Some(a))
  {
    NestedOrApart(pool.prefix, q);
  }

  lemma SubnetsDisjoint(pool: Pool, q: Prefix, o: Prefix)
    requires IsSubnet(pool, q) && IsSubnet(pool, o) && q != o
    ensures Disjoint(q, o)
  {
    forall a: Addr
      ensures !(q.Contains(Some(a)) && o.Contains(Some(a)))
    {
    }
  }

  ghost predicate PoolsApart(pools: seq<Pool>) {
    forall i, j :: 0 <= i < j < |pools| ==> Disjoint(pools[i].prefix, pools[j].prefix)
  }

  /** Configuration is refused exactly when two pools share an address. */
  method RefuseOverlap(pools: seq<Pool>) returns (refused: bool)
    requires forall i :: 0 <= i < |pools| ==> pools[i].prefix.Valid()
    ensures refused <==> !PoolsApart(pools)
  {
    for i := 0 to |pools|
      invariant forall k, j :: 0 <= k < i && k < j < |pools| ==> Disjoint(pools[k].prefix, pools[j].prefix)
    {
      for j := i + 1 to |pools|
        invariant forall m :: i < m < j ==> Disjoint(pools[i].prefix, pools[m].prefix)
      {
        OverlapsIsSharing(pools[i].prefix, pools[j].prefix);
        if pools[i].prefix.Overlaps(pools[j].prefix) {
          return true;
        }
      }
    }
    return false;
  }

  /** A pool as large as an instance is one slice, and one of single addresses has each of its addresses. */
  lemma SliceSizes(p: Prefix, a: Addr)
    requires p.Valid() && a.Valid()
    ensures IsSubnet(Pool(p, p.bits), p.Masked())
    ensures IsSubnet(Pool(p, BitLen(p.addr.fam)), Prefix(a, BitLen(a.fam))) <==> p.Contains(Some(a))
  {
    BaseFits(p);
    ContainsInterval(p, p.Masked().addr);
    assert Pow2(0) == 1;
    BlockStartAligned(a.n, 1);
  }

  /** A slice of some pool. */
  ghost predicate Carved(pools: seq<Pool>, q: Prefix) {
    exists i :: 0 <= i < |pools| && IsSubnet(pools[i], q)
  }

  /** Two different slices share no address, whichever pools they come from. */
  lemma CarvedDisjoint(pools: seq<Pool>, q: Prefix, o: Prefix)
    requires PoolsApart(pools) && Carved(pools, q) && Carved(pools, o) && q != o
    ensures Disjoint(q, o)
  {
    var i :| 0 <= i < |pools| && IsSubnet(pools[i], q);
    var j :| 0 <= j < |pools| && IsSubnet(pools[j], o);
    if i == j {
      SubnetsDisjoint(pools[i], q, o);
    } else {
      SubnetInside(pools[i], q);
      SubnetInside(pools[j], o);
      assert Disjoint(pools[if i < j then i else j].prefix, pools[if i < j then j else i].prefix);
    }
  }
}
