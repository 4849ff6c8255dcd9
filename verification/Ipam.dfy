/**
 Address allocation inside one overlay prefix: the two-ended search for a free
 address, and the byte loops it stands on.
 */
module Ipam {
  import opened Bits
  import opened Wrappers
  import opened Netip

  datatype Kind = Owner | Tenant | Connector

  // ----- What the code asks of one address -----

  /** The all-ones address of an IPv4 prefix that has room for one. */
  predicate IsBroadcast(p: Prefix, a: Addr) {
    a.fam.F4? && p.bits < 31 && !p.Contains(a.Next())
  }

  /** Inside the prefix, and neither its network address nor its IPv4 broadcast address. */
  predicate Usable(p: Prefix, a: Addr) {
    && p.Valid()
    && a.fam == p.addr.fam
    && FirstUsable(p) <= a.n <= LastUsable(p)
  }

  function FirstUsable(p: Prefix): nat
    requires p.Valid()
  {
    p.Base() + 1
  }

  /** May be below FirstUsable, and then nothing is usable. */
  function LastUsable(p: Prefix): int
    requires p.Valid()
  {
    p.Base() + p.Span() - (if p.addr.fam.F4? && p.bits < 31 then 2 else 1)
  }

  /** The three tests of the search loops say exactly that an address is usable. */
  lemma UsableIsTested(p: Prefix, a: Addr)
    requires p.Valid()
    ensures Usable(p, a) <==> p.Contains(Some(a)) && a != p.Masked().addr && !IsBroadcast(p, a)
  {
    BaseFits(p);
    ContainsInterval(p, a);
    if a.Next().Some? {
      ContainsInterval(p, a.Next().value);
    }
  }

  ghost predicate Free(p: Prefix, taken: set<Addr>, a: Addr) {
    Usable(p, a) && a !in taken
  }

  ghost predicate IsLeastFree(p: Prefix, taken: set<Addr>, r: Option<Addr>) {
    match r
    case None => forall a: Addr :: !Free(p, taken, a)
    case Some(m) => Free(p, taken, m) && forall a: Addr :: Free(p, taken, a) ==> m.n <= a.n
  }

  ghost predicate IsGreatestFree(p: Prefix, taken: set<Addr>, r: Option<Addr>) {
    match r
    case None => forall a: Addr :: !Free(p, taken, a)
    case Some(m) => Free(p, taken, m) && forall a: Addr :: Free(p, taken, a) ==> a.n <= m.n
  }

  /** The lowest usable address of a prefix and the next one. */
  ghost predicate FirstTwo(p: Prefix, first: Addr, second: Addr) {
    IsLeastFree(p, {}, Some(first)) && IsLeastFree(p, {first}, Some(second))
  }

  // ----- The search loops -----

  method LowestFree(p: Prefix, taken: set<Addr>) returns (r: Option<Addr>)
    ensures IsLeastFree(p, taken, r)
  {
    if !p.Valid() {
      return None;
    }
    BaseFits(p);
    var addr := p.Masked().addr.Next();
    while p.Contains(addr)
      invariant addr.Some? ==> addr.value.fam == p.addr.fam && p.Base() < addr.value.n
      invariant FreeFrom(p, taken, addr)
      decreases if addr.Some? then Limit(p.addr.fam) - addr.value.n else -1
    {
      UsableIsTested(p, addr.value);
      if addr.value !in taken && !IsBroadcast(p, addr.value) {
        return addr;
      }
      StepUp(p, taken, addr.value);
      addr := addr.value.Next();
    }
    NoneFreeOutside(p, taken, addr);
    return None;
  }

  method HighestFree(p: Prefix, taken: set<Addr>) returns (r: Option<Addr>)
    ensures IsGreatestFree(p, taken, r)
  {
    if !p.Valid() {
      return None;
    }
    var addr := LastAddr(p);
    while p.Contains(addr)
      invariant addr.Some? ==> addr.value.fam == p.addr.fam && addr.value.n < p.Base() + p.Span()
      invariant FreeUpTo(p, taken, addr)
      decreases if addr.Some? then addr.value.n else -1
    {
      UsableIsTested(p, addr.value);
      if addr.value !in taken && !IsBroadcast(p, addr.value) && addr.value != p.Masked().addr {
        return addr;
      }
      addr := addr.value.Prev();
    }
    NoneFreeOutside(p, taken, addr);
    return None;
  }

  /** Every free address is at the cursor or above it. */
  ghost predicate FreeFrom(p: Prefix, taken: set<Addr>, at: Option<Addr>) {
    forall a: Addr :: Free(p, taken, a) ==> at.Some? && at.value.n <= a.n
  }

  /** Every free address is at the cursor or below it. */
  ghost predicate FreeUpTo(p: Prefix, taken: set<Addr>, at: Option<Addr>) {
    forall a: Addr :: Free(p, taken, a) ==> at.Some? && a.n <= at.value.n
  }

  lemma StepUp(p: Prefix, taken: set<Addr>, at: Addr)
    requires p.Valid() && at.fam == p.addr.fam && FreeFrom(p, taken, Some(at)) && !Free(p, taken, at)
    ensures FreeFrom(p, taken, at.Next())
  {
    BaseFits(p);
    forall a: Addr | Free(p, taken, a)
      ensures at.Next().Some? && at.Next().value.n <= a.n
    {
      assert a != at;
    }
  }

  /** Once the cursor has left the prefix there is nothing free on either side of it. */
  lemma NoneFreeOutside(p: Prefix, taken: set<Addr>, at: Option<Addr>)
    requires p.Valid() && !p.Contains(at) && (at.Some? ==> at.value.fam == p.addr.fam)
    requires (FreeFrom(p, taken, at) && (at.Some? ==> p.Base() < at.value.n))
          || (FreeUpTo(p, taken, at) && (at.Some? ==> at.value.n < p.Base() + p.Span()))
    ensures forall a: Addr :: !Free(p, taken, a)
  {
    if at.Some? {
      ContainsInterval(p, at.value);
    }
  }

  method LastAddr(p: Prefix) returns (r: Option<Addr>)
    requires p.Valid()
    ensures r == Some(Addr(p.addr.fam, p.Base() + p.Span() - 1))
  {
    BaseFits(p);
    var base := p.Masked().addr;
    var raw := Bytes16(base);
    WideAligned(base, BitLen(base.fam) - p.bits);
    SetHostBits(raw, BitLen(base.fam) - p.bits);
    NarrowLast(p, raw[..]);
    var out := FromSlice(raw[..]);
    if base.fam.F4? {
      out := Unmap(out);
    }
    return Some(out);
  }

  /** A fresh array holding the 16-byte form. */
  method Bytes16(a: Addr) returns (raw: array<Byte>)
    requires a.Valid()
    ensures fresh(raw) && raw.Length == 16 && Value(raw[..]) == Wide(a)
  {
    var start := As16(a);
    raw := new Byte[16](i requires 0 <= i < 16 => start[i]);
    assert raw[..] == start;
  }

  /** Sets the low h bits one at a time, counted from the end of the 16-byte form. */
  method SetHostBits(raw: array<Byte>, h: nat)
    requires raw.Length == 16 && h <= 128 && Aligned(Value(raw[..]), Pow2(h))
    modifies raw
    ensures Value(raw[..]) == old(Value(raw[..])) + Pow2(h) - 1
  {
    ghost var wide := Value(raw[..]);
    for i := 0 to h
      invariant Value(raw[..]) == wide + Pow2(i) - 1
    {
      var byteIndex, bit := 15 - i / 8, i % 8;
      assert i == 8 * (i / 8) + bit;
      SetHostBit(raw[..], wide, i / 8, bit, h);
      ghost var next := raw[..][byteIndex := OrBit(raw[byteIndex], bit)];
      raw[byteIndex] := OrBit(raw[byteIndex], bit);
      assert raw[..] == next;
    }
  }

  /** Back from the 16-byte form, a full host part is the last address of the prefix. */
  lemma NarrowLast(p: Prefix, s: seq<Byte>)
    requires p.Valid() && |s| == 16 && p.Masked().addr.Valid()
    requires Value(s) == Wide(p.Masked().addr) + p.Span() - 1
    ensures (if p.addr.fam.F4? then Unmap(FromSlice(s)) else FromSlice(s))
         == Addr(p.addr.fam, p.Base() + p.Span() - 1)
  {
    BaseFits(p);
    ValueBound(s);
  }

  /** While the low i bits are ones and the base is aligned to h > i bits, bit i is clear. */
  lemma HostBitClear(wide: nat, i: nat, h: nat)
    requires i < h && Aligned(wide, Pow2(h))
    ensures Bit(wide + Pow2(i) - 1, i) == 0
  {
    AlignedSmaller(wide, i + 1, h);
    var q := AlignedQuotient(wide, Pow2(i + 1));
    BitAboveOnes(q, i);
  }

  /** One round of the loop: setting bit 8 * m + k turns that many ones into one more. */
  lemma OrAdds(raw: seq<Byte>, m: nat, k: nat)
    requires |raw| == 16 && k < 8 && m < 16 && Bit(raw[15 - m] as nat, k) == 0
    ensures Value(raw[15 - m := OrBit(raw[15 - m], k)]) == Value(raw) + Pow2(8 * m + k)
  {
    var b := raw[15 - m];
    assert OrBit(b, k) as int == b as int + Pow2(k);
    ValueUpdate(raw, 15 - m, OrBit(b, k));
    Pow2Add(k, 8 * m);
  }

  lemma SetHostBit(raw: seq<Byte>, wide: nat, m: nat, k: nat, h: nat)
    requires |raw| == 16 && k < 8 && 8 * m + k < h <= 128
    requires Aligned(wide, Pow2(h)) && Value(raw) == wide + Pow2(8 * m + k) - 1
    ensures Value(raw[15 - m := OrBit(raw[15 - m], k)]) == wide + Pow2(8 * m + k + 1) - 1
  {
    HostBitClear(wide, 8 * m + k, h);
    BitOfValue(raw, 15 - m, k);
    OrAdds(raw, m, k);
  }

  // ----- The searches as functions of the pool -----

  lemma LeastExists(p: Prefix, taken: set<Addr>, a: Addr)
    requires Free(p, taken, a)
    ensures exists m: Addr :: IsLeastFree(p, taken, Some(m))
    decreases a.n
  {
    if b: Addr :| Free(p, taken, b) && b.n < a.n {
      LeastExists(p, taken, b);
    } else {
      assert IsLeastFree(p, taken, Some(a));
    }
  }

  lemma GreatestExists(p: Prefix, taken: set<Addr>, a: Addr)
    requires Free(p, taken, a)
    ensures exists m: Addr :: IsGreatestFree(p, taken, Some(m))
    decreases LastUsable(p) - a.n
  {
    if b: Addr :| Free(p, taken, b) && b.n > a.n {
      GreatestExists(p, taken, b);
    } else {
      assert IsGreatestFree(p, taken, Some(a));
    }
  }

  ghost function LeastFree(p: Prefix, taken: set<Addr>): (r: Option<Addr>)
    ensures IsLeastFree(p, taken, r)
  {
    if a: Addr :| Free(p, taken, a) then
      LeastExists(p, taken, a);
      var m: Addr :| IsLeastFree(p, taken, Some(m));
      Some(m)
    else None
  }

  ghost function GreatestFree(p: Prefix, taken: set<Addr>): (r: Option<Addr>)
    ensures IsGreatestFree(p, taken, r)
  {
    if a: Addr :| Free(p, taken, a) then
      GreatestExists(p, taken, a);
      var m: Addr :| IsGreatestFree(p, taken, Some(m));
      Some(m)
    else None
  }

  /** There is only one answer, so the loops and the functions agree. */
  lemma SearchUnique(p: Prefix, taken: set<Addr>, r: Option<Addr>)
    ensures IsLeastFree(p, taken, r) ==> r == LeastFree(p, taken)
    ensures IsGreatestFree(p, taken, r) ==> r == GreatestFree(p, taken)
  {
    if IsLeastFree(p, taken, r) && r.Some? {
      assert Free(p, taken, r.value);
      assert r.value.n == LeastFree(p, taken).value.n;
    }
    if IsGreatestFree(p, taken, r) && r.Some? {
      assert Free(p, taken, r.value);
      assert r.value.n == GreatestFree(p, taken).value.n;
    }
  }

  /** The address a key is given: its own if it has one, else from its kind's end. */
  ghost function Pick(p: Prefix, held: map<string, Addr>, key: string, kind: Kind, reserved: set<Addr>): (r: Option<Addr>)
  {
    if key in held then Some(held[key])
    else if kind.Connector? then GreatestFree(p, held.Values + reserved)
    else LeastFree(p, held.Values + reserved)
  }

  function Present(s: seq<Option<Addr>>): (r: set<Addr>)
    ensures forall a :: a in r <==> Some(a) in s
  {
    set o | o in s && o.Some? :: o.value
  }

  method FromPool(p: Prefix, held: map<string, Addr>, key: string, kind: Kind, reserved: seq<Option<Addr>>)
    returns (r: Option<Addr>)
    ensures r == Pick(p, held, key, kind, Present(reserved))
  {
    if key in held {
      return Some(held[key]);
    }
    var taken: set<Addr> := {};
    var todo := held.Keys;
    while todo != {}
      invariant todo <= held.Keys
      invariant taken == set k | k in held && k !in todo :: held[k]
      decreases todo
    {
      var k :| k in todo;
      taken := taken + {held[k]};
      todo := todo - {k};
    }
    assert taken == held.Values;
    for i := 0 to |reserved|
      invariant taken == held.Values + Present(reserved[..i])
    {
      assert reserved[..i + 1] == reserved[..i] + [reserved[i]];
      if reserved[i].Some? {
        taken := taken + {reserved[i].value};
      }
    }
    assert reserved[..|reserved|] == reserved;
    if kind.Connector? {
      r := HighestFree(p, taken);
    } else {
      r := LowestFree(p, taken);
    }
    SearchUnique(p, taken, r);
  }
}
