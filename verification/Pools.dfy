/**
 Whole runs of one address pool: who fits, where, and that nothing moves. A run
 is a sequence of keys asking for an address, none of which is ever given back.
 */
module Pools {
  import opened Wrappers
  import opened Netip
  import opened Ipam

  datatype Ask = Ask(key: string, kind: Kind)

  /** What is held, and the kind each key had when its address was first given. */
  datatype Book = Book(held: map<string, Addr>, kinds: map<string, Kind>)

  function Enter(b: Book, ask: Ask, pick: Option<Addr>): Book {
    match pick
    case None => b
    case Some(a) => Book(b.held[ask.key := a], if ask.key in b.held then b.kinds else b.kinds[ask.key := ask.kind])
  }

  ghost function Serve(p: Prefix, reserved: set<Addr>, b: Book, ask: Ask): Book {
    Enter(b, ask, Pick(p, b.held, ask.key, ask.kind, reserved))
  }

  ghost function ServeAll(p: Prefix, reserved: set<Addr>, asks: seq<Ask>): Book {
    if asks == [] then Book(map[], map[])
    else Serve(p, reserved, ServeAll(p, reserved, asks[..|asks| - 1]), asks[|asks| - 1])
  }

  // ----- Capacity -----

  function UsableSet(p: Prefix): (s: set<Addr>)
    ensures forall a :: a in s <==> Usable(p, a)
  {
    if !p.Valid() then {}
    else
      set n: nat | FirstUsable(p) <= n <= LastUsable(p) :: Addr(p.addr.fam, n)
  }

  /** Every address of the prefix but the network address, and but the IPv4 broadcast address. */
  lemma UsableCount(p: Prefix)
    requires p.Valid()
    ensures |UsableSet(p)| == (if p.addr.fam.F4? && p.bits < 31 then p.Span() - 2 else p.Span() - 1)
  {
    if p.addr.fam.F4? && p.bits < 31 {
      Bits.Pow2Monotone(1, 32 - p.bits);
      assert Bits.Pow2(1) == 2;
    }
    var s := set n: nat | FirstUsable(p) <= n < LastUsable(p) + 1 :: Addr(p.addr.fam, n);
    assert UsableSet(p) == s;
    IntervalCount(p.addr.fam, FirstUsable(p), LastUsable(p) + 1);
  }

  lemma {:induction false} IntervalCount(f: Family, lo: nat, hi: nat)
    requires lo <= hi
    ensures |set n: nat | lo <= n < hi :: Addr(f, n)| == hi - lo
    decreases hi - lo
  {
    var s := set n: nat | lo <= n < hi :: Addr(f, n);
    if lo == hi {
      assert s == {};
    } else {
      IntervalCount(f, lo, hi - 1);
      var t := set n: nat | lo <= n < hi - 1 :: Addr(f, n);
      assert s == t + {Addr(f, hi - 1)};
    }
  }

  ghost predicate Injective(held: map<string, Addr>) {
    forall j, k :: j in held && k in held && held[j] == held[k] ==> j == k
  }

  lemma {:induction false} InjectiveCount(held: map<string, Addr>)
    requires Injective(held)
    ensures |held.Values| == |held|
    decreases |held|
  {
    if held == map[] {
    } else {
      var k :| k in held;
      var rest := map j | j in held && j != k :: held[j];
      assert held == rest[k := held[k]];
      ValuesOfUpdate(rest, k, held[k]);
      InjectiveCount(rest);
      assert held[k] !in rest.Values;
    }
  }

  lemma ValuesOfUpdate(held: map<string, Addr>, key: string, a: Addr)
    requires key !in held
    ensures held[key := a].Values == held.Values + {a}
  {
    var u := held[key := a];
    assert forall k :: k in held ==> k in u && u[k] == held[k];
    assert u[key] == a;
  }

  /** One address per key, all usable, none reserved. */
  ghost predicate Sound(p: Prefix, reserved: set<Addr>, held: map<string, Addr>) {
    Injective(held) && held.Values <= UsableSet(p) - reserved
  }

  /** Counting alone: an unheld element of the room is there exactly while the room is not full. */
  lemma RoomStep(room: set<Addr>, held: map<string, Addr>, key: string, pick: Option<Addr>)
    requires Injective(held) && held.Values <= room && key !in held
    requires if pick.Some? then pick.value in room - held.Values else room <= held.Values
    ensures |held| <= |room|
    ensures pick.Some? <==> |held| < |room|
    ensures pick.Some? ==> Injective(held[key := pick.value]) && held[key := pick.value].Values <= room
  {
    InjectiveCount(held);
    SubsetCount(held.Values, room);
    if pick.None? {
      assert room == held.Values;
    } else {
      ValuesOfUpdate(held, key, pick.value);
      SubsetCount(held.Values + {pick.value}, room);
    }
  }

  /** A fresh key is given an unheld address of the room, and none only when there is none. */
  lemma PickFromRoom(p: Prefix, reserved: set<Addr>, held: map<string, Addr>, key: string, kind: Kind)
    requires key !in held
    ensures var pick, room := Pick(p, held, key, kind, reserved), UsableSet(p) - reserved;
            if pick.Some? then pick.value in room - held.Values else room <= held.Values
  {
    var pick, taken := Pick(p, held, key, kind, reserved), held.Values + reserved;
    if pick.Some? {
      assert Free(p, taken, pick.value);
    } else {
      forall a | a in UsableSet(p) - reserved
        ensures a in held.Values
      {
        assert !Free(p, taken, a);
      }
    }
  }

  /** A key without an address is given one exactly while the pool holds fewer than it has room for. */
  lemma FreshKeyFits(p: Prefix, reserved: set<Addr>, held: map<string, Addr>, key: string, kind: Kind)
    requires Sound(p, reserved, held) && key !in held
    ensures |held| <= |UsableSet(p) - reserved|
    ensures Pick(p, held, key, kind, reserved).Some? <==> |held| < |UsableSet(p) - reserved|
    ensures Pick(p, held, key, kind, reserved).Some? ==>
              Sound(p, reserved, held[key := Pick(p, held, key, kind, reserved).value])
  {
    PickFromRoom(p, reserved, held, key, kind);
    RoomStep(UsableSet(p) - reserved, held, key, Pick(p, held, key, kind, reserved));
  }

  lemma {:induction false} SubsetCount<T>(s: set<T>, t: set<T>)
    requires s <= t
    ensures |s| <= |t|
    decreases s
  {
    if s == {} {
    } else {
      var x :| x in s;
      SubsetCount(s - {x}, t - {x});
    }
  }

  ghost function Asking(asks: seq<Ask>): set<string> {
    set i | 0 <= i < |asks| :: asks[i].key
  }

  lemma AskingOneMore(asks: seq<Ask>)
    requires asks != []
    ensures Asking(asks) == Asking(asks[..|asks| - 1]) + {asks[|asks| - 1].key}
  {
    var before := asks[..|asks| - 1];
    forall k | k in Asking(asks)
      ensures k in Asking(before) + {asks[|asks| - 1].key}
    {
      var i :| 0 <= i < |asks| && asks[i].key == k;
      assert i < |before| ==> before[i].key == k;
    }
    forall k | k in Asking(before)
      ensures k in Asking(asks)
    {
      var i :| 0 <= i < |before| && before[i].key == k;
      assert asks[i].key == k;
    }
  }

  lemma ServeStep(p: Prefix, reserved: set<Addr>, b: Book, asked: set<string>, ask: Ask, room: set<Addr>)
    requires room == UsableSet(p) - reserved && Served(room, b, asked)
    ensures Served(room, Serve(p, reserved, b, ask), asked + {ask.key})
  {
    if ask.key !in b.held {
      PickFromRoom(p, reserved, b.held, ask.key, ask.kind);
    }
    EnterKeepsServed(room, b, asked, ask, Pick(p, b.held, ask.key, ask.kind, reserved));
  }

  /** What every state of a run keeps: sound, and either everybody who asked was served or it is full. */
  ghost predicate Served(room: set<Addr>, b: Book, asked: set<string>) {
    && Injective(b.held)
    && b.held.Values <= room
    && b.held.Keys == b.kinds.Keys <= asked
    && (b.held.Keys == asked || |b.held| == |room|)
  }

  lemma EnterKeepsServed(room: set<Addr>, b: Book, asked: set<string>, ask: Ask, pick: Option<Addr>)
    requires Served(room, b, asked)
    requires ask.key in b.held ==> pick == Some(b.held[ask.key])
    requires ask.key !in b.held ==> if pick.Some? then pick.value in room - b.held.Values else room <= b.held.Values
    ensures Served(room, Enter(b, ask, pick), asked + {ask.key})
  {
    if ask.key in b.held {
      assert Enter(b, ask, pick).held == b.held;
      assert asked + {ask.key} == asked;
    } else {
      RoomStep(room, b.held, ask.key, pick);
    }
  }

  lemma {:induction false} ServeAllServed(p: Prefix, reserved: set<Addr>, asks: seq<Ask>)
    ensures Served(UsableSet(p) - reserved, ServeAll(p, reserved, asks), Asking(asks))
  {
    var room := UsableSet(p) - reserved;
    if asks == [] {
    } else {
      var before, ask := asks[..|asks| - 1], asks[|asks| - 1];
      ServeAllServed(p, reserved, before);
      ServeStep(p, reserved, ServeAll(p, reserved, before), Asking(before), ask, room);
      AskingOneMore(asks);
    }
  }

  /**
   Any interleaving of tenants and connectors fits exactly as many keys as there
   are usable addresses that are not reserved: the ends meet without a gap and
   without an overlap.
   */
  lemma FitsExactly(p: Prefix, reserved: set<Addr>, asks: seq<Ask>)
    ensures var held, room := ServeAll(p, reserved, asks).held, |UsableSet(p) - reserved|;
            && Sound(p, reserved, held)
            && held.Keys <= Asking(asks)
            && |held| == (if |Asking(asks)| <= room then |Asking(asks)| else room)
  {
    ServeAllServed(p, reserved, asks);
    var held := ServeAll(p, reserved, asks).held;
    InjectiveCount(held);
    SubsetCount(held.Values, UsableSet(p) - reserved);
    SubsetCount(held.Keys, Asking(asks));
    assert |held.Keys| == |held|;
  }

  /** Once a key holds an address it holds that address in every later state. */
  lemma {:induction false} Sticky(p: Prefix, reserved: set<Addr>, asks: seq<Ask>, i: nat)
    requires i <= |asks|
    ensures var early, late := ServeAll(p, reserved, asks[..i]), ServeAll(p, reserved, asks);
            forall k :: k in early.held ==> k in late.held && late.held[k] == early.held[k]
    decreases |asks|
  {
    if i == |asks| {
      assert asks[..i] == asks;
    } else {
      assert asks[..|asks| - 1][..i] == asks[..i];
      Sticky(p, reserved, asks[..|asks| - 1], i);
    }
  }

  // ----- One low segment, one high segment -----

  /** The taken usable addresses are those below lo and those above hi. */
  ghost predicate Segmented(p: Prefix, taken: set<Addr>, lo: int, hi: int) {
    && p.Valid()
    && FirstUsable(p) <= lo <= hi + 1 <= LastUsable(p) + 1
    && forall a: Addr :: Usable(p, a) ==> (a in taken <==> a.n < lo || a.n > hi)
  }

  /** Connectors sit in the high segment and everybody else in the low one. */
  ghost predicate Banded(b: Book, lo: int, hi: int) {
    && b.held.Keys == b.kinds.Keys
    && forall k :: k in b.held ==> if b.kinds[k].Connector? then b.held[k].n > hi else b.held[k].n < lo
  }

  lemma EndsOfGap(p: Prefix, taken: set<Addr>, lo: int, hi: int)
    requires Segmented(p, taken, lo, hi)
    ensures LeastFree(p, taken) == (if lo <= hi then Some(Addr(p.addr.fam, lo)) else None)
    ensures GreatestFree(p, taken) == (if lo <= hi then Some(Addr(p.addr.fam, hi)) else None)
  {
    if lo <= hi {
      assert Free(p, taken, Addr(p.addr.fam, lo));
      assert Free(p, taken, Addr(p.addr.fam, hi));
    }
  }

  lemma SegmentGrows(p: Prefix, taken: set<Addr>, a: Addr, lo: int, hi: int, lo': int, hi': int)
    requires Segmented(p, taken, lo, hi) && lo <= hi && a.fam == p.addr.fam
    requires (a.n == lo && lo' == lo + 1 && hi' == hi) || (a.n == hi && lo' == lo && hi' == hi - 1)
    ensures Segmented(p, taken + {a}, lo', hi')
  {
  }

  lemma BandGrows(b: Book, ask: Ask, a: Addr, lo: int, hi: int, lo': int, hi': int)
    requires Banded(b, lo, hi) && ask.key !in b.held && lo <= lo' && hi' <= hi
    requires if ask.kind.Connector? then a.n > hi' else a.n < lo'
    ensures Banded(Enter(b, ask, Some(a)), lo', hi')
  {
  }

  /** One request keeps the two segments, growing at most one of them by one address. */
  lemma ServeSegments(p: Prefix, reserved: set<Addr>, b: Book, ask: Ask, lo: int, hi: int) returns (lo': int, hi': int)
    requires Segmented(p, b.held.Values + reserved, lo, hi) && Banded(b, lo, hi)
    ensures var b' := Serve(p, reserved, b, ask);
            Segmented(p, b'.held.Values + reserved, lo', hi') && Banded(b', lo', hi')
    ensures lo <= lo' && hi' <= hi
  {
    lo', hi' := lo, hi;
    EndsOfGap(p, b.held.Values + reserved, lo, hi);
    if ask.key in b.held {
      assert Serve(p, reserved, b, ask).held == b.held;
    } else if lo <= hi {
      lo', hi' := if ask.kind.Connector? then lo else lo + 1, if ask.kind.Connector? then hi - 1 else hi;
      var a := Addr(p.addr.fam, if ask.kind.Connector? then hi else lo);
      SegmentGrows(p, b.held.Values + reserved, a, lo, hi, lo', hi');
      BandGrows(b, ask, a, lo, hi, lo', hi');
      ValuesOfUpdate(b.held, ask.key, a);
      assert Enter(b, ask, Some(a)).held.Values + reserved == b.held.Values + reserved + {a};
    }
  }

  /** In every run each tenant address lies below each connector address. */
  lemma {:induction false} TenantsBelowConnectors(p: Prefix, reserved: set<Addr>, asks: seq<Ask>, lo: int, hi: int)
    returns (lo': int, hi': int)
    requires Segmented(p, reserved, lo, hi)
    ensures var b := ServeAll(p, reserved, asks);
            && Segmented(p, b.held.Values + reserved, lo', hi')
            && Banded(b, lo', hi')
            && forall j, k :: j in b.held && k in b.held && !b.kinds[j].Connector? && b.kinds[k].Connector? ==>
                 b.held[j].n < b.held[k].n
  {
    if asks == [] {
      var b := ServeAll(p, reserved, asks);
      assert b.held.Values + reserved == reserved;
      lo', hi' := lo, hi;
    } else {
      var before := asks[..|asks| - 1];
      lo', hi' := TenantsBelowConnectors(p, reserved, before, lo, hi);
      lo', hi' := ServeSegments(p, reserved, ServeAll(p, reserved, before), asks[|asks| - 1], lo', hi');
    }
  }
}
