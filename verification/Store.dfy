/** The hub's instances: their names, their overlays and ports, and how one is found. */
module Store {
  import opened Wrappers
  import opened Netip
  import opened Ipam
  import opened Overlays
  import opened Text

  // ----- Names -----

  const MAX_NAME := 63

  predicate NameChar(c: char) {
    'a' <= c <= 'z' || '0' <= c <= '9' || c == '-'
  }

  predicate HexChar(c: char) {
    '0' <= c <= '9' || 'a' <= c <= 'f'
  }

  predicate IsHex(s: string) {
    forall i :: 0 <= i < |s| ==> HexChar(s[i])
  }

  /** Instance identifiers are sixteen hex characters. */
  predicate IsId(s: string) {
    |s| == 16 && IsHex(s)
  }

  /** How a reference is folded before names are compared. */
  function Folded(ref: string): string {
    Lower(TrimSpace(ref))
  }

  /** The one name a text is a spelling of, if it is one: capitals and white space around it do not matter. */
  method ParseName(raw: string) returns (r: Option<string>)
    ensures forall name :: r == Some(name) <==> IsName(name) && Spells(raw, name)
  {
    SpellingsOf(raw);
    var name := Lower(TrimSpace(raw));
    if name == "" || |name| > MAX_NAME || name[0] == '-' || name[|name| - 1] == '-' {
      return None;
    }
    for i := 0 to |name|
      invariant forall j :: 0 <= j < i ==> NameChar(name[j])
    {
      if !NameChar(name[i]) {
        return None;
      }
    }
    if |name| == 16 && IsHex(name) {
      return None;
    }
    return Some(name);
  }

  /** A DNS label that cannot be taken for an identifier. */
  predicate IsName(s: string) {
    && 1 <= |s| <= MAX_NAME
    && s[0] != '-' && s[|s| - 1] != '-'
    && (forall i :: 0 <= i < |s| ==> NameChar(s[i]))
    && !IsId(s)
  }

  lemma NameIsTight(name: string)
    requires IsName(name)
    ensures Tight(name)
  {
    assert NameChar(name[0]) && NameChar(name[|name| - 1]);
  }

  /**
   What a name is, at its edges: one to sixty-three letters, digits and hyphens, no
   hyphen first or last, and not what an identifier looks like.
   */
  lemma NamesAre(s: string)
    ensures |s| == 0 || |s| > 63 ==> !IsName(s)
    ensures s != "" && (s[0] == '-' || s[|s| - 1] == '-') ==> !IsName(s)
    ensures (exists i :: 0 <= i < |s| && !('a' <= s[i] <= 'z') && !('0' <= s[i] <= '9') && s[i] != '-') ==> !IsName(s)
    ensures |s| == 16 && (forall i :: 0 <= i < 16 ==> '0' <= s[i] <= '9' || 'a' <= s[i] <= 'f') ==> !IsName(s)
    ensures (&& 1 <= |s| <= 63
             && (forall i :: 0 <= i < |s| ==> 'a' <= s[i] <= 'z' || '0' <= s[i] <= '9' || (s[i] == '-' && 0 < i < |s| - 1))
             && (|s| != 16 || exists i :: 0 <= i < 16 && ('g' <= s[i] <= 'z' || s[i] == '-')))
            ==> IsName(s)
  {
  }

  /** A text spells exactly the name it folds to. */
  lemma SpellingsOf(ref: string)
    ensures forall name :: IsName(name) && Spells(ref, name) <==> IsName(name) && name == Folded(ref)
  {
    FoldingIsSpelled(ref);
    forall name | IsName(name) && Spells(ref, name)
      ensures name == Folded(ref)
    {
      NameIsTight(name);
      SpellingFolds(ref, name);
    }
  }

  /** An identifier folds to itself, so it is never a spelling of a name. */
  lemma IdFoldsToItself(s: string)
    requires IsId(s)
    ensures Folded(s) == s
  {
    assert HexChar(s[0]) && HexChar(s[15]);
    assert TrimLeft(s) == s && TrimRight(s) == s;
    LowerIdempotent(s);
  }

  // ----- The store -----

  datatype Site = Site(name: string, overlay: Prefix, overlay6: Option<Prefix>, port: int)

  datatype LookupError = NotFound | Ambiguous

  function Named(sites: map<string, Site>, name: string): set<string> {
    set id | id in sites && sites[id].name == name
  }

  ghost predicate NamesUnique(sites: map<string, Site>) {
    forall i, j :: i in sites && j in sites && sites[i].name == sites[j].name ==> i == j
  }

  ghost predicate WellNamed(sites: map<string, Site>) {
    NamesUnique(sites) && forall id :: id in sites ==> IsId(id) && IsName(sites[id].name)
  }

  function Added(sites: map<string, Site>, id: string, site: Site): map<string, Site> {
    if id in sites || Named(sites, site.name) != {} then sites else sites[id := site]
  }

  function Removed(sites: map<string, Site>, id: string): map<string, Site> {
    map i | i in sites && i != id :: sites[i]
  }

  /** An identifier wins; a name resolves when exactly one instance has it. */
  ghost function Resolved(sites: map<string, Site>, ref: string): Result<string, LookupError> {
    if ref in sites then Ok(ref)
    else if Named(sites, Folded(ref)) == {} then Err(NotFound)
    else if id :| Named(sites, Folded(ref)) == {id} then Ok(id)
    else Err(Ambiguous)
  }

  class Store {
    var sites: map<string, Site>

    constructor ()
      ensures sites == map[]
    {
      sites := map[];
    }

    /** The whole check and the insertion are one critical section. */
    method Add(id: string, site: Site) returns (ok: bool)
      modifies this
      ensures sites == Added(old(sites), id, site)
      ensures forall i :: i in old(sites) ==> i in sites && sites[i] == old(sites)[i]
      ensures sites.Keys == if ok then old(sites).Keys + {id} else old(sites).Keys
      ensures ok ==> sites[id] == site
      ensures ok <==> id !in old(sites) && Named(old(sites), site.name) == {}
    {
      if id in sites {
        return false;
      }
      var todo := sites.Keys;
      while todo != {}
        invariant todo <= sites.Keys
        invariant forall i :: i in sites && i !in todo ==> sites[i].name != site.name
        decreases todo
      {
        var i :| i in todo;
        if sites[i].name == site.name {
          assert i in Named(sites, site.name);
          return false;
        }
        todo := todo - {i};
      }
      assert Named(sites, site.name) == {};
      sites := sites[id := site];
      return true;
    }

    method Remove(id: string) returns (ok: bool)
      modifies this
      ensures ok <==> id in old(sites)
      ensures sites == Removed(old(sites), id)
      ensures sites.Keys == old(sites).Keys - {id}
      ensures forall i :: i in sites ==> sites[i] == old(sites)[i]
    {
      if id !in sites {
        assert Removed(sites, id) == sites;
        return false;
      }
      sites := map i | i in sites && i != id :: sites[i];
      return true;
    }

    /** The loop stops at the second match, whichever order the map is walked in. */
    method Resolve(ref: string) returns (r: Result<string, LookupError>)
      ensures r == Resolved(sites, ref)
    {
      if ref in sites {
        return Ok(ref);
      }
      var name := Lower(TrimSpace(ref));
      var found: Option<string> := None;
      var todo := sites.Keys;
      while todo != {}
        invariant todo <= sites.Keys
        invariant Named(sites, name) - todo == (if found.Some? then {found.value} else {})
        decreases todo
      {
        var i :| i in todo;
        todo := todo - {i};
        if sites[i].name == name {
          assert i in Named(sites, name);
          if found.Some? {
            assert found.value in Named(sites, name) && found.value != i;
            return Err(Ambiguous);
          }
          found := Some(i);
        }
      }
      assert Named(sites, name) - {} == Named(sites, name);
      if found.None? {
        return Err(NotFound);
      }
      return Ok(found.value);
    }

    method UsedOverlays() returns (used: set<Prefix>)
      ensures used == Overlays4(sites)
    {
      used := {};
      var todo := sites.Keys;
      while todo != {}
        invariant todo <= sites.Keys
        invariant used == set i | i in sites && i !in todo :: sites[i].overlay
        decreases todo
      {
        var i :| i in todo;
        used := used + {sites[i].overlay};
        todo := todo - {i};
      }
    }

    method UsedOverlays6() returns (used: set<Prefix>)
      ensures used == Overlays6(sites)
    {
      used := {};
      var todo := sites.Keys;
      while todo != {}
        invariant todo <= sites.Keys
        invariant used == set i | i in sites && i !in todo && sites[i].overlay6.Some? :: sites[i].overlay6.value
        decreases todo
      {
        var i :| i in todo;
        if sites[i].overlay6.Some? {
          used := used + {sites[i].overlay6.value};
        }
        todo := todo - {i};
      }
    }

    method UsedPorts() returns (used: set<int>)
      ensures used == Ports(sites)
    {
      used := {};
      var todo := sites.Keys;
      while todo != {}
        invariant todo <= sites.Keys
        invariant used == set i | i in sites && i !in todo :: sites[i].port
        decreases todo
      {
        var i :| i in todo;
        used := used + {sites[i].port};
        todo := todo - {i};
      }
    }

    /** Picks everything an instance needs from what the store holds at the time. */
    method Prepare(cfg: Config, name: string) returns (r: Option<Reserved>)
      requires Sane(cfg)
      ensures r.Some? ==> r.value.site.name == name && Offers(cfg, sites, r.value.site) && r.value.Fresh()
      ensures r == None <==> Exhausted(cfg, sites)
    {
      var used := UsedOverlays();
      var four := Carve(cfg.pools, used);
      var ports := UsedPorts();
      var port := FreePort(cfg, ports);
      if four.None? || port.None? {
        assert Exhausted(cfg, sites);
        return None;
      }
      assert !CannotCarve(cfg.pools, Overlays4(sites)) && LowestPort(cfg, sites, port.value);
      var (overlay, lighthouse, tenant) := four.value;
      if cfg.pools6 == [] {
        return Some(Reserved(Site(name, overlay, None, port.value), lighthouse, tenant, None, None));
      }
      var used6 := UsedOverlays6();
      var six := Carve(cfg.pools6, used6);
      if six.None? {
        assert Exhausted(cfg, sites);
        return None;
      }
      var (overlay6, lighthouse6, tenant6) := six.value;
      return Some(Reserved(Site(name, overlay, Some(overlay6), port.value), lighthouse, tenant,
                           Some(lighthouse6), Some(tenant6)));
    }

    /** Creation as one step: nothing is stored unless all of it could be had. */
    method CreateInstance(cfg: Config, id: string, name: string) returns (r: Option<Reserved>)
      requires Sane(cfg)
      modifies this
      ensures SerialStep(cfg, old(sites), sites)
      ensures r == None <==> Exhausted(cfg, old(sites)) || id in old(sites) || Named(old(sites), name) != {}
      ensures r == None ==> sites == old(sites)
      ensures r.Some? ==>
                && id !in old(sites)
                && Named(old(sites), name) == {}
                && sites == old(sites)[id := r.value.site]
                && r.value.site.name == name
                && Offers(cfg, old(sites), r.value.site)
                && r.value.Fresh()
    {
      r := Prepare(cfg, name);
      if r.None? {
        return;
      }
      var ok := Add(id, r.value.site);
      if !ok {
        return None;
      }
    }
  }

  /** An overlay of the first pool with room, and its two reserved addresses. */
  method Carve(pools: seq<Pool>, used: set<Prefix>) returns (r: Option<(Prefix, Addr, Addr)>)
    requires forall i :: 0 <= i < |pools| ==> pools[i].prefix.Valid()
    ensures r.Some? ==> FirstChoice(pools, used, r.value.0) && FirstTwo(r.value.0, r.value.1, r.value.2)
    ensures r == None <==> CannotCarve(pools, used)
  {
    var overlay := AllocateOverlay(pools, used);
    if overlay.Err? {
      match overlay.error {
        case NoPool => assert FullBefore(pools, used, 0);
        case BadSize(i) => assert FullBefore(pools, used, i);
        case Full => assert FullBefore(pools, used, |pools|);
      }
      return None;
    }
    var kept := Reserve(overlay.value);
    if kept.None? {
      assert FirstChoice(pools, used, overlay.value) && Cramped(overlay.value);
      return None;
    }
    ChoiceIsTheOnly(pools, used, overlay.value);
    return Some((overlay.value, kept.value.0, kept.value.1));
  }

  /** A stored instance and the addresses it starts with. */
  datatype Reserved = Reserved(
    site: Site, lighthouse: Addr, tenant: Addr, lighthouse6: Option<Addr>, tenant6: Option<Addr>)
  {
    /** The lighthouse has the lowest usable address of each overlay and the owner the next. */
    ghost predicate Fresh() {
      && FirstTwo(site.overlay, lighthouse, tenant)
      && (match site.overlay6
          case None => lighthouse6 == None && tenant6 == None
          case Some(p) => lighthouse6.Some? && tenant6.Some? && FirstTwo(p, lighthouse6.value, tenant6.value))
    }
  }

  method Reserve(p: Prefix) returns (r: Option<(Addr, Addr)>)
    ensures r.Some? ==> FirstTwo(p, r.value.0, r.value.1)
    ensures r == None <==> Cramped(p)
  {
    var first := LowestFree(p, {});
    if first.None? {
      forall a: Addr
        ensures !Usable(p, a)
      {
        assert !Free(p, {}, a);
      }
      return None;
    }
    var second := LowestFree(p, {first.value});
    if second.None? {
      forall a: Addr | Usable(p, a)
        ensures a == first.value
      {
        assert !Free(p, {first.value}, a);
      }
      return None;
    }
    return Some((first.value, second.value));
  }

  function Overlays4(sites: map<string, Site>): set<Prefix> {
    set i | i in sites :: sites[i].overlay
  }

  function Overlays6(sites: map<string, Site>): set<Prefix> {
    set i | i in sites && sites[i].overlay6.Some? :: sites[i].overlay6.value
  }

  function Ports(sites: map<string, Site>): set<int> {
    set i | i in sites :: sites[i].port
  }

  // ----- Names over every history of the store -----

  /** One critical section: an insertion, whoever prepared it and when, or a removal. */
  datatype StoreOp = AddOp(id: string, site: Site) | RemoveOp(id: string)

  ghost predicate Proper(op: StoreOp) {
    op.AddOp? ==> IsId(op.id) && IsName(op.site.name)
  }

  function Applied(sites: map<string, Site>, op: StoreOp): map<string, Site> {
    match op
    case AddOp(id, site) => Added(sites, id, site)
    case RemoveOp(id) => Removed(sites, id)
  }

  function Built(ops: seq<StoreOp>): map<string, Site> {
    if ops == [] then map[] else Applied(Built(ops[..|ops| - 1]), ops[|ops| - 1])
  }

  lemma {:induction false} BuiltWellNamed(ops: seq<StoreOp>)
    requires forall i :: 0 <= i < |ops| ==> Proper(ops[i])
    ensures WellNamed(Built(ops))
  {
    if ops == [] {
    } else {
      var before, op := Built(ops[..|ops| - 1]), ops[|ops| - 1];
      BuiltWellNamed(ops[..|ops| - 1]);
      if op.AddOp? && Named(before, op.site.name) == {} {
        assert forall i :: i in before ==> before[i].name != op.site.name by {
          forall i | i in before ensures before[i].name != op.site.name {
            assert i !in Named(before, op.site.name);
          }
        }
      }
    }
  }

  /** In a well-named store every instance is found by its identifier and by every spelling of its name. */
  lemma ResolveFinds(sites: map<string, Site>, id: string, ref: string)
    requires WellNamed(sites) && id in sites && (ref == id || Folded(ref) == sites[id].name)
    ensures Resolved(sites, ref) == Ok(id)
  {
    if ref != id {
      if ref in sites {
        IdFoldsToItself(ref);
        assert false;
      }
      assert Named(sites, Folded(ref)) == {id};
    }
  }

  /** A reference means an instance: it is its identifier, or a spelling of its name. */
  ghost predicate Refers(sites: map<string, Site>, ref: string, id: string) {
    id in sites && (ref == id || Spells(ref, sites[id].name))
  }

  lemma RefersByFolding(sites: map<string, Site>, ref: string, id: string)
    requires WellNamed(sites) && id in sites
    ensures Refers(sites, ref, id) <==> ref == id || Folded(ref) == sites[id].name
  {
    SpellingsOf(ref);
  }

  /**
   Over every history of insertions and removals, interleaved in any way: names stay
   unique, and a lookup gives exactly the one instance the reference means, never an
   ambiguous one, and nothing exactly when it means none.
   */
  lemma NamesAlwaysResolve(ops: seq<StoreOp>, id: string, ref: string)
    requires forall i :: 0 <= i < |ops| ==> Proper(ops[i])
    ensures NamesUnique(Built(ops))
    ensures Resolved(Built(ops), ref) == Ok(id) <==> Refers(Built(ops), ref, id)
    ensures Resolved(Built(ops), ref).Ok? || Resolved(Built(ops), ref) == Err(NotFound)
  {
    BuiltWellNamed(ops);
    var sites := Built(ops);
    if id in sites {
      RefersByFolding(sites, ref, id);
      if Refers(sites, ref, id) {
        ResolveFinds(sites, id, ref);
      }
    }
    if k :| k in Named(sites, Folded(ref)) {
      ResolveFinds(sites, k, ref);
    }
  }

  // ----- Overlays over every serial run -----

  datatype Config = Config(pools: seq<Pool>, pools6: seq<Pool>, portMin: int, portMax: int)

  ghost predicate Sane(cfg: Config) {
    && PoolsApart(cfg.pools)
    && PoolsApart(cfg.pools6)
    && (forall i :: 0 <= i < |cfg.pools| ==> cfg.pools[i].prefix.Valid())
    && (forall i :: 0 <= i < |cfg.pools6| ==> cfg.pools6[i].prefix.Valid())
  }

  /** The lowest free slice of the first pool that has one. */
  ghost predicate FirstChoice(pools: seq<Pool>, taken: set<Prefix>, q: Prefix) {
    exists i: nat :: i < |pools| && FullBefore(pools, taken, i) && IsLowestFree(pools[i], taken, q)
  }

  /** Every pool is full, up to the end of the list or to the first one with an impossible size. */
  ghost predicate NoRoom(pools: seq<Pool>, taken: set<Prefix>) {
    exists i: nat :: FullBefore(pools, taken, i) && (i == |pools| || !pools[i].Fits())
  }

  /** There are not two usable addresses in it. */
  ghost predicate Cramped(p: Prefix) {
    forall a: Addr, b: Addr :: Usable(p, a) && Usable(p, b) ==> a == b
  }

  /** No pool has room, or the first choice is too small; pools after it are not tried. */
  ghost predicate CannotCarve(pools: seq<Pool>, taken: set<Prefix>) {
    NoRoom(pools, taken) || exists q :: FirstChoice(pools, taken, q) && Cramped(q)
  }

  ghost predicate Exhausted(cfg: Config, sites: map<string, Site>) {
    || CannotCarve(cfg.pools, Overlays4(sites))
    || (forall p :: cfg.portMin <= p <= cfg.portMax ==> p in Ports(sites))
    || (cfg.pools6 != [] && CannotCarve(cfg.pools6, Overlays6(sites)))
  }

  lemma SameSlice(pool: Pool, taken: set<Prefix>, q: Prefix, o: Prefix)
    requires IsLowestFree(pool, taken, q) && IsLowestFree(pool, taken, o)
    ensures q == o
  {
    assert q.addr.n == o.addr.n && q.addr.fam == pool.prefix.addr.fam == o.addr.fam;
  }

  /** There is one first choice, and where there is one there is room. */
  lemma ChoiceIsTheOnly(pools: seq<Pool>, taken: set<Prefix>, q: Prefix)
    requires FirstChoice(pools, taken, q)
    ensures !NoRoom(pools, taken) && forall o :: FirstChoice(pools, taken, o) ==> o == q
  {
    var i: nat :| i < |pools| && FullBefore(pools, taken, i) && IsLowestFree(pools[i], taken, q);
    assert !PoolFull(pools[i], taken);
    forall o | FirstChoice(pools, taken, o)
      ensures o == q
    {
      var j: nat :| j < |pools| && FullBefore(pools, taken, j) && IsLowestFree(pools[j], taken, o);
      assert !PoolFull(pools[j], taken);
      SameSlice(pools[i], taken, q, o);
    }
  }

  ghost predicate LowestPort(cfg: Config, sites: map<string, Site>, port: int) {
    && cfg.portMin <= port <= cfg.portMax
    && port !in Ports(sites)
    && forall p :: cfg.portMin <= p < port ==> p in Ports(sites)
  }

  /** What a creation that gets as far as the store asks it to hold. */
  ghost predicate Offers(cfg: Config, sites: map<string, Site>, site: Site) {
    && FirstChoice(cfg.pools, Overlays4(sites), site.overlay)
    && LowestPort(cfg, sites, site.port)
    && (if cfg.pools6 == [] then site.overlay6 == None
        else site.overlay6.Some? && FirstChoice(cfg.pools6, Overlays6(sites), site.overlay6.value))
  }

  /** One serial step: a creation taken as a whole, a refusal, or a deletion. */
  ghost predicate SerialStep(cfg: Config, before: map<string, Site>, after: map<string, Site>) {
    || after == before
    || (exists id, site :: Offers(cfg, before, site) && after == Added(before, id, site))
    || (exists id :: after == Removed(before, id))
  }

  ghost predicate Apart(cfg: Config, sites: map<string, Site>) {
    && (forall i :: i in sites ==> Carved(cfg.pools, sites[i].overlay))
    && (forall i :: i in sites && sites[i].overlay6.Some? ==> Carved(cfg.pools6, sites[i].overlay6.value))
    && (forall i, j :: i in sites && j in sites && i != j ==>
          && sites[i].port != sites[j].port
          && sites[i].overlay != sites[j].overlay
          && (sites[i].overlay6.Some? ==> sites[i].overlay6 != sites[j].overlay6))
  }

  /** Nothing it asks for is held by anybody. */
  ghost predicate Unclaimed(sites: map<string, Site>, site: Site) {
    forall i :: i in sites ==>
      && sites[i].port != site.port
      && sites[i].overlay != site.overlay
      && (site.overlay6.Some? ==> sites[i].overlay6 != site.overlay6)
  }

  lemma AddKeepsApart(cfg: Config, sites: map<string, Site>, id: string, site: Site)
    requires Apart(cfg, sites) && Unclaimed(sites, site) && id !in sites
    requires Carved(cfg.pools, site.overlay) && (site.overlay6.Some? ==> Carved(cfg.pools6, site.overlay6.value))
    ensures Apart(cfg, sites[id := site])
  {
    var more := sites[id := site];
    forall i, j | i in more && j in more && i != j
      ensures more[i].port != more[j].port && more[i].overlay != more[j].overlay
      ensures more[i].overlay6.Some? ==> more[i].overlay6 != more[j].overlay6
    {
      assert i != id ==> more[i] == sites[i];
      assert j != id ==> more[j] == sites[j];
    }
  }

  lemma RemoveKeepsApart(cfg: Config, sites: map<string, Site>, id: string)
    requires Apart(cfg, sites)
    ensures Apart(cfg, Removed(sites, id))
  {
  }

  lemma StepKeepsApart(cfg: Config, before: map<string, Site>, after: map<string, Site>)
    requires Apart(cfg, before) && SerialStep(cfg, before, after)
    ensures Apart(cfg, after)
  {
    if after == before {
    } else if id :| after == Removed(before, id) {
      RemoveKeepsApart(cfg, before, id);
    } else {
      var id, site :| Offers(cfg, before, site) && after == Added(before, id, site);
      OfferIsNew(cfg, before, site);
      AddKeepsApart(cfg, before, id, site);
    }
  }

  lemma OfferIsNew(cfg: Config, sites: map<string, Site>, site: Site)
    requires Offers(cfg, sites, site)
    ensures Carved(cfg.pools, site.overlay)
    ensures site.overlay6.Some? ==> Carved(cfg.pools6, site.overlay6.value)
    ensures Unclaimed(sites, site)
  {
    forall i | i in sites
      ensures sites[i].port != site.port
      ensures sites[i].overlay != site.overlay
      ensures site.overlay6.Some? ==> sites[i].overlay6 != site.overlay6
    {
      assert sites[i].port in Ports(sites);
      assert sites[i].overlay in Overlays4(sites);
      if sites[i].overlay6.Some? {
        assert sites[i].overlay6.value in Overlays6(sites);
      }
    }
  }

  /** Live overlays share no address: distinct slices of pools that do not overlap. */
  lemma ApartIsDisjoint(cfg: Config, sites: map<string, Site>, i: string, j: string)
    requires Sane(cfg) && Apart(cfg, sites) && i in sites && j in sites && i != j
    ensures Disjoint(sites[i].overlay, sites[j].overlay)
    ensures sites[i].overlay6.Some? && sites[j].overlay6.Some? ==>
              Disjoint(sites[i].overlay6.value, sites[j].overlay6.value)
  {
    CarvedDisjoint(cfg.pools, sites[i].overlay, sites[j].overlay);
    if sites[i].overlay6.Some? && sites[j].overlay6.Some? {
      CarvedDisjoint(cfg.pools6, sites[i].overlay6.value, sites[j].overlay6.value);
    }
  }

  ghost predicate SerialRun(cfg: Config, states: seq<map<string, Site>>) {
    && states != []
    && states[0] == map[]
    && forall n :: 0 <= n < |states| - 1 ==> SerialStep(cfg, states[n], states[n + 1])
  }

  lemma {:induction false} RunKeepsApart(cfg: Config, states: seq<map<string, Site>>, n: nat)
    requires Sane(cfg) && SerialRun(cfg, states) && n < |states|
    ensures Apart(cfg, states[n])
  {
    if n == 0 {
    } else {
      RunKeepsApart(cfg, states, n - 1);
      StepKeepsApart(cfg, states[n - 1], states[n]);
    }
  }

  /** In every state of every serial run, live overlays are pairwise disjoint and ports distinct. */
  lemma LiveOverlaysDisjoint(cfg: Config, states: seq<map<string, Site>>, n: nat, i: string, j: string)
    requires Sane(cfg) && SerialRun(cfg, states) && n < |states| && i in states[n] && j in states[n] && i != j
    ensures Disjoint(states[n][i].overlay, states[n][j].overlay)
    ensures states[n][i].overlay6.Some? && states[n][j].overlay6.Some? ==>
              Disjoint(states[n][i].overlay6.value, states[n][j].overlay6.value)
    ensures states[n][i].port != states[n][j].port
  {
    RunKeepsApart(cfg, states, n);
    ApartIsDisjoint(cfg, states[n], i, j);
  }

  // ----- Creating an instance -----

  method FreePort(cfg: Config, used: set<int>) returns (r: Option<int>)
    ensures r.Some? ==> cfg.portMin <= r.value <= cfg.portMax && r.value !in used
                        && forall p :: cfg.portMin <= p < r.value ==> p in used
    ensures r == None ==> forall p :: cfg.portMin <= p <= cfg.portMax ==> p in used
  {
    var p := cfg.portMin;
    while p <= cfg.portMax
      invariant forall q :: cfg.portMin <= q < p ==> q in used
      decreases cfg.portMax - p
    {
      if p !in used {
        return Some(p);
      }
      p := p + 1;
    }
    return None;
  }
}
