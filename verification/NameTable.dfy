/** The router's table, built from what the hub says each connector carries. */
module NameTable {
  import opened Wrappers
  import opened Netip
  import opened Text
  import opened Membership
  import RouteTable
  import DnsRouter

  const SUFFIX := "robinet"
  const CERT_SUFFIX := "instance"

  /** Some route of the table goes through this address and is of this family. */
  predicate Carried(routes: seq<RouteTable.Route>, via: Option<Addr>, f: Family) {
    exists i :: 0 <= i < |routes| && routes[i].via == via && routes[i].prefix.addr.fam == f
  }

  function Zone(domain: string): string {
    var z := Lower(TrimSpace(domain));
    if z == DnsRouter.ROOT then z else TrimSuffix(z, ".")
  }

  function Replaced(s: string, c: char, d: char): (r: string)
    ensures |r| == |s| && forall i :: 0 <= i < |s| ==> r[i] == if s[i] == c then d else s[i]
  {
    seq(|s|, i requires 0 <= i < |s| => if s[i] == c then d else s[i])
  }

  /** A connector without a name is called by its address, written as one label. */
  function CalledBy(r: RouteTable.Resolver, text: Addr -> string): string
    requires r.via.Some?
  {
    if r.connector == "" then Replaced(Replaced(text(r.via.value), '.', '-'), ':', '-') else r.connector
  }

  function SpaceOf(r: RouteTable.Resolver, instance: string, text: Addr -> string): string
    requires r.via.Some?
  {
    Lower(CalledBy(r, text) + "." + instance + "." + SUFFIX)
  }

  function Entry(routes: seq<RouteTable.Route>, r: RouteTable.Resolver, instance: string, text: Addr -> string): DnsRouter.Route
    requires r.via.Some?
  {
    DnsRouter.Route(SpaceOf(r, instance, text), Zone(r.domain), r.via.value,
                    Carried(routes, r.via, F4), Carried(routes, r.via, F6))
  }

  function Entries(routes: seq<RouteTable.Route>, resolvers: seq<RouteTable.Resolver>, instance: string, text: Addr -> string)
    : seq<DnsRouter.Route>
  {
    if resolvers == [] then []
    else
      var last := |resolvers| - 1;
      Entries(routes, resolvers[..last], instance, text)
      + (if resolvers[last].via.Some? then [Entry(routes, resolvers[last], instance, text)] else [])
  }

  function LighthouseEntry(lighthouse: Option<Addr>, instance: string): seq<DnsRouter.Route> {
    if lighthouse.None? then []
    else
      var name := Lower(instance + "." + CERT_SUFFIX);
      [DnsRouter.Route(name, name, lighthouse.value, true, true)]
  }

  datatype Families = Families(v4: bool, v6: bool)

  /** The first loop: which families go through each address. */
  method CarriedBy(routes: seq<RouteTable.Route>) returns (carries: map<Option<Addr>, Families>)
    ensures forall via :: (via in carries && carries[via].v4) <==> Carried(routes, via, F4)
    ensures forall via :: (via in carries && carries[via].v6) <==> Carried(routes, via, F6)
  {
    carries := map[];
    for i := 0 to |routes|
      invariant forall via :: (via in carries && carries[via].v4) <==> Carried(routes[..i], via, F4)
      invariant forall via :: (via in carries && carries[via].v6) <==> Carried(routes[..i], via, F6)
    {
      var via := routes[i].via;
      var c := if via in carries then carries[via] else Families(false, false);
      CarriedOneMore(routes, i);
      if routes[i].prefix.addr.fam.F4? {
        c := c.(v4 := true);
      } else {
        c := c.(v6 := true);
      }
      carries := carries[via := c];
    }
    assert routes[..|routes|] == routes;
  }

  lemma CarriedOneMore(routes: seq<RouteTable.Route>, i: nat)
    requires i < |routes|
    ensures forall via, f :: Carried(routes[..i + 1], via, f) <==>
              Carried(routes[..i], via, f) || (routes[i].via == via && routes[i].prefix.addr.fam == f)
  {
    var a, b := routes[..i], routes[..i + 1];
    forall via, f: Family
      ensures Carried(b, via, f) <==> Carried(a, via, f) || (routes[i].via == via && routes[i].prefix.addr.fam == f)
    {
      if Carried(a, via, f) {
        var j :| 0 <= j < |a| && a[j].via == via && a[j].prefix.addr.fam == f;
        assert b[j] == a[j];
      }
      if Carried(b, via, f) {
        var j :| 0 <= j < |b| && b[j].via == via && b[j].prefix.addr.fam == f;
        assert j < i ==> a[j] == b[j];
      }
      if routes[i].via == via && routes[i].prefix.addr.fam == f {
        assert b[i] == routes[i];
      }
    }
  }

  method TableFor(routes: seq<RouteTable.Route>, resolvers: seq<RouteTable.Resolver>, lighthouse: Option<Addr>,
                  instance: string, text: Addr -> string)
    returns (out: seq<DnsRouter.Route>)
    ensures out == Entries(routes, resolvers, instance, text) + LighthouseEntry(lighthouse, instance)
  {
    var carries := CarriedBy(routes);
    out := [];
    for i := 0 to |resolvers|
      invariant out == Entries(routes, resolvers[..i], instance, text)
    {
      assert resolvers[..i + 1][..i] == resolvers[..i];
      var r := resolvers[i];
      if r.via.Some? {
        var connector := r.connector;
        if connector == "" {
          connector := Replaced(text(r.via.value), '.', '-');
          connector := Replaced(connector, ':', '-');
        }
        var zone := Lower(TrimSpace(r.domain));
        if zone != DnsRouter.ROOT {
          zone := TrimSuffix(zone, ".");
        }
        var c := if r.via in carries then carries[r.via] else Families(false, false);
        out := out + [DnsRouter.Route(Lower(connector + "." + instance + "." + SUFFIX), zone, r.via.value, c.v4, c.v6)];
      }
    }
    assert resolvers[..|resolvers|] == resolvers;
    if lighthouse.Some? {
      var name := Lower(instance + "." + CERT_SUFFIX);
      out := out + [DnsRouter.Route(name, name, lighthouse.value, true, true)];
    }
  }

  predicate IsFolded(e: DnsRouter.Route) {
    IsLower(e.virt) && IsLower(e.zone)
  }

  lemma EntryIsFolded(routes: seq<RouteTable.Route>, r: RouteTable.Resolver, instance: string, text: Addr -> string)
    requires r.via.Some?
    ensures IsFolded(Entry(routes, r, instance, text))
  {
    LowerIdempotent(TrimSpace(r.domain));
    LowerIdempotent(CalledBy(r, text) + "." + instance + "." + SUFFIX);
  }

  lemma {:induction false} EntriesAreFolded(
    routes: seq<RouteTable.Route>, resolvers: seq<RouteTable.Resolver>, instance: string, text: Addr -> string, e: DnsRouter.Route)
    requires e in Entries(routes, resolvers, instance, text)
    ensures IsFolded(e)
  {
    var last := |resolvers| - 1;
    if e in Entries(routes, resolvers[..last], instance, text) {
      EntriesAreFolded(routes, resolvers[..last], instance, text, e);
    } else {
      EntryIsFolded(routes, resolvers[last], instance, text);
    }
  }

  /** Name spaces and zones are folded, which is what the rewritings rely on. */
  lemma TableIsLower(
    routes: seq<RouteTable.Route>, resolvers: seq<RouteTable.Resolver>, lighthouse: Option<Addr>, instance: string,
    text: Addr -> string, e: DnsRouter.Route)
    requires e in Entries(routes, resolvers, instance, text) + LighthouseEntry(lighthouse, instance)
    ensures IsLower(e.virt) && IsLower(e.zone)
  {
    if e in Entries(routes, resolvers, instance, text) {
      EntriesAreFolded(routes, resolvers, instance, text, e);
    } else {
      LowerIdempotent(instance + "." + CERT_SUFFIX);
    }
  }

  // ----- The flags are the connector's own -----

  /** Two connectors with an IPv4 address are two addresses. */
  lemma ConnectorByAddress(s: State, j: string, k: string)
    requires Inv(s) && j in s.members && k in s.members
    requires s.members[j].kind.Connector? && s.members[k].kind.Connector?
    requires s.members[j].addrs.v4.Some? && s.members[j].addrs.v4 == s.members[k].addrs.v4
    ensures j == k
  {
    assert HoldsBoth(s.net, j, s.members[j].addrs) && HoldsBoth(s.net, k, s.members[k].addrs);
    assert AllocInv(s.net, F4);
  }

  /** A route through a connector's address is one of that connector's own. */
  lemma RouteIsOwn(s: State, k: string, route: RouteTable.Route)
    requires Inv(s) && k in s.members && RouteTable.Carries(s.members[k]) && s.members[k].addrs.v4.Some?
    requires route.via == s.members[k].addrs.v4
    ensures route in RouteTable.Routes(s) <==> route in RouteTable.RouteSeq(s.members[k])
  {
    RouteTable.SumMembership(s.members, RouteTable.RoutesOfMember, route);
    if route in RouteTable.Routes(s) {
      var j :| j in s.members && route in RouteTable.RoutesOfMember(s.members[j]);
      assert route in RouteTable.RouteSeq(s.members[j]);
      assert route.via == s.members[j].addrs.v4;
      ConnectorByAddress(s, j, k);
    }
    if route in RouteTable.RouteSeq(s.members[k]) {
      assert route in RouteTable.RoutesOfMember(s.members[k]);
    }
  }

  /**
   A connector that is not banned and has an IPv4 address is marked for a family
   exactly when one of its own routes is of that family.
   */
  lemma FlagsAreOwn(s: State, k: string, routes: seq<RouteTable.Route>, f: Family)
    requires Inv(s) && k in s.members && RouteTable.Carries(s.members[k]) && s.members[k].addrs.v4.Some?
    requires multiset(routes) == RouteTable.Routes(s)
    ensures var m := s.members[k];
            Carried(routes, m.addrs.v4, f) <==> exists i :: 0 <= i < |m.routes| && m.routes[i].addr.fam == f
  {
    var m := s.members[k];
    var own := RouteTable.RouteSeq(m);
    if Carried(routes, m.addrs.v4, f) {
      var i :| 0 <= i < |routes| && routes[i].via == m.addrs.v4 && routes[i].prefix.addr.fam == f;
      assert routes[i] in multiset(routes);
      RouteIsOwn(s, k, routes[i]);
      var j :| 0 <= j < |own| && own[j] == routes[i];
      assert m.routes[j].addr.fam == f;
    }
    if i :| 0 <= i < |m.routes| && m.routes[i].addr.fam == f {
      assert own[i] in own && own[i].via == m.addrs.v4;
      RouteIsOwn(s, k, own[i]);
      assert own[i] in multiset(routes);
      var j :| 0 <= j < |routes| && routes[j] == own[i];
    }
  }

  /** Its entry is in the table, with those flags. */
  lemma {:induction false} EntryIsThere(
    routes: seq<RouteTable.Route>, resolvers: seq<RouteTable.Resolver>, r: RouteTable.Resolver, instance: string, text: Addr -> string)
    requires r in resolvers && r.via.Some?
    ensures Entry(routes, r, instance, text) in Entries(routes, resolvers, instance, text)
  {
    var last := |resolvers| - 1;
    if resolvers[last] == r {
    } else {
      assert resolvers == resolvers[..last] + [resolvers[last]];
      EntryIsThere(routes, resolvers[..last], r, instance, text);
    }
  }

  /** From the hub's members to the router: a connector with a zone is resolvable, with the flags of its own routes. */
  lemma ConnectorIsResolvable(
    s: State, k: string, routes: seq<RouteTable.Route>, resolvers: seq<RouteTable.Resolver>, instance: string, text: Addr -> string)
    requires Inv(s) && k in s.members && RouteTable.Carries(s.members[k]) && s.members[k].addrs.v4.Some?
    requires s.members[k].domain != ""
    requires multiset(routes) == RouteTable.Routes(s) && multiset(resolvers) == RouteTable.Resolvers(s)
    ensures var m := s.members[k];
            var r := RouteTable.Resolver(m.domain, m.addrs.v4, m.addrs.v6, m.name);
            var e := Entry(routes, r, instance, text);
            && e in Entries(routes, resolvers, instance, text)
            && (e.ipv4 <==> exists i :: 0 <= i < |m.routes| && m.routes[i].addr.fam.F4?)
            && (e.ipv6 <==> exists i :: 0 <= i < |m.routes| && m.routes[i].addr.fam.F6?)
  {
    var m := s.members[k];
    var r := RouteTable.Resolver(m.domain, m.addrs.v4, m.addrs.v6, m.name);
    assert r in RouteTable.ResolverOfMember(m);
    RouteTable.SumMembership(s.members, RouteTable.ResolverOfMember, r);
    assert r in multiset(resolvers);
    EntryIsThere(routes, resolvers, r, instance, text);
    FlagsAreOwn(s, k, routes, F4);
    FlagsAreOwn(s, k, routes, F6);
  }

  // ----- From a question to the connector that answers it -----

  ghost function Table(routes: seq<RouteTable.Route>, resolvers: seq<RouteTable.Resolver>, lighthouse: Option<Addr>,
                       instance: string, text: Addr -> string): seq<DnsRouter.Route>
  {
    Entries(routes, resolvers, instance, text) + LighthouseEntry(lighthouse, instance)
  }

  lemma LowerFour(a: string, b: string)
    ensures Lower(a + "." + b + "." + SUFFIX) == Lower(a) + "." + Lower(b) + ".robinet"
  {
    LowerConcat(a + "." + b, "." + SUFFIX);
    LowerConcat(a + ".", b);
    LowerConcat(a, ".");
    assert a + "." + b + "." + SUFFIX == (a + "." + b) + ("." + SUFFIX);
    assert Lower("." + SUFFIX) == ".robinet" && Lower(".") == ".";
    assert Lower(a) + "." + Lower(b) + ".robinet" == (Lower(a) + "." + Lower(b)) + ".robinet";
  }

  /** What a zone is written as: any letter case, white space around it, with or without its last dot. */
  ghost predicate Zoned(domain: string, zone: string) {
    || (zone == "." && Spells(domain, "."))
    || (Tight(zone) && zone[|zone| - 1] != '.' && (Spells(domain, zone) || Spells(domain, zone + ".")))
  }

  lemma NoLastDot(zone: string)
    requires zone != "" && zone[|zone| - 1] != '.'
    ensures TrimSuffix(zone, ".") == zone && TrimSuffix(zone + ".", ".") == zone && zone + "." != "." && zone != "."
  {
    assert zone[|zone| - 1..] == [zone[|zone| - 1]];
    SuffixOfConcat(zone, ".");
    assert |zone + "."| > 1;
  }

  lemma ZoneIs(domain: string, zone: string)
    requires Zoned(domain, zone)
    ensures Zone(domain) == zone && domain != ""
  {
    if zone == "." {
      SpellingFolds(domain, ".");
    } else {
      NoLastDot(zone);
      if Spells(domain, zone) {
        SpellingFolds(domain, zone);
      } else {
        DottedIsTight(zone);
        SpellingFolds(domain, zone + ".");
      }
    }
  }

  lemma DottedIsTight(zone: string)
    requires Tight(zone)
    ensures Tight(zone + ".")
  {
  }

  lemma {:induction false} EntryOf(
    routes: seq<RouteTable.Route>, resolvers: seq<RouteTable.Resolver>, instance: string, text: Addr -> string, e: DnsRouter.Route)
    returns (r: RouteTable.Resolver)
    requires e in Entries(routes, resolvers, instance, text)
    ensures r in resolvers && r.via.Some? && e == Entry(routes, r, instance, text)
  {
    var last := |resolvers| - 1;
    if e in Entries(routes, resolvers[..last], instance, text) {
      r := EntryOf(routes, resolvers[..last], instance, text, e);
    } else {
      r := resolvers[last];
    }
  }

  /** A resolver at a connector's address is that connector's own. */
  lemma ResolverIsOwn(s: State, k: string, r: RouteTable.Resolver)
    requires Inv(s) && k in s.members && s.members[k].kind.Connector? && s.members[k].addrs.v4.Some?
    requires r in RouteTable.Resolvers(s) && r.via == s.members[k].addrs.v4
    ensures var m := s.members[k]; r == RouteTable.Resolver(m.domain, m.addrs.v4, m.addrs.v6, m.name)
  {
    RouteTable.SumMembership(s.members, RouteTable.ResolverOfMember, r);
    var j :| j in s.members && r in RouteTable.ResolverOfMember(s.members[j]);
    ConnectorByAddress(s, j, k);
  }

  lemma LighthouseIsElsewhere(s: State, k: string)
    requires Inv(s) && k in s.members && s.members[k].kind.Connector? && s.members[k].addrs.v4.Some?
    ensures s.net.lighthouse.v4 != s.members[k].addrs.v4
  {
    assert HoldsBoth(s.net, k, s.members[k].addrs) && AllocInv(s.net, F4);
    assert s.members[k].addrs.v4.value in s.net.alloc.v4.Values;
  }

  /** Whatever goes to a connector's address in the table is its own entry. */
  lemma OwnEntry(s: State, k: string, routes: seq<RouteTable.Route>, resolvers: seq<RouteTable.Resolver>,
                 instance: string, text: Addr -> string, e: DnsRouter.Route)
    requires Inv(s) && k in s.members && RouteTable.Carries(s.members[k]) && s.members[k].addrs.v4.Some?
    requires multiset(resolvers) == RouteTable.Resolvers(s)
    requires e in Table(routes, resolvers, s.net.lighthouse.v4, instance, text) && Some(e.via) == s.members[k].addrs.v4
    ensures var m := s.members[k];
            e == Entry(routes, RouteTable.Resolver(m.domain, m.addrs.v4, m.addrs.v6, m.name), instance, text)
  {
    LighthouseIsElsewhere(s, k);
    var r := EntryOf(routes, resolvers, instance, text, e);
    assert r in multiset(resolvers);
    ResolverIsOwn(s, k, r);
  }

  /** Nothing that matches at least as long as a name space goes anywhere else. */
  ghost predicate Uncontested(table: seq<DnsRouter.Route>, question: string, length: nat, via: Option<Addr>) {
    forall e :: e in table && DnsRouter.Under(Normal(question), e.virt) && |e.virt| >= length ==> Some(e.via) == via
  }

  lemma MatchedTo(table: seq<DnsRouter.Route>, question: string, e: DnsRouter.Route, via: Option<Addr>)
    requires e in table && DnsRouter.Under(Normal(question), e.virt) && Uncontested(table, question, |e.virt|, via)
    ensures var b := DnsRouter.Best(table, question); b.Some? && b.value in table && Some(b.value.via) == via
  {
    DnsRouter.BestIsLongest(table, question);
  }

  /** The name a connector's own entry has, in full. */
  lemma SpaceInFull(name: string, r: RouteTable.Resolver, instance: string, text: Addr -> string)
    requires r.via.Some? && r.connector == name && name != ""
    ensures SpaceOf(r, instance, text) == Lower(name) + "." + Lower(instance) + ".robinet"
  {
    LowerFour(name, instance);
  }

  lemma UnderSpace(labels: string, space: string)
    ensures DnsRouter.Under(labels + "." + space, space)
  {
    assert labels + "." + space == labels + ("." + space);
    SuffixOfConcat(labels, "." + space);
  }

  /**
   From the hub's members to what is asked upstream. A connector that is not banned,
   with an IPv4 address, a name and a zone, is asked every question under
   name.instance.robinet, in any letter case and with or without the last dot, unless
   something as long goes elsewhere. It is asked for the same labels in its zone, or for
   the labels alone where names carry no suffix, and it answers for the families of its
   own routes.
   */
  lemma ConnectorIsAsked(s: State, k: string, routes: seq<RouteTable.Route>, resolvers: seq<RouteTable.Resolver>,
                         instance: string, text: Addr -> string, question: string, labels: string, zone: string)
    requires Inv(s) && k in s.members && RouteTable.Carries(s.members[k]) && s.members[k].addrs.v4.Some?
    requires s.members[k].name != "" && Zoned(s.members[k].domain, zone)
    requires multiset(routes) == RouteTable.Routes(s) && multiset(resolvers) == RouteTable.Resolvers(s)
    requires Normal(question) == labels + "." + (Lower(s.members[k].name) + "." + Lower(instance) + ".robinet")
    requires Uncontested(Table(routes, resolvers, s.net.lighthouse.v4, instance, text), question,
                         |Lower(s.members[k].name) + "." + Lower(instance) + ".robinet"|, s.members[k].addrs.v4)
    ensures var m := s.members[k];
            var b := DnsRouter.Best(Table(routes, resolvers, s.net.lighthouse.v4, instance, text), question);
            && b.Some? && Some(b.value.via) == m.addrs.v4
            && DnsRouter.Rewrite(b.value, question) == (if zone == "." then labels + "." else labels + "." + zone + ".")
            && (b.value.ipv4 <==> exists i :: 0 <= i < |m.routes| && m.routes[i].addr.fam.F4?)
            && (b.value.ipv6 <==> exists i :: 0 <= i < |m.routes| && m.routes[i].addr.fam.F6?)
  {
    var m, table := s.members[k], Table(routes, resolvers, s.net.lighthouse.v4, instance, text);
    var r := RouteTable.Resolver(m.domain, m.addrs.v4, m.addrs.v6, m.name);
    var e := Entry(routes, r, instance, text);
    ZoneIs(m.domain, zone);
    SpaceInFull(m.name, r, instance, text);
    ConnectorIsResolvable(s, k, routes, resolvers, instance, text);
    UnderSpace(labels, e.virt);
    MatchedTo(table, question, e, m.addrs.v4);
    OwnEntry(s, k, routes, resolvers, instance, text, DnsRouter.Best(table, question).value);
    DnsRouter.RewriteLabels(e, question, labels);
  }

  /** A connector without a name goes by its address, with dashes for its dots and colons, which is one label. */
  lemma NamelessIsOneLabel(r: RouteTable.Resolver, instance: string, text: Addr -> string)
    requires r.via.Some? && r.connector == ""
    ensures var address := text(r.via.value);
            && |CalledBy(r, text)| == |address|
            && (forall i :: 0 <= i < |address| ==>
                  CalledBy(r, text)[i] == if address[i] == '.' || address[i] == ':' then '-' else address[i])
            && '.' !in CalledBy(r, text)
            && SpaceOf(r, instance, text) == Lower(CalledBy(r, text)) + "." + Lower(instance) + ".robinet"
  {
    LowerFour(CalledBy(r, text), instance);
  }

  // ----- The lighthouse -----

  lemma {:induction false} EntriesEnd(
    routes: seq<RouteTable.Route>, resolvers: seq<RouteTable.Resolver>, instance: string, text: Addr -> string, e: DnsRouter.Route)
    requires e in Entries(routes, resolvers, instance, text)
    ensures e.virt != "" && e.virt[|e.virt| - 1] == 't'
  {
    var r := EntryOf(routes, resolvers, instance, text, e);
    LowerFour(CalledBy(r, text), instance);
  }

  lemma EndOfSpace(name: string, space: string)
    requires DnsRouter.Under(name, space) && space != ""
    ensures name != "" && name[|name| - 1] == space[|space| - 1]
  {
    if name != space {
      var tail := name[|name| - |"." + space|..];
      assert tail == "." + space;
      assert tail[|tail| - 1] == name[|name| - 1];
    }
  }

  lemma LowerInstance(instance: string)
    ensures Lower(instance + "." + CERT_SUFFIX) == Lower(instance) + ".instance"
  {
    assert instance + "." + CERT_SUFFIX == instance + ("." + CERT_SUFFIX);
    LowerConcat(instance, "." + CERT_SUFFIX);
    assert Lower("." + CERT_SUFFIX) == ".instance";
  }

  function LighthouseRoute(lighthouse: Addr, instance: string): DnsRouter.Route {
    var name := Lower(instance) + ".instance";
    DnsRouter.Route(name, name, lighthouse, true, true)
  }

  lemma LighthouseIsLast(routes: seq<RouteTable.Route>, resolvers: seq<RouteTable.Resolver>, lighthouse: Addr,
                         instance: string, text: Addr -> string)
    ensures Table(routes, resolvers, Some(lighthouse), instance, text)
         == Entries(routes, resolvers, instance, text) + [LighthouseRoute(lighthouse, instance)]
  {
    LowerInstance(instance);
  }

  lemma NoConnectorUnder(routes: seq<RouteTable.Route>, resolvers: seq<RouteTable.Resolver>, instance: string,
                         text: Addr -> string, name: string, e: DnsRouter.Route)
    requires e in Entries(routes, resolvers, instance, text) && name != "" && name[|name| - 1] != 't'
    ensures !DnsRouter.Under(name, e.virt)
  {
    EntriesEnd(routes, resolvers, instance, text, e);
    if DnsRouter.Under(name, e.virt) {
      EndOfSpace(name, e.virt);
    }
  }

  lemma LighthouseIsBest(routes: seq<RouteTable.Route>, resolvers: seq<RouteTable.Resolver>, lighthouse: Addr,
                         instance: string, text: Addr -> string, question: string)
    requires DnsRouter.Under(Normal(question), Lower(instance) + ".instance")
    ensures DnsRouter.Best(Table(routes, resolvers, Some(lighthouse), instance, text), question)
         == Some(LighthouseRoute(lighthouse, instance))
  {
    var table, e := Table(routes, resolvers, Some(lighthouse), instance, text), LighthouseRoute(lighthouse, instance);
    LighthouseIsLast(routes, resolvers, lighthouse, instance, text);
    EndOfSpace(Normal(question), e.virt);
    assert e in table;
    DnsRouter.BestIsLongest(table, question);
    var b := DnsRouter.Best(table, question).value;
    if b in Entries(routes, resolvers, instance, text) {
      NoConnectorUnder(routes, resolvers, instance, text, Normal(question), b);
    }
  }

  /**
   The lighthouse is asked every question under instance.instance, as it stands, and
   answers for both families; no connector's name space ever gets in its way.
   */
  lemma LighthouseIsAsked(routes: seq<RouteTable.Route>, resolvers: seq<RouteTable.Resolver>, lighthouse: Addr,
                          instance: string, text: Addr -> string, question: string, labels: string)
    requires Normal(question) == labels + "." + (Lower(instance) + ".instance")
    ensures var b := DnsRouter.Best(Table(routes, resolvers, Some(lighthouse), instance, text), question);
            && b.Some? && b.value.via == lighthouse && b.value.ipv4 && b.value.ipv6
            && DnsRouter.Rewrite(b.value, question) == Normal(question) + "."
  {
    var name := Lower(instance) + ".instance";
    UnderSpace(labels, name);
    LighthouseIsBest(routes, resolvers, lighthouse, instance, text, question);
    DnsRouter.RewriteLabels(LighthouseRoute(lighthouse, instance), question, labels);
    assert |name| > 1;
    assert labels + "." + name + "." == Normal(question) + ".";
  }
}
