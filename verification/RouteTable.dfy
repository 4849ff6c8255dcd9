/** What every member reads from the hub: routes, resolvers, and refused certificates. */
module RouteTable {
  import opened Wrappers
  import opened Netip
  import opened Membership
  import opened Sorting

  datatype Route = Route(prefix: Prefix, via: Option<Addr>, connector: string)

  datatype Resolver = Resolver(domain: string, via: Option<Addr>, via6: Option<Addr>, connector: string)

  // ----- What one member contributes -----

  predicate Carries(m: Member) {
    m.kind.Connector? && !m.Banned()
  }

  function RouteSeq(m: Member): seq<Route> {
    seq(|m.routes|, i requires 0 <= i < |m.routes| => Route(m.routes[i], m.addrs.v4, m.name))
  }

  function RoutesOfMember(m: Member): multiset<Route> {
    if Carries(m) then multiset(RouteSeq(m)) else multiset{}
  }

  function ResolverOfMember(m: Member): multiset<Resolver> {
    if Carries(m) && m.domain != "" then multiset{Resolver(m.domain, m.addrs.v4, m.addrs.v6, m.name)} else multiset{}
  }

  function BlockedOfMember(m: Member): multiset<string> {
    if m.Banned() && m.cert != "" then multiset{m.cert} else multiset{}
  }

  // ----- Sums over the members, in no particular order -----

  ghost function Sum<T>(ms: map<string, Member>, f: Member -> multiset<T>): multiset<T>
    decreases |ms|
  {
    if ms == map[] then multiset{}
    else
      var k :| k in ms;
      assert |Without(ms, k)| < |ms| by { SmallerWithout(ms, k); }
      f(ms[k]) + Sum(Without(ms, k), f)
  }

  lemma SmallerWithout(ms: map<string, Member>, k: string)
    requires k in ms
    ensures |Without(ms, k)| == |ms| - 1
  {
    assert Without(ms, k).Keys == ms.Keys - {k};
  }

  /** Any member can be taken out first: the order of the walk does not matter. */
  lemma {:induction false} SumSplit<T>(ms: map<string, Member>, f: Member -> multiset<T>, k: string)
    requires k in ms
    ensures Sum(ms, f) == f(ms[k]) + Sum(Without(ms, k), f)
    decreases |ms|
  {
    var j :| j in ms && Sum(ms, f) == f(ms[j]) + Sum(Without(ms, j), f);
    if j != k {
      SmallerWithout(ms, j);
      SmallerWithout(ms, k);
      SumSplit(Without(ms, j), f, k);
      SumSplit(Without(ms, k), f, j);
      assert Without(Without(ms, j), k) == Without(Without(ms, k), j);
    }
  }

  /** Replacing one member changes the sum by that member's part only. */
  lemma SumUpdate<T>(ms: map<string, Member>, f: Member -> multiset<T>, k: string, m: Member)
    requires k in ms
    ensures Sum(ms[k := m], f) + f(ms[k]) == Sum(ms, f) + f(m)
  {
    SumSplit(ms, f, k);
    SumSplit(ms[k := m], f, k);
    assert Without(ms[k := m], k) == Without(ms, k);
  }

  lemma SumInsert<T>(ms: map<string, Member>, f: Member -> multiset<T>, k: string, m: Member)
    requires k !in ms
    ensures Sum(ms[k := m], f) == Sum(ms, f) + f(m)
  {
    SumSplit(ms[k := m], f, k);
    assert Without(ms[k := m], k) == ms;
  }

  ghost function Routes(s: State): multiset<Route> {
    Sum(s.members, RoutesOfMember)
  }

  ghost function Resolvers(s: State): multiset<Resolver> {
    Sum(s.members, ResolverOfMember)
  }

  function BurnedBag(burned: seq<Burned>): multiset<string> {
    if burned == [] then multiset{}
    else BurnedBag(burned[..|burned| - 1])
         + (if burned[|burned| - 1].cert != "" then multiset{burned[|burned| - 1].cert} else multiset{})
  }

  ghost function BlockedBag(s: State): multiset<string> {
    Sum(s.members, BlockedOfMember) + BurnedBag(s.burned)
  }

  // ----- The loops -----

  /** The inner loop: one route for every prefix a connector carries. */
  method RoutesFor(m: Member) returns (out: seq<Route>)
    ensures out == RouteSeq(m)
  {
    out := [];
    for i := 0 to |m.routes|
      invariant out == RouteSeq(m)[..i]
    {
      out := out + [Route(m.routes[i], m.addrs.v4, m.name)];
    }
  }

  method RoutesOf(members: map<string, Member>) returns (out: seq<Route>)
    ensures multiset(out) == Sum(members, RoutesOfMember)
  {
    out := [];
    var todo := members;
    while todo != map[]
      invariant multiset(out) + Sum(todo, RoutesOfMember) == Sum(members, RoutesOfMember)
      decreases |todo|
    {
      var k :| k in todo;
      var m := todo[k];
      SmallerWithout(todo, k);
      SumSplit(todo, RoutesOfMember, k);
      if m.kind.Connector? && !m.Banned() {
        var own := RoutesFor(m);
        out := out + own;
      }
      todo := Without(todo, k);
    }
  }

  method ResolversOf(members: map<string, Member>) returns (out: seq<Resolver>)
    ensures multiset(out) == Sum(members, ResolverOfMember)
  {
    out := [];
    var todo := members;
    while todo != map[]
      invariant multiset(out) + Sum(todo, ResolverOfMember) == Sum(members, ResolverOfMember)
      decreases |todo|
    {
      var k :| k in todo;
      var m := todo[k];
      SmallerWithout(todo, k);
      SumSplit(todo, ResolverOfMember, k);
      if m.kind.Connector? && !m.Banned() && m.domain != "" {
        out := out + [Resolver(m.domain, m.addrs.v4, m.addrs.v6, m.name)];
      }
      todo := Without(todo, k);
    }
  }

  method BlockedIn(members: map<string, Member>, burned: seq<Burned>) returns (out: seq<string>)
    ensures Sorted(out) && multiset(out) == Sum(members, BlockedOfMember) + BurnedBag(burned)
  {
    var banned := BannedCerts(members);
    var gone := BurnedCerts(burned);
    out := banned + gone;
    SortBag(out);
    out := Sort(out);
  }

  method BannedCerts(members: map<string, Member>) returns (out: seq<string>)
    ensures multiset(out) == Sum(members, BlockedOfMember)
  {
    out := [];
    var todo := members;
    while todo != map[]
      invariant multiset(out) + Sum(todo, BlockedOfMember) == Sum(members, BlockedOfMember)
      decreases |todo|
    {
      var k :| k in todo;
      var m := todo[k];
      SmallerWithout(todo, k);
      SumSplit(todo, BlockedOfMember, k);
      if m.Banned() && m.cert != "" {
        out := out + [m.cert];
      }
      todo := Without(todo, k);
    }
  }

  method BurnedCerts(burned: seq<Burned>) returns (out: seq<string>)
    ensures multiset(out) == BurnedBag(burned)
  {
    out := [];
    for i := 0 to |burned|
      invariant multiset(out) == BurnedBag(burned[..i])
    {
      assert burned[..i + 1][..i] == burned[..i];
      if burned[i].cert != "" {
        out := out + [burned[i].cert];
      }
    }
    assert burned[..|burned|] == burned;
  }

  // ----- The blocklist is a function of the state -----

  /** The list blockedIn answers with. */
  ghost function Blocklist(s: State): (l: seq<string>)
    ensures Sorted(l) && multiset(l) == BlockedBag(s)
  {
    BagHasList(BlockedBag(s));
    var l :| Sorted(l) && multiset(l) == BlockedBag(s);
    l
  }

  lemma {:induction false} BagHasList(b: multiset<string>)
    ensures exists l :: Sorted(l) && multiset(l) == b
    decreases |b|
  {
    if b == multiset{} {
      var l: seq<string> := [];
      assert Sorted(l) && multiset(l) == b;
    } else {
      var x :| x in b;
      BagHasList(b - multiset{x});
      var l :| Sorted(l) && multiset(l) == b - multiset{x};
      var r := Insert(x, l);
      InsertBag(x, l);
      assert Sorted(r) && multiset(r) == b;
    }
  }

  /** Whatever order the members were walked in, the answer is the same sequence. */
  lemma BlockedInIsDetermined(s: State, l: seq<string>)
    requires Sorted(l) && multiset(l) == Sum(s.members, BlockedOfMember) + BurnedBag(s.burned)
    ensures l == Blocklist(s)
  {
    SortedUnique(l, Blocklist(s));
  }

  lemma {:induction false} SumMembership<T>(ms: map<string, Member>, f: Member -> multiset<T>, x: T)
    ensures x in Sum(ms, f) <==> exists k :: k in ms && x in f(ms[k])
    decreases |ms|
  {
    if ms == map[] {
    } else {
      var k :| k in ms && Sum(ms, f) == f(ms[k]) + Sum(Without(ms, k), f);
      SmallerWithout(ms, k);
      SumMembership(Without(ms, k), f, x);
      var rest := Without(ms, k);
      if j :| j in ms && x in f(ms[j]) {
        assert j == k || (j in rest && rest[j] == ms[j]);
      }
      if j :| j in rest && x in f(rest[j]) {
        assert j in ms && ms[j] == rest[j];
      }
    }
  }

  ghost predicate CertBurned(burned: seq<Burned>, c: string) {
    exists i :: 0 <= i < |burned| && burned[i].cert == c
  }

  lemma CertBurnedLast(burned: seq<Burned>, c: string)
    requires burned != []
    ensures CertBurned(burned, c) <==> CertBurned(burned[..|burned| - 1], c) || burned[|burned| - 1].cert == c
  {
    var last := |burned| - 1;
    if i :| 0 <= i < |burned| && burned[i].cert == c {
      assert i < last ==> burned[..last][i].cert == c;
    }
    if i :| 0 <= i < last && burned[..last][i].cert == c {
      assert burned[i].cert == c;
    }
  }

  lemma {:induction false} BurnedMembership(burned: seq<Burned>, c: string)
    ensures c in BurnedBag(burned) <==> c != "" && CertBurned(burned, c)
  {
    if burned == [] {
    } else {
      BurnedMembership(burned[..|burned| - 1], c);
      CertBurnedLast(burned, c);
    }
  }

  /** The blocklist names exactly the blocked certificates. */
  lemma BlocklistIsBlocked(s: State, c: string)
    ensures c in Blocklist(s) <==> c in Blocked(s)
  {
    SumMembership(s.members, BlockedOfMember, c);
    BurnedMembership(s.burned, c);
    assert c in Blocklist(s) <==> c in multiset(Blocklist(s));
  }

  // ----- Ban, unban, remove -----

  function Marked(m: Member, e: Event): Member {
    m.(events := m.events + [e])
  }

  /** A decision about one member takes that member's part away, or adds it, and touches no other. */
  lemma MarkMoves<T>(s: State, k: string, e: Event, f: Member -> multiset<T>)
    requires k in s.members
    ensures var before, after := Sum(s.members, f), Sum(Mark(s, k, e).members, f);
            && (f(Marked(s.members[k], e)) == multiset{} ==> before == after + f(s.members[k]))
            && (f(s.members[k]) == multiset{} ==> after == before + f(Marked(s.members[k], e)))
  {
    SumUpdate(s.members, f, k, Marked(s.members[k], e));
  }

  /** Banning takes away exactly that member's routes and resolver. */
  lemma BanTakesRoutes(s: State, k: string)
    requires k in s.members && !s.members[k].Banned()
    ensures Routes(s) == Routes(Ban(s, k).0) + RoutesOfMember(s.members[k])
    ensures Resolvers(s) == Resolvers(Ban(s, k).0) + ResolverOfMember(s.members[k])
  {
    MarkMoves(s, k, BanEvent, RoutesOfMember);
    MarkMoves(s, k, BanEvent, ResolverOfMember);
  }

  function CertBag(m: Member): multiset<string> {
    if m.cert != "" then multiset{m.cert} else multiset{}
  }

  lemma Exchange<T>(a: multiset<T>, b: multiset<T>, c: multiset<T>)
    ensures (a + b) + c == (a + c) + b
  {
  }

  lemma CancelRight<T>(a: multiset<T>, b: multiset<T>, x: multiset<T>)
    requires a + x == b + x
    ensures a == b
  {
    assert x + a == a + x && x + b == b + x;
    Cancel(a, b, x);
  }

  /** Banning refuses exactly that member's certificate. */
  lemma BanBlocks(s: State, k: string)
    requires k in s.members && !s.members[k].Banned()
    ensures BlockedBag(Ban(s, k).0) == BlockedBag(s) + CertBag(s.members[k])
  {
    MarkMoves(s, k, BanEvent, BlockedOfMember);
    var m := s.members[k];
    assert BlockedOfMember(m) == multiset{} && BlockedOfMember(Marked(m, BanEvent)) == CertBag(m);
    assert Ban(s, k).0.burned == s.burned;
    Exchange(Sum(s.members, BlockedOfMember), CertBag(m), BurnedBag(s.burned));
  }

  /** Unbanning gives the member's routes and resolver back, and takes its certificate off the list. */
  lemma UnbanGivesRoutes(s: State, k: string)
    requires k in s.members && s.members[k].Banned()
    ensures Routes(Unban(s, k).0) == Routes(s) + RoutesOfMember(Marked(s.members[k], UnbanEvent))
    ensures Resolvers(Unban(s, k).0) == Resolvers(s) + ResolverOfMember(Marked(s.members[k], UnbanEvent))
  {
    MarkMoves(s, k, UnbanEvent, RoutesOfMember);
    MarkMoves(s, k, UnbanEvent, ResolverOfMember);
  }

  lemma UnbanUnblocks(s: State, k: string)
    requires k in s.members && s.members[k].Banned()
    ensures BlockedBag(s) == BlockedBag(Unban(s, k).0) + CertBag(s.members[k])
  {
    MarkMoves(s, k, UnbanEvent, BlockedOfMember);
    var m := s.members[k];
    assert BlockedOfMember(m) == CertBag(m) && BlockedOfMember(Marked(m, UnbanEvent)) == multiset{};
    assert Unban(s, k).0.burned == s.burned;
    Exchange(Sum(Unban(s, k).0.members, BlockedOfMember), CertBag(m), BurnedBag(s.burned));
  }

  /** Unbanning undoes the ban: everybody reads the routes and resolvers they read before it. */
  lemma UnbanRestoresRoutes(s: State, k: string)
    requires k in s.members && !s.members[k].Banned()
    ensures var t := Unban(Ban(s, k).0, k).0; Routes(t) == Routes(s) && Resolvers(t) == Resolvers(s)
  {
    var b := Ban(s, k).0;
    BanTakesRoutes(s, k);
    UnbanGivesRoutes(b, k);
    var m, u := s.members[k], Marked(b.members[k], UnbanEvent);
    assert RouteSeq(u) == RouteSeq(m);
  }

  lemma UnbanRestoresBlocklist(s: State, k: string)
    requires k in s.members && !s.members[k].Banned()
    ensures Blocklist(Unban(Ban(s, k).0, k).0) == Blocklist(s)
  {
    var b := Ban(s, k).0;
    var t := Unban(b, k).0;
    BanBlocks(s, k);
    UnbanUnblocks(b, k);
    assert CertBag(b.members[k]) == CertBag(s.members[k]);
    CancelRight(BlockedBag(t), BlockedBag(s), CertBag(s.members[k]));
    SortedUnique(Blocklist(t), Blocklist(s));
  }

  /** Removing a banned member changes nothing anybody reads. */
  lemma RemoveIsInvisible(s: State, k: string)
    requires k in s.members && RemoveMember(s, k).1 == None
    ensures var t := RemoveMember(s, k).0;
            Routes(t) == Routes(s) && Resolvers(t) == Resolvers(s) && Blocklist(t) == Blocklist(s)
  {
    var t := RemoveMember(s, k).0;
    SumSplit(s.members, RoutesOfMember, k);
    SumSplit(s.members, ResolverOfMember, k);
    SumSplit(s.members, BlockedOfMember, k);
    assert t.burned[..|t.burned| - 1] == s.burned;
    SortedUnique(Blocklist(t), Blocklist(s));
  }

  // ----- Admission -----

  /** The prefixes an approval grants, through the address and under the name it was given. */
  function Granted(d: Decision, r: Record): seq<Route>
    requires d.Approve?
  {
    seq(|d.routes|, i requires 0 <= i < |d.routes| => Route(d.routes[i], r.addrs.v4, ChosenName(r, d)))
  }

  /** The member an approval admits carries exactly what was granted to it. */
  lemma AdmittedMember(s: State, id: string, d: Decision)
    requires id in s.requests && d.Approve? && Decide(s, id, d).1 == None
    ensures var r, t := s.requests[id], Decide(s, id, d).0;
            && r.key in t.members
            && t.members == s.members[r.key := t.members[r.key]]
            && t.burned == s.burned
            && var m := t.members[r.key];
               && !m.Banned()
               && m.cert == d.cert
               && RoutesOfMember(m) == (if r.kind.Connector? then multiset(Granted(d, r)) else multiset{})
               && ResolverOfMember(m) == (if r.kind.Connector? && d.domain != ""
                                          then multiset{Resolver(d.domain, r.addrs.v4, r.addrs.v6, ChosenName(r, d))}
                                          else multiset{})
  {
    var r := s.requests[id];
    var m := Decide(s, id, d).0.members[r.key];
    assert RouteSeq(m) == Granted(d, r);
  }

  /** Admitting a connector makes exactly its granted routes and its zone appear, and blocks nobody. */
  lemma ApprovalEffect(s: State, id: string, d: Decision)
    requires id in s.requests && d.Approve? && Decide(s, id, d).1 == None && s.requests[id].key !in s.members
    ensures var r, t := s.requests[id], Decide(s, id, d).0;
            && Routes(t) == Routes(s) + (if r.kind.Connector? then multiset(Granted(d, r)) else multiset{})
            && Resolvers(t) == Resolvers(s)
                               + (if r.kind.Connector? && d.domain != ""
                                  then multiset{Resolver(d.domain, r.addrs.v4, r.addrs.v6, ChosenName(r, d))}
                                  else multiset{})
            && BlockedBag(t) == BlockedBag(s)
  {
    var r, t := s.requests[id], Decide(s, id, d).0;
    var m := t.members[r.key];
    AdmittedMember(s, id, d);
    SumInsert(s.members, RoutesOfMember, r.key, m);
    SumInsert(s.members, ResolverOfMember, r.key, m);
    SumInsert(s.members, BlockedOfMember, r.key, m);
    assert BlockedOfMember(m) == multiset{};
  }
}
