/**
 Three ways to disturb an approved record, each played out to the end: approving it
 again under another certificate, rejecting it, and forgetting it. The owner's machine
 does each of them when two commands about one request list it before either decides.
 */
module Unguarded {
  import opened Wrappers
  import opened Netip
  import opened Ipam
  import opened Membership
  import opened Invariant
  import opened Reuse
  import opened Breach
  import opened Desks

  function Approval(cert: string): Decision {
    Grant("", cert)
  }

  const ENROLL1: Op := DoEnroll(WHO, Asking("k1"), "r1")
  const ENROLL2: Op := DoEnroll(WHO, Asking("k2"), "r2")

  function Approves(id: string, cert: string): Op {
    DoDecide(id, Approval(cert))
  }

  // ----- What the hub sees -----

  const START: seq<Op> := [ENROLL1, Approves("r1", "c1")]
  const TWICE: seq<Op> := [Approves("r1", "c2")]
  const REJECTED: seq<Op> := [DoDecide("r1", Reject), ENROLL1, Approves("r1", "c2")]
  const FORGOTTEN: seq<Op> := [DoForget("r1"), ENROLL1, Approves("r1", "c2")]
  /** The first tenant is retired and another one comes. */
  const FINISH: seq<Op> := [DoBan("k1", "k1"), DoRemove("k1", "k1"), ENROLL2, Approves("r2", "c3")]

  // ----- How the owner's machine gets there: the first two lists are both taken before any decision -----

  const OPENING: seq<Turn> := [Hub(ENROLL1)] + ([Look] + ([Look] + [Act(0, Approves("r1", "c1"))]))

  const AGAIN: seq<Turn> := [Hub(ENROLL1)] + ([Look] + [Act(2, Approves("r1", "c2"))])

  /** The second command acts on the list it took before the first one decided. */
  function Second(middle: seq<Op>): seq<Turn>
    requires middle != []
  {
    [Act(1, middle[0])] + (if |middle| == 1 then [] else AGAIN)
  }

  function Ending(lists: nat): seq<Turn> {
    [Hub(DoBan("k1", "k1"))] + ([Hub(DoRemove("k1", "k1"))] + ([Hub(ENROLL2)] + ([Look] + [Act(lists, Approves("r2", "c3"))])))
  }

  function Race(middle: seq<Op>): seq<Turn>
    requires middle != []
  {
    OPENING + (Second(middle) + Ending(if |middle| == 1 then 2 else 3))
  }

  // ----- Runs that lead somewhere -----

  ghost predicate Leads(d: Desk, turns: seq<Turn>, e: Desk) {
    DeskRun(d, turns) && Played(d, turns) == e
  }

  lemma One(d: Desk, t: Turn, e: Desk)
    requires May(d, t) && Next(d, t) == e
    ensures Leads(d, [t], e)
  {
    assert [t][1..] == [];
  }

  lemma Cons(d: Desk, t: Turn, rest: seq<Turn>, e: Desk)
    requires May(d, t) && Leads(Next(d, t), rest, e)
    ensures Leads(d, [t] + rest, e)
  {
    assert ([t] + rest)[1..] == rest;
  }

  lemma Uncons(d: Desk, turns: seq<Turn>, e: Desk)
    requires turns != [] && Leads(d, turns, e)
    ensures May(d, turns[0]) && Leads(Next(d, turns[0]), turns[1..], e)
  {
  }

  lemma {:induction false} Then(d: Desk, turns: seq<Turn>, e: Desk, more: seq<Turn>, g: Desk)
    requires Leads(d, turns, e) && Leads(e, more, g)
    ensures Leads(d, turns + more, g)
    decreases |turns|
  {
    if turns == [] {
      assert turns + more == more;
    } else {
      Uncons(d, turns, e);
      Then(Next(d, turns[0]), turns[1..], e, more, g);
      Cons(d, turns[0], turns[1..] + more, g);
      assert [turns[0]] + (turns[1..] + more) == turns + more;
    }
  }

  // ----- The states passed through -----

  /** An instance with its owner and nobody else. */
  ghost predicate Alone(s: State) {
    && s.members.Keys == {s.owner}
    && s.members[s.owner].cert == ""
    && s.requests == map[]
    && s.net.alloc == Dual(map[], map[])
    && s.owner != "k1" && s.owner != "k2"
  }

  /** What a tenant would be given, in the families there are. */
  ghost predicate Given(s: State, key: string, a: Dual<Option<Addr>>) {
    && PickFor(s, F4, key, Tenant) == a.v4 && PickFor(s, F6, key, Tenant) == a.v6
    && (a.v4.Some? || a.v6.Some?)
  }

  function HeldBy(key: string, a: Dual<Option<Addr>>): Dual<map<string, Addr>> {
    Dual(Hold(map[], key, a.v4), Hold(map[], key, a.v6))
  }

  /** The same instance with one tenant's record in it. */
  function Recorded(s: State, key: string, id: string, a: Dual<Option<Addr>>, status: Status, bundle: Option<string>): State {
    s.(net := s.net.(alloc := HeldBy(key, a)), requests := map[id := Record(status, key, Tenant, "", a, bundle)])
  }

  function AsMember(s: State, key: string, a: Dual<Option<Addr>>, cert: string, events: seq<Event>): State {
    SetMember(s, key, Member(Tenant, "", a, [], "", cert, events))
  }

  /** The same instance with one tenant admitted. */
  function Joined(s: State, key: string, id: string, a: Dual<Option<Addr>>, cert: string, events: seq<Event>): State {
    AsMember(Recorded(s, key, id, a, Approved, Some(cert)), key, a, cert, events)
  }

  /** The tenant is a member still, and its record is open again. */
  function Reopening(s: State, a: Dual<Option<Addr>>, status: Status): State {
    AsMember(Recorded(s, "k1", "r1", a, status, None), "k1", a, "c1", [])
  }

  lemma Enrolling(s: State, key: string, id: string, a: Dual<Option<Addr>>)
    requires Alone(s) && !IsBurned(s, key) && Given(s, key, a)
    ensures Enroll(s, WHO, Asking(key), id).0 == Recorded(s, key, id, a, Pending, None)
  {
    assert forall rid :: !HasRecord(s, rid, key);
  }

  lemma Approving(s: State, key: string, id: string, a: Dual<Option<Addr>>, cert: string)
    ensures Decide(Recorded(s, key, id, a, Pending, None), id, Approval(cert)).0 == Joined(s, key, id, a, cert, [])
  {
    assert Decide(Recorded(s, key, id, a, Pending, None), id, Approval(cert)).0.requests
        == Joined(s, key, id, a, cert, []).requests;
  }

  /** A member's record can be approved whatever its status; the member is replaced. */
  lemma ApprovingAgain(s: State, a: Dual<Option<Addr>>, status: Status, bundle: Option<string>, cert: string)
    ensures Decide(AsMember(Recorded(s, "k1", "r1", a, status, bundle), "k1", a, "c1", []), "r1", Approval(cert)).0
         == Joined(s, "k1", "r1", a, cert, [])
  {
    var t := Decide(AsMember(Recorded(s, "k1", "r1", a, status, bundle), "k1", a, "c1", []), "r1", Approval(cert)).0;
    assert t.requests == Joined(s, "k1", "r1", a, cert, []).requests;
    assert t.members == Joined(s, "k1", "r1", a, cert, []).members;
  }

  lemma Rejecting(s: State, a: Dual<Option<Addr>>)
    ensures Decide(Joined(s, "k1", "r1", a, "c1", []), "r1", Reject).0 == Reopening(s, a, Rejected)
  {
    assert Decide(Joined(s, "k1", "r1", a, "c1", []), "r1", Reject).0.requests == Reopening(s, a, Rejected).requests;
  }

  /** A rejected tenant that asks again is waiting on its own record. */
  lemma AskingAfterReject(s: State, a: Dual<Option<Addr>>)
    requires s.burned == []
    ensures Enroll(Reopening(s, a, Rejected), WHO, Asking("k1"), "r1").0 == Reopening(s, a, Pending)
  {
    var t := Reopening(s, a, Rejected);
    assert HasRecord(t, "r1", "k1");
    assert forall rid :: HasRecord(t, rid, "k1") ==> rid == "r1";
    assert Enroll(t, WHO, Asking("k1"), "r1").0.requests == Reopening(s, a, Pending).requests;
  }

  /** The member without a record. */
  function Unrecorded(s: State, a: Dual<Option<Addr>>): State {
    Joined(s, "k1", "r1", a, "c1", []).(requests := map[])
  }

  lemma Forgetting(s: State, a: Dual<Option<Addr>>)
    ensures Forget(Joined(s, "k1", "r1", a, "c1", []), "r1").0 == Unrecorded(s, a)
  {
    assert Forget(Joined(s, "k1", "r1", a, "c1", []), "r1").0.requests == map[];
  }

  /** A member without an address in a family takes none away. */
  lemma AddressesAsBefore(s: State, a: Dual<Option<Addr>>, f: Family)
    requires "k1" !in s.members && a.Of(f).None?
    ensures MemberAddrs(Unrecorded(s, a), f) == MemberAddrs(s, f)
  {
    var t := Unrecorded(s, a);
    assert t.members["k1"].addrs.Of(f).None?;
    forall x | x in MemberAddrs(s, f)
      ensures x in MemberAddrs(t, f)
    {
      var k :| k in s.members && s.members[k].addrs.Of(f) == Some(x);
      assert t.members[k] == s.members[k];
    }
  }

  lemma HeldIsGiven(s: State, a: Dual<Option<Addr>>, f: Family)
    requires Alone(s) && Given(s, "k1", a)
    ensures PickFor(Unrecorded(s, a), f, "k1", Tenant) == a.Of(f)
  {
    if a.Of(f).None? {
      AddressesAsBefore(s, a, f);
    }
  }

  lemma HeldAlready(key: string, a: Dual<Option<Addr>>)
    ensures Hold(HeldBy(key, a).v4, key, a.v4) == HeldBy(key, a).v4
    ensures Hold(HeldBy(key, a).v6, key, a.v6) == HeldBy(key, a).v6
  {
  }

  lemma AskingAfterForget(s: State, a: Dual<Option<Addr>>)
    requires Alone(s) && s.burned == [] && Given(s, "k1", a)
    ensures Enroll(Unrecorded(s, a), WHO, Asking("k1"), "r1").0 == Reopening(s, a, Pending)
  {
    HeldIsGiven(s, a, F4);
    HeldIsGiven(s, a, F6);
    HeldAlready("k1", a);
    var t := Unrecorded(s, a);
    assert forall rid :: !HasRecord(t, rid, "k1");
    AdmittedIs(t, WHO, Asking("k1"), "r1");
  }

  lemma Banning(s: State, key: string, id: string, a: Dual<Option<Addr>>, cert: string)
    ensures Ban(Joined(s, key, id, a, cert, []), key).0 == Joined(s, key, id, a, cert, [BanEvent])
  {
    var t := Ban(Joined(s, key, id, a, cert, []), key).0;
    assert [] + [BanEvent] == [BanEvent];
    assert t.members == Joined(s, key, id, a, cert, [BanEvent]).members;
  }

  lemma Removing(s: State, key: string, id: string, a: Dual<Option<Addr>>, cert: string)
    requires Alone(s) && key != s.owner
    ensures RemoveMember(Joined(s, key, id, a, cert, [BanEvent]), key).0 == s.(burned := s.burned + [Burned(key, cert)])
  {
    var u := Joined(s, key, id, a, cert, [BanEvent]);
    assert u.members[key].Banned();
    assert Without(u.members, key) == s.members;
    assert Without(u.net.alloc.v4, key) == map[] && Without(u.net.alloc.v6, key) == map[];
    assert Erased(u, key).requests == map[];
  }

  // ----- The parts of the runs -----

  function Out(a: Dual<Option<Addr>>): set<Issued> {
    {Issued("k1", a, "c1")}
  }

  function OutTwice(a: Dual<Option<Addr>>): set<Issued> {
    {Issued("k1", a, "c1"), Issued("k1", a, "c2")}
  }

  const FIRST: Listing := Listing({"r1"}, 0)

  function Lists(n: nat): seq<Listing> {
    [FIRST, FIRST] + (if n == 2 then [] else [Listing({"r1"}, 1)])
  }

  lemma Waiting(s: State, key: string, id: string, a: Dual<Option<Addr>>)
    ensures PendingIds(Recorded(s, key, id, a, Pending, None)) == {id}
    ensures PendingIds(Reopening(s, a, Pending)) == {"r1"}
  {
  }

  lemma FreeId(s: State, who: Applicant, req: Request, id: string)
    requires !IsApproved(s, id) && !who.kind.Owner? && req.key != s.owner
    ensures Legal(s, DoEnroll(who, req, id)) && Guarded(s, DoEnroll(who, req, id))
  {
  }

  /** A new tenant enrolls. */
  lemma Comes(s: State, key: string, id: string, a: Dual<Option<Addr>>, issued: set<Issued>, log: seq<string>, lists: seq<Listing>)
    requires Alone(s) && !IsBurned(s, key) && Given(s, key, a) && key != s.owner
    ensures Leads(Desk(History(s, issued), log, lists), [Hub(DoEnroll(WHO, Asking(key), id))],
                  Desk(History(Recorded(s, key, id, a, Pending, None), issued), log, lists))
  {
    var op := DoEnroll(WHO, Asking(key), id);
    Enrolling(s, key, id, a);
    FreeId(s, WHO, Asking(key), id);
    assert IssuedBy(s, op) == {} && issued + {} == issued;
    One(Desk(History(s, issued), log, lists), Hub(op),
        Desk(History(Recorded(s, key, id, a, Pending, None), issued), log, lists));
  }

  lemma Looks(h: History, log: seq<string>, lists: seq<Listing>)
    ensures Leads(Desk(h, log, lists), [Look], Desk(h, log, lists + [Listing(PendingIds(h.s), |log|)]))
  {
    One(Desk(h, log, lists), Look, Desk(h, log, lists + [Listing(PendingIds(h.s), |log|)]));
  }

  /** A decision taken from a list that has the request. */
  lemma Acts(h: History, log: seq<string>, lists: seq<Listing>, n: nat, op: Op, t: State, issued: set<Issued>)
    requires n < |lists| && IsDecision(op) && op.id in lists[n].ids && (op.DoDecide? && op.d.Approve? ==> op.d.cert != "")
    requires Apply(h.s, op) == t && h.issued + IssuedBy(h.s, op) == issued
    ensures Leads(Desk(h, log, lists), [Act(n, op)], Desk(History(t, issued), log + ApprovedBy(op), lists))
  {
    One(Desk(h, log, lists), Act(n, op), Desk(History(t, issued), log + ApprovedBy(op), lists));
  }

  /** Two commands list the first tenant's request, and one of them approves it. */
  lemma Opens(s: State, a: Dual<Option<Addr>>)
    requires Alone(s) && s.burned == [] && Given(s, "k1", a)
    ensures Leads(Desk(History(s, {}), [], []), OPENING, Desk(History(Joined(s, "k1", "r1", a, "c1", []), Out(a)), ["r1"], Lists(2)))
  {
    var w := History(Recorded(s, "k1", "r1", a, Pending, None), {});
    var u := History(Joined(s, "k1", "r1", a, "c1", []), Out(a));
    var d0, d1, d2, d3 := Desk(History(s, {}), [], []), Desk(w, [], []), Desk(w, [], [FIRST]), Desk(w, [], Lists(2));
    var d4 := Desk(u, ["r1"], Lists(2));
    Comes(s, "k1", "r1", a, {}, [], []);
    Waiting(s, "k1", "r1", a);
    Looks(w, [], []);
    Looks(w, [], [FIRST]);
    assert [] + [FIRST] == [FIRST] && [FIRST] + [FIRST] == Lists(2);
    Approving(s, "k1", "r1", a, "c1");
    Acts(w, [], Lists(2), 0, Approves("r1", "c1"), u.s, u.issued);
    assert [] + ApprovedBy(Approves("r1", "c1")) == ["r1"];
    Then(d2, [Look], d3, [Act(0, Approves("r1", "c1"))], d4);
    Then(d1, [Look], d2, [Look] + [Act(0, Approves("r1", "c1"))], d4);
    Then(d0, [Hub(ENROLL1)], d1, [Look] + ([Look] + [Act(0, Approves("r1", "c1"))]), d4);
  }

  /** A member's record is approved under the second certificate, whatever has become of it. */
  lemma Renewed(s: State, a: Dual<Option<Addr>>, status: Status, bundle: Option<string>, log: seq<string>, lists: seq<Listing>, n: nat)
    requires n < |lists| && "r1" in lists[n].ids
    ensures Leads(Desk(History(AsMember(Recorded(s, "k1", "r1", a, status, bundle), "k1", a, "c1", []), Out(a)), log, lists),
                  [Act(n, Approves("r1", "c2"))],
                  Desk(History(Joined(s, "k1", "r1", a, "c2", []), OutTwice(a)), log + ["r1"], lists))
  {
    var h := History(AsMember(Recorded(s, "k1", "r1", a, status, bundle), "k1", a, "c1", []), Out(a));
    ApprovingAgain(s, a, status, bundle, "c2");
    assert Out(a) + {Issued("k1", a, "c2")} == OutTwice(a);
    Acts(h, log, lists, n, Approves("r1", "c2"), Joined(s, "k1", "r1", a, "c2", []), OutTwice(a));
  }

  /** After a disturbance that leaves the key free to ask again, it asks, is listed and approved. */
  lemma Reasks(s: State, t: State, a: Dual<Option<Addr>>)
    requires Enroll(t, WHO, Asking("k1"), "r1").0 == Reopening(s, a, Pending) && t.owner != "k1" && !IsApproved(t, "r1")
    ensures Leads(Desk(History(t, Out(a)), ["r1"], Lists(2)), AGAIN,
                  Desk(History(Joined(s, "k1", "r1", a, "c2", []), OutTwice(a)), ["r1", "r1"], Lists(3)))
  {
    var v := History(Reopening(s, a, Pending), Out(a));
    var d1, d2, d3 := Desk(History(t, Out(a)), ["r1"], Lists(2)), Desk(v, ["r1"], Lists(2)), Desk(v, ["r1"], Lists(3));
    var d4 := Desk(History(Joined(s, "k1", "r1", a, "c2", []), OutTwice(a)), ["r1", "r1"], Lists(3));
    FreeId(t, WHO, Asking("k1"), "r1");
    assert IssuedBy(t, ENROLL1) == {} && Out(a) + {} == Out(a);
    One(d1, Hub(ENROLL1), d2);
    Waiting(s, "k1", "r1", a);
    Looks(v, ["r1"], Lists(2));
    assert Lists(2) + [Listing({"r1"}, 1)] == Lists(3);
    Renewed(s, a, Pending, None, ["r1"], Lists(3), 2);
    assert ["r1"] + ["r1"] == ["r1", "r1"];
    Then(d2, [Look], d3, [Act(2, Approves("r1", "c2"))], d4);
    Then(d1, [Hub(ENROLL1)], d2, [Look] + [Act(2, Approves("r1", "c2"))], d4);
  }

  /** The second command rejects or forgets what the first one approved. */
  lemma DisturbsThenReasks(s: State, op: Op, t: State, a: Dual<Option<Addr>>)
    requires IsDecision(op) && op.id == "r1" && ApprovedBy(op) == [] && !(op.DoDecide? && op.d.Approve?)
    requires Apply(Joined(s, "k1", "r1", a, "c1", []), op) == t && t.owner != "k1" && !IsApproved(t, "r1")
    requires Enroll(t, WHO, Asking("k1"), "r1").0 == Reopening(s, a, Pending)
    ensures Leads(Desk(History(Joined(s, "k1", "r1", a, "c1", []), Out(a)), ["r1"], Lists(2)), [Act(1, op)] + AGAIN,
                  Desk(History(Joined(s, "k1", "r1", a, "c2", []), OutTwice(a)), ["r1", "r1"], Lists(3)))
  {
    var h := History(Joined(s, "k1", "r1", a, "c1", []), Out(a));
    assert IssuedBy(h.s, op) == {} && Out(a) + {} == Out(a) && ["r1"] + [] == ["r1"];
    Acts(h, ["r1"], Lists(2), 1, op, t, Out(a));
    Reasks(s, t, a);
    Then(Desk(h, ["r1"], Lists(2)), [Act(1, op)], Desk(History(t, Out(a)), ["r1"], Lists(2)), AGAIN,
         Desk(History(Joined(s, "k1", "r1", a, "c2", []), OutTwice(a)), ["r1", "r1"], Lists(3)));
  }

  /** Each race ends with the tenant a member under its second certificate. */
  lemma Disturbed(s: State, a: Dual<Option<Addr>>, middle: seq<Op>)
    requires Alone(s) && s.burned == [] && Given(s, "k1", a)
    requires middle == TWICE || middle == REJECTED || middle == FORGOTTEN
    ensures Leads(Desk(History(Joined(s, "k1", "r1", a, "c1", []), Out(a)), ["r1"], Lists(2)), Second(middle),
                  Desk(History(Joined(s, "k1", "r1", a, "c2", []), OutTwice(a)), ["r1", "r1"], Lists(if |middle| == 1 then 2 else 3)))
  {
    if middle == TWICE {
      Renewed(s, a, Approved, Some("c1"), ["r1"], Lists(2), 1);
      assert ["r1"] + ["r1"] == ["r1", "r1"] && Second(TWICE) == [Act(1, Approves("r1", "c2"))];
    } else if middle == REJECTED {
      Rejecting(s, a);
      AskingAfterReject(s, a);
      DisturbsThenReasks(s, DoDecide("r1", Reject), Reopening(s, a, Rejected), a);
    } else {
      Forgetting(s, a);
      AskingAfterForget(s, a);
      DisturbsThenReasks(s, DoForget("r1"), Unrecorded(s, a), a);
    }
  }

  function Retired(s: State): State {
    s.(burned := [Burned("k1", "c2")])
  }

  lemma Retires(s: State, a: Dual<Option<Addr>>, log: seq<string>, lists: seq<Listing>, more: seq<Turn>, g: Desk)
    requires Alone(s) && s.burned == [] && Leads(Desk(History(Retired(s), OutTwice(a)), log, lists), more, g)
    ensures Leads(Desk(History(Joined(s, "k1", "r1", a, "c2", []), OutTwice(a)), log, lists),
                  [Hub(DoBan("k1", "k1"))] + ([Hub(DoRemove("k1", "k1"))] + more), g)
  {
    var h, u := History(Joined(s, "k1", "r1", a, "c2", []), OutTwice(a)), History(Joined(s, "k1", "r1", a, "c2", [BanEvent]), OutTwice(a));
    var d, e, i := Desk(h, log, lists), Desk(u, log, lists), Desk(History(Retired(s), OutTwice(a)), log, lists);
    assert OutTwice(a) + {} == OutTwice(a);
    Banning(s, "k1", "r1", a, "c2");
    assert Means(h.s, "k1", "k1");
    One(d, Hub(DoBan("k1", "k1")), e);
    Removing(s, "k1", "r1", a, "c2");
    assert Means(u.s, "k1", "k1");
    assert s.burned + [Burned("k1", "c2")] == [Burned("k1", "c2")];
    One(e, Hub(DoRemove("k1", "k1")), i);
    Then(e, [Hub(DoRemove("k1", "k1"))], i, more, g);
    Then(d, [Hub(DoBan("k1", "k1"))], e, [Hub(DoRemove("k1", "k1"))] + more, g);
  }

  /** In an empty instance what a tenant is given does not depend on its key or on the burned list. */
  lemma SameFirstPick(s: State, f: Family)
    requires Alone(s)
    ensures PickFor(Retired(s), f, "k2", Tenant) == PickFor(s, f, "k1", Tenant)
  {
    assert MemberAddrs(Retired(s), f) == MemberAddrs(s, f);
  }

  /** Two certificates for the same addresses, and neither of them blocked. */
  ghost predicate Shared(h: History, a: Dual<Option<Addr>>) {
    && Issued("k1", a, "c1") in h.issued
    && Issued("k2", a, "c3") in h.issued
    && "c1" !in Blocked(h.s)
    && "c3" !in Blocked(h.s)
    && (a.v4.Some? || a.v6.Some?)
  }

  /** The second tenant enrolls, is listed and approved. */
  lemma Succeeds(t: State, a: Dual<Option<Addr>>, log: seq<string>, lists: seq<Listing>) returns (g: Desk)
    requires Alone(t) && !IsBurned(t, "k2") && Given(t, "k2", a)
    ensures Leads(Desk(History(t, OutTwice(a)), log, lists), [Hub(ENROLL2)] + ([Look] + [Act(|lists|, Approves("r2", "c3"))]), g)
    ensures g.h == History(Joined(t, "k2", "r2", a, "c3", []), OutTwice(a) + {Issued("k2", a, "c3")})
  {
    var w, u := History(Recorded(t, "k2", "r2", a, Pending, None), OutTwice(a)), History(Joined(t, "k2", "r2", a, "c3", []), OutTwice(a) + {Issued("k2", a, "c3")});
    var more := lists + [Listing({"r2"}, |log|)];
    g := Desk(u, log + ["r2"], more);
    Comes(t, "k2", "r2", a, OutTwice(a), log, lists);
    Waiting(t, "k2", "r2", a);
    Looks(w, log, lists);
    Approving(t, "k2", "r2", a, "c3");
    Acts(w, log, more, |lists|, Approves("r2", "c3"), u.s, u.issued);
    Then(Desk(w, log, lists), [Look], Desk(w, log, more), [Act(|lists|, Approves("r2", "c3"))], g);
    Then(Desk(History(t, OutTwice(a)), log, lists), [Hub(ENROLL2)], Desk(w, log, lists), [Look] + [Act(|lists|, Approves("r2", "c3"))], g);
  }

  lemma RetiredIsAlone(s: State, a: Dual<Option<Addr>>)
    requires Alone(s) && Given(s, "k1", a)
    ensures Alone(Retired(s)) && !IsBurned(Retired(s), "k2") && Given(Retired(s), "k2", a)
  {
    SameFirstPick(s, F4);
    SameFirstPick(s, F6);
  }

  /** Only the second certificate of the first tenant is blocked. */
  lemma EndIsShared(t: State, a: Dual<Option<Addr>>)
    requires Alone(t) && t.burned == [Burned("k1", "c2")] && (a.v4.Some? || a.v6.Some?)
    ensures Shared(History(Joined(t, "k2", "r2", a, "c3", []), OutTwice(a) + {Issued("k2", a, "c3")}), a)
  {
  }

  lemma Finishes(s: State, a: Dual<Option<Addr>>, log: seq<string>, lists: seq<Listing>) returns (g: Desk)
    requires Alone(s) && s.burned == [] && Given(s, "k1", a)
    ensures Leads(Desk(History(Joined(s, "k1", "r1", a, "c2", []), OutTwice(a)), log, lists), Ending(|lists|), g) && Shared(g.h, a)
  {
    RetiredIsAlone(s, a);
    EndIsShared(Retired(s), a);
    g := Succeeds(Retired(s), a, log, lists);
    Retires(s, a, log, lists, [Hub(ENROLL2)] + ([Look] + [Act(|lists|, Approves("r2", "c3"))]), g);
  }

  lemma PlaysOut(s: State, a: Dual<Option<Addr>>, middle: seq<Op>)
    requires Alone(s) && s.burned == [] && Given(s, "k1", a)
    requires middle == TWICE || middle == REJECTED || middle == FORGOTTEN
    ensures DeskRun(Desk(History(s, {}), [], []), Race(middle)) && Shared(Played(Desk(History(s, {}), [], []), Race(middle)).h, a)
  {
    var n := if |middle| == 1 then 2 else 3;
    var d := Desk(History(Joined(s, "k1", "r1", a, "c1", []), Out(a)), ["r1"], Lists(2));
    var e := Desk(History(Joined(s, "k1", "r1", a, "c2", []), OutTwice(a)), ["r1", "r1"], Lists(n));
    Opens(s, a);
    Disturbed(s, a, middle);
    assert |Lists(n)| == n;
    var g := Finishes(s, a, ["r1", "r1"], Lists(n));
    Then(d, Second(middle), e, Ending(n), g);
    Then(Desk(History(s, {}), [], []), OPENING, d, Second(middle) + Ending(n), g);
  }

  // ----- What the hub sees of it -----

  lemma {:induction false} OpsOfConcat(a: seq<Turn>, b: seq<Turn>)
    ensures OpsOf(a + b) == OpsOf(a) + OpsOf(b)
    decreases |a|
  {
    if a == [] {
      assert a + b == b;
    } else {
      OpsOfConcat(a[1..], b);
      assert (a + b)[1..] == a[1..] + b;
    }
  }

  lemma OpsOfOne(t: Turn)
    ensures OpsOf([t]) == if t.Look? then [] else [t.op]
  {
    assert [t][1..] == [];
  }

  lemma OpsOfCons(t: Turn, rest: seq<Turn>)
    ensures OpsOf([t] + rest) == if t.Look? then OpsOf(rest) else [t.op] + OpsOf(rest)
  {
    assert ([t] + rest)[1..] == rest;
  }

  lemma RaceIsSeen(middle: seq<Op>)
    requires middle == TWICE || middle == REJECTED || middle == FORGOTTEN
    ensures OpsOf(Race(middle)) == START + (middle + FINISH)
  {
    var n := if |middle| == 1 then 2 else 3;
    OpsOfConcat(OPENING, Second(middle) + Ending(n));
    OpsOfConcat(Second(middle), Ending(n));
    OpeningIsSeen();
    SecondIsSeen(middle);
    EndingIsSeen(n);
  }

  lemma OpeningIsSeen()
    ensures OpsOf(OPENING) == START
  {
    OpsOfOne(Act(0, Approves("r1", "c1")));
    OpsOfCons(Look, [Act(0, Approves("r1", "c1"))]);
    OpsOfCons(Look, [Look] + [Act(0, Approves("r1", "c1"))]);
    OpsOfCons(Hub(ENROLL1), [Look] + ([Look] + [Act(0, Approves("r1", "c1"))]));
  }

  lemma SecondIsSeen(middle: seq<Op>)
    requires middle == TWICE || middle == REJECTED || middle == FORGOTTEN
    ensures OpsOf(Second(middle)) == middle
  {
    OpsOfOne(Act(1, middle[0]));
    OpsOfOne(Act(2, Approves("r1", "c2")));
    OpsOfCons(Look, [Act(2, Approves("r1", "c2"))]);
    OpsOfCons(Hub(ENROLL1), [Look] + [Act(2, Approves("r1", "c2"))]);
    OpsOfConcat([Act(1, middle[0])], if |middle| == 1 then [] else AGAIN);
  }

  lemma EndingIsSeen(n: nat)
    ensures OpsOf(Ending(n)) == FINISH
  {
    OpsOfOne(Act(n, Approves("r2", "c3")));
    OpsOfCons(Look, [Act(n, Approves("r2", "c3"))]);
    OpsOfCons(Hub(ENROLL2), [Look] + [Act(n, Approves("r2", "c3"))]);
    OpsOfCons(Hub(DoRemove("k1", "k1")), [Hub(ENROLL2)] + ([Look] + [Act(n, Approves("r2", "c3"))]));
    OpsOfCons(Hub(DoBan("k1", "k1")), [Hub(DoRemove("k1", "k1"))] + ([Hub(ENROLL2)] + ([Look] + [Act(n, Approves("r2", "c3"))])));
  }

  lemma {:induction false} DeskIsRun(d: Desk, turns: seq<Turn>)
    requires DeskRun(d, turns)
    ensures Run(d.h.s, OpsOf(turns))
    decreases |turns|
  {
    if turns == [] {
    } else {
      DeskIsRun(Next(d, turns[0]), turns[1..]);
      if !turns[0].Look? {
        RunCons(d.h.s, turns[0].op, OpsOf(turns[1..]));
      }
    }
  }

  lemma RunCons(s: State, op: Op, rest: seq<Op>)
    requires Legal(s, op) && Run(Apply(s, op), rest)
    ensures Run(s, [op] + rest)
  {
    assert ([op] + rest)[1..] == rest;
  }

  // ----- From every instance with room -----

  /** Some family has room for a tenant beside the lighthouse and the owner. */
  ghost predicate HasRoom(overlay: Dual<Option<Prefix>>) {
    && Roomy(overlay.v4) && Roomy(overlay.v6)
    && exists f: Family :: overlay.Of(f).Some? && FirstUsable(overlay.Of(f).value) + 1 < LastUsable(overlay.Of(f).value)
  }

  lemma ThirdIsFree(p: Prefix, taken: set<Addr>) returns (a: Addr)
    requires p.Valid() && FirstUsable(p) + 1 < LastUsable(p)
    requires taken == {Addr(p.addr.fam, FirstUsable(p)), Addr(p.addr.fam, FirstUsable(p) + 1)}
    ensures Free(p, taken, a)
  {
    a := Addr(p.addr.fam, FirstUsable(p) + 2);
  }

  lemma FreshTaken(owner: string, name: string, token: bool, overlay: Dual<Option<Prefix>>, f: Family)
    requires Roomy(overlay.Of(f)) && overlay.Of(f).Some?
    ensures var s, p := Created(owner, name, token, overlay), overlay.Of(f).value;
            && s.net.overlay == overlay && s.net.alloc == Dual(map[], map[])
            && MemberAddrs(s, f) + Fixed(s.net, f) == {Addr(p.addr.fam, FirstUsable(p)), Addr(p.addr.fam, FirstUsable(p) + 1)}
  {
    CreatedFixed(owner, name, token, overlay, f);
  }

  lemma FreeIsPicked(s: State, f: Family, key: string, a: Addr)
    requires s.net.overlay.Of(f).Some? && s.net.alloc.Of(f) == map[]
    requires Free(s.net.overlay.Of(f).value, MemberAddrs(s, f) + Fixed(s.net, f), a)
    ensures PickFor(s, f, key, Tenant).Some?
  {
    var taken := MemberAddrs(s, f) + Fixed(s.net, f);
    assert s.net.alloc.Of(f).Values + taken == taken;
  }

  lemma FreshPicks(owner: string, name: string, token: bool, overlay: Dual<Option<Prefix>>, f: Family)
    requires Roomy(overlay.Of(f)) && overlay.Of(f).Some?
    requires FirstUsable(overlay.Of(f).value) + 1 < LastUsable(overlay.Of(f).value)
    ensures PickFor(Created(owner, name, token, overlay), f, "k1", Tenant).Some?
  {
    var s := Created(owner, name, token, overlay);
    FreshTaken(owner, name, token, overlay, f);
    var a := ThirdIsFree(overlay.Of(f).value, MemberAddrs(s, f) + Fixed(s.net, f));
    FreeIsPicked(s, f, "k1", a);
  }

  lemma FreshIsGiven(owner: string, name: string, token: bool, overlay: Dual<Option<Prefix>>) returns (a: Dual<Option<Addr>>)
    requires HasRoom(overlay)
    ensures Given(Created(owner, name, token, overlay), "k1", a)
  {
    var f: Family :| overlay.Of(f).Some? && FirstUsable(overlay.Of(f).value) + 1 < LastUsable(overlay.Of(f).value);
    FreshPicks(owner, name, token, overlay, f);
    var s := Created(owner, name, token, overlay);
    a := Dual(PickFor(s, F4, "k1", Tenant), PickFor(s, F6, "k1", Tenant));
  }

  /**
   In every instance with room for a tenant in some family: two commands of the
   owner's machine that both list one request before either decides end with two
   certificates for the same addresses and neither of them blocked, whether the later
   one approves, rejects or forgets.
   */
  lemma RacingShares(owner: string, name: string, token: bool, overlay: Dual<Option<Prefix>>, middle: seq<Op>)
    returns (a: Dual<Option<Addr>>)
    requires owner != "k1" && owner != "k2" && HasRoom(overlay)
    requires middle == TWICE || middle == REJECTED || middle == FORGOTTEN
    ensures var d := Desk(Fresh(owner, name, token, overlay), [], []);
            && DeskRun(d, Race(middle))
            && OpsOf(Race(middle)) == START + (middle + FINISH)
            && Shared(Played(d, Race(middle)).h, a)
  {
    a := FreshIsGiven(owner, name, token, overlay);
    assert Alone(Created(owner, name, token, overlay));
    PlaysOut(Created(owner, name, token, overlay), a, middle);
    RaceIsSeen(middle);
  }

  /** What the hub sees of it: disturbing an approved record once, in any of the three ways, is enough. */
  lemma DisturbingShares(owner: string, name: string, token: bool, overlay: Dual<Option<Prefix>>, middle: seq<Op>)
    returns (a: Dual<Option<Addr>>)
    requires owner != "k1" && owner != "k2" && HasRoom(overlay)
    requires middle == TWICE || middle == REJECTED || middle == FORGOTTEN
    ensures var ops := START + (middle + FINISH);
            && Run(Created(owner, name, token, overlay), ops)
            && Shared(Final(Fresh(owner, name, token, overlay), ops), a)
  {
    a := RacingShares(owner, name, token, overlay, middle);
    var d := Desk(Fresh(owner, name, token, overlay), [], []);
    DeskIsRun(d, Race(middle));
    PlayedIsFinal(d, Race(middle));
  }
}
