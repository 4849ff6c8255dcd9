/**
 The guard is exact. A step that leaves approved records as they are keeps every
 later guarded run safe; any other step lets guarded steps alone end with two
 usable certificates for one address.
 */
module Breach {
  import opened Wrappers
  import opened Netip
  import opened Ipam
  import opened Pools
  import opened Membership
  import opened Invariant
  import opened Reuse

  // ----- What an unguarded step loses -----

  predicate Bundles(s: State, id: string, c: Issued) {
    ApprovedAs(s, id, c.key) && s.requests[id].bundle == Some(c.cert)
  }

  /** No blocklist could ever name it, or neither the burned list nor a record knows of it. */
  ghost predicate OffRecord(s: State, c: Issued) {
    c.cert == "" || (!Spent(s, c) && forall id :: !Bundles(s, id, c))
  }

  lemma NothingOffRecord(h: History, c: Issued)
    requires HistoryInv(h) && c in h.issued
    ensures !OffRecord(h.s, c)
  {
    assert Tracked(h.s, c);
    if Live(h.s, c) {
      var id :| ApprovedAs(h.s, id, c.key);
      ApprovedIsIssued(h, id, c);
      assert Bundles(h.s, id, c);
    }
  }

  /** The certificate of an approved record, and where it stands. */
  lemma OnRecord(h: History, id: string) returns (c: Issued)
    requires HistoryInv(h) && IsApproved(h.s, id)
    ensures c in h.issued && c.key == h.s.requests[id].key && c.addrs == h.s.requests[id].addrs
    ensures h.s.requests[id].bundle == Some(c.cert)
    ensures !Spent(h.s, c)
  {
    var r := h.s.requests[id];
    assert RecordIsSound(h, r);
    c := Issued(r.key, r.addrs, r.bundle.value);
    if Spent(h.s, c) {
      BurnedIsGone(h.s, Burned(c.key, c.cert));
    }
  }

  predicate OnRequests(op: Op) {
    op.DoEnroll? || op.DoDecide? || op.DoForget?
  }

  /** An approval that names no certificate. */
  predicate Nameless(s: State, op: Op) {
    op.DoDecide? && op.id in s.requests && !IsApproved(s, op.id) && op.d.Approve? && op.d.certificate && op.d.cert == ""
  }

  /** The step acts on an approved record and does not leave it as it is. */
  ghost predicate Disturbs(s: State, op: Op) {
    !Guarded(s, op) && !Nameless(s, op)
  }

  lemma DisturbsApproved(s: State, op: Op)
    requires Disturbs(s, op)
    ensures OnRequests(op) && IsApproved(s, op.id)
  {
  }

  lemma EnrollDrops(s: State, who: Applicant, req: Request, id: string, c: Issued, rid: string)
    requires OneRecordPerKey(s) && Admits(s, who, req) && HasRecord(s, id, c.key)
    ensures !Bundles(Enroll(s, who, req, id).0, rid, c)
  {
    assert rid in s.requests && s.requests[rid].key == c.key ==> rid == id;
  }

  lemma DecideDrops(s: State, id: string, d: Decision, c: Issued, rid: string)
    requires OneRecordPerKey(s) && Bundles(s, id, c) && !MayDecide(s.requests[id], d)
    ensures !Bundles(Decide(s, id, d).0, rid, c)
  {
    assert rid in s.requests && s.requests[rid].key == c.key ==> rid == id;
  }

  lemma ForgetDrops(s: State, id: string, c: Issued, rid: string)
    requires OneRecordPerKey(s) && HasRecord(s, id, c.key)
    ensures !Bundles(Forget(s, id).0, rid, c)
  {
    assert rid in s.requests && s.requests[rid].key == c.key ==> rid == id;
  }

  /** No record carries the certificate after the step. */
  lemma DisturbsDrops(s: State, op: Op, c: Issued)
    requires OneRecordPerKey(s) && Disturbs(s, op) && IsApproved(s, op.id) && Bundles(s, op.id, c)
    ensures forall rid :: !Bundles(Apply(s, op), rid, c)
  {
    DisturbsApproved(s, op);
    forall rid
      ensures !Bundles(Apply(s, op), rid, c)
    {
      match op {
        case DoEnroll(who, req, id) => EnrollDrops(s, who, req, id, c, rid);
        case DoDecide(id, d) => DecideDrops(s, id, d, c, rid);
        case DoForget(id) => ForgetDrops(s, id, c, rid);
      }
    }
  }

  /** An unguarded step leaves an issued certificate off record. */
  lemma BreachLoses(h: History, op: Op) returns (c: Issued)
    requires HistoryInv(h) && !Guarded(h.s, op)
    ensures OnRequests(op) && op.id in h.s.requests
    ensures c.key == h.s.requests[op.id].key && c.addrs == h.s.requests[op.id].addrs
    ensures c in Advance(h, op).issued && OffRecord(Apply(h.s, op), c)
    ensures c.cert == "" || c in h.issued
  {
    if Nameless(h.s, op) {
      c := Issued(h.s.requests[op.id].key, h.s.requests[op.id].addrs, "");
    } else {
      DisturbsApproved(h.s, op);
      c := OnRecord(h, op.id);
      DisturbsDrops(h.s, op, c);
      BurnsNothing(h.s, op);
    }
  }

  lemma BurnsNothing(s: State, op: Op)
    requires OnRequests(op)
    ensures Apply(s, op).burned == s.burned
  {
  }

  /** The guard is what the invariant needs, no more and no less. */
  lemma StepKeepsExactly(h: History, op: Op)
    requires HistoryInv(h) && Legal(h.s, op)
    ensures HistoryInv(Advance(h, op)) <==> Guarded(h.s, op)
  {
    if Guarded(h.s, op) {
      StepKeepsHistory(h, op);
    } else {
      var c := BreachLoses(h, op);
      if HistoryInv(Advance(h, op)) {
        NothingOffRecord(Advance(h, op), c);
      }
    }
  }

  // ----- What guarded steps make of it -----

  /** A certificate names its key, so those of different keys differ. */
  ghost predicate CertsApart(issued: set<Issued>) {
    forall c, d :: c in issued && d in issued && c.cert == d.cert ==> c.key == d.key
  }

  /** Guarded steps alone can lead to two usable certificates for one address, without one being issued to two keys. */
  ghost predicate CanShare(h: History) {
    exists ops :: GuardedRun(h, ops) && !Unshared(Final(h, ops)) && CertsApart(Final(h, ops).issued)
  }

  lemma StepBack(h: History, op: Op)
    requires Legal(h.s, op) && Guarded(h.s, op) && CanShare(Advance(h, op))
    ensures CanShare(h)
  {
    var ops :| && GuardedRun(Advance(h, op), ops) && !Unshared(Final(Advance(h, op), ops))
               && CertsApart(Final(Advance(h, op), ops).issued);
    var all := [op] + ops;
    assert all[0] == op && all[1..] == ops;
    assert GuardedRun(h, all) && Final(h, all) == Final(Advance(h, op), ops);
  }

  lemma SharedNow(h: History)
    requires !Unshared(h) && CertsApart(h.issued)
    ensures CanShare(h)
  {
    assert GuardedRun(h, []) && Final(h, []) == h;
  }

  lemma {:induction false} Longer(taken: set<string>) returns (t: string)
    ensures t != "" && forall x :: x in taken ==> |x| < |t|
    decreases |taken|
  {
    if taken == {} {
      t := "x";
    } else {
      var x :| x in taken;
      t := Longer(taken - {x});
      if |t| <= |x| {
        t := x + "x";
      }
    }
  }

  /** There is always another string. */
  lemma Unused(taken: set<string>) returns (t: string)
    ensures t != "" && t !in taken
  {
    t := Longer(taken);
  }

  /** No member and no burned entry has this certificate, whatever becomes of one key. */
  ghost predicate OnlyAt(s: State, key: string, cert: string) {
    cert == "" ||
    (&& (forall k :: k in s.members && k != key ==> s.members[k].cert != cert)
     && (forall i :: 0 <= i < |s.burned| ==> s.burned[i].cert != cert))
  }

  /** No blocklist has it, and no ban of a present member could put it there. */
  ghost predicate Unlisted(s: State, cert: string) {
    cert == "" ||
    (&& (forall k :: k in s.members ==> s.members[k].cert != cert)
     && (forall i :: 0 <= i < |s.burned| ==> s.burned[i].cert != cert))
  }

  lemma UnlistedIsNotBlocked(s: State, cert: string)
    requires Unlisted(s, cert)
    ensures cert !in Blocked(s)
  {
  }

  function Certs(s: State): set<string> {
    (set k | k in s.members :: s.members[k].cert) + (set i | 0 <= i < |s.burned| :: s.burned[i].cert)
  }

  function IssuedCerts(issued: set<Issued>): set<string> {
    set c | c in issued :: c.cert
  }

  /** A certificate nobody has seen keeps them apart. */
  lemma NewCertIsApart(issued: set<Issued>, c: Issued)
    requires CertsApart(issued) && (c.cert in IssuedCerts(issued) ==> c in issued)
    ensures CertsApart(issued + {c})
  {
    assert forall d :: d in issued ==> d.cert in IssuedCerts(issued);
  }

  function Names(s: State): set<string> {
    set k | k in s.members :: s.members[k].name
  }

  function Keys(s: State): set<string> {
    {s.owner} + s.net.alloc.v4.Keys + s.net.alloc.v6.Keys
    + (set i | 0 <= i < |s.burned| :: s.burned[i].key)
    + (set i | i in s.requests :: s.requests[i].key)
  }

  function Grant(name: string, cert: string): Decision {
    Approve(true, name, [], "", cert)
  }

  /** Under a name nobody has, an approval makes a member. */
  lemma GrantMakesMember(h: History, id: string, name: string, cert: string)
    requires id in h.s.requests && name != "" && name !in Names(h.s)
    ensures var u, r := Advance(h, DoDecide(id, Grant(name, cert))), h.s.requests[id];
            && u.s.members == h.s.members[r.key := Member(r.kind, name, r.addrs, [], "", cert, [])]
            && u.s.burned == h.s.burned && u.s.net == h.s.net
            && u.issued == h.issued + {Issued(r.key, r.addrs, cert)}
  {
    assert !NameIsTaken(h.s, h.s.requests[id].key, name);
  }

  /** The last step: whoever waits with the address is given a certificate of its own. */
  lemma SecondHolder(h: History, id: string, c: Issued, f: Family)
    requires c in h.issued && CertsApart(h.issued) && Unlisted(h.s, c.cert) && c.addrs.Of(f).Some?
    requires id in h.s.requests && !IsApproved(h.s, id) && h.s.requests[id].key != c.key
    requires h.s.requests[id].addrs.Of(f) == c.addrs.Of(f)
    ensures CanShare(h)
  {
    var cert := Unused(Certs(h.s) + IssuedCerts(h.issued));
    var name := Unused(Names(h.s));
    var op := DoDecide(id, Grant(name, cert));
    var u := Advance(h, op);
    GrantMakesMember(h, id, name, cert);
    UnlistedIsNotBlocked(u.s, c.cert);
    var d := Issued(h.s.requests[id].key, h.s.requests[id].addrs, cert);
    assert cert !in Blocked(u.s);
    assert c in u.issued && d in u.issued && d.cert !in IssuedCerts(h.issued);
    NewCertIsApart(h.issued, d);
    SharedNow(u);
    StepBack(h, op);
  }

  /** The usable addresses of a family nobody holds. */
  ghost function Room(s: State, f: Family): set<Addr> {
    if s.net.overlay.Of(f).None? then {}
    else UsableSet(s.net.overlay.Of(f).value) - Fixed(s.net, f) - s.net.alloc.Of(f).Values
  }

  const WHO := Applicant(Tenant, "", false)

  function Asking(key: string): Request {
    Request(true, key, "", false)
  }

  /** A new tenant gets one of the addresses nobody holds, and nobody else is touched. */
  lemma NewcomerTakesRoom(s: State, f: Family, key: string)
    requires Inv(s) && Room(s, f) != {} && key !in s.net.alloc.Of(f)
    ensures var pick := PickFor(s, f, key, Tenant);
            pick.Some? && pick.value in Room(s, f) && Hold(s.net.alloc.Of(f), key, pick).Values == s.net.alloc.Of(f).Values + {pick.value}
  {
    PickIgnoresMembers(s, f, key, Tenant);
    var p, taken := s.net.overlay.Of(f).value, s.net.alloc.Of(f).Values + Fixed(s.net, f);
    var a :| a in Room(s, f);
    assert Free(p, taken, a);
    ValuesOfUpdate(s.net.alloc.Of(f), key, PickFor(s, f, key, Tenant).value);
  }

  lemma StrangerIsWelcome(s: State, key: string)
    requires key !in Keys(s)
    ensures TurnedAway(s, WHO, Asking(key)).None? && forall rid :: !HasRecord(s, rid, key)
  {
    assert forall i :: 0 <= i < |s.burned| ==> s.burned[i].key in Keys(s);
    assert forall i :: i in s.requests ==> s.requests[i].key in Keys(s);
  }

  lemma AdmittedIs(s: State, who: Applicant, req: Request, id: string)
    requires Admits(s, who, req)
    ensures Enroll(s, who, req, id).0 == Admit(s, who, req, id)
  {
  }

  lemma NewcomerIsAdmitted(s: State, f: Family, key: string, id: string)
    requires Inv(s) && Room(s, f) != {} && key !in Keys(s)
    ensures Admits(s, WHO, Asking(key)) && Enroll(s, WHO, Asking(key), id).0 == Admit(s, WHO, Asking(key), id)
  {
    StrangerIsWelcome(s, key);
    NewcomerTakesRoom(s, f, key);
    AdmittedIs(s, WHO, Asking(key), id);
  }

  lemma AdmitHolds(s: State, who: Applicant, req: Request, id: string, f: Family)
    ensures var t := Admit(s, who, req, id);
            && t.net.alloc.Of(f) == Hold(s.net.alloc.Of(f), req.key, PickFor(s, f, req.key, who.kind))
            && t.requests[id].addrs.Of(f) == PickFor(s, f, req.key, who.kind)
            && t.net.overlay == s.net.overlay && Fixed(t.net, f) == Fixed(s.net, f)
  {
  }

  lemma RoomShrinks(s: State, t: State, f: Family, a: Addr)
    requires t.net.overlay == s.net.overlay && Fixed(t.net, f) == Fixed(s.net, f)
    requires t.net.alloc.Of(f).Values == s.net.alloc.Of(f).Values + {a}
    ensures Room(t, f) == Room(s, f) - {a}
  {
  }

  lemma NewcomerLeavesRoom(s: State, f: Family, key: string, id: string)
    requires Inv(s) && Room(s, f) != {} && key !in s.net.alloc.Of(f)
    ensures var t := Admit(s, WHO, Asking(key), id);
            && t.requests[id].addrs.Of(f).Some? && t.requests[id].addrs.Of(f).value in Room(s, f)
            && Room(t, f) == Room(s, f) - {t.requests[id].addrs.Of(f).value}
  {
    NewcomerTakesRoom(s, f, key);
    AdmitHolds(s, WHO, Asking(key), id, f);
    RoomShrinks(s, Admit(s, WHO, Asking(key), id), f, PickFor(s, f, key, Tenant).value);
  }

  /** The address is free for the taking, and nothing will block the certificate that was issued for it. */
  ghost predicate Vacant(h: History, c: Issued, f: Family) {
    && Inv(h.s) && c in h.issued && CertsApart(h.issued) && Unlisted(h.s, c.cert)
    && c.addrs.Of(f).Some? && c.addrs.Of(f).value in Room(h.s, f)
  }

  ghost predicate WaitsWith(s: State, id: string, c: Issued, f: Family) {
    && id in s.requests && !IsApproved(s, id)
    && s.requests[id].key != c.key && s.requests[id].addrs.Of(f) == c.addrs.Of(f)
  }

  lemma OneFewer(room: set<Addr>, less: set<Addr>, a: Addr, b: Addr)
    requires less == room - {b} && a in room && b in room
    ensures a == b || (a in less && |less| < |room|)
  {
  }

  lemma NewcomerWaits(h: History, c: Issued, f: Family, key: string, id: string)
    requires Vacant(h, c, f) && key !in h.s.net.alloc.Of(f) && key != c.key && id !in h.s.requests
    ensures var t := Admit(h.s, WHO, Asking(key), id);
            WaitsWith(t, id, c, f) || (c.addrs.Of(f).value in Room(t, f) && |Room(t, f)| < |Room(h.s, f)|)
  {
    var t := Admit(h.s, WHO, Asking(key), id);
    NewcomerLeavesRoom(h.s, f, key, id);
    OneFewer(Room(h.s, f), Room(t, f), c.addrs.Of(f).value, t.requests[id].addrs.Of(f).value);
  }

  lemma EnrollLeavesOthers(h: History, who: Applicant, req: Request, id: string)
    ensures var u := Advance(h, DoEnroll(who, req, id));
            u.issued == h.issued && u.s.members == h.s.members && u.s.burned == h.s.burned
  {
  }

  lemma Stranger(s: State, other: string) returns (key: string)
    ensures key !in Keys(s) && key != other && key != s.owner && key !in s.net.alloc.v4 && key !in s.net.alloc.v6
  {
    key := Unused(Keys(s) + {other});
  }

  lemma VacantStays(h: History, u: History, c: Issued, f: Family)
    requires Vacant(h, c, f) && Inv(u.s) && u.issued == h.issued && u.s.members == h.s.members && u.s.burned == h.s.burned
    requires c.addrs.Of(f).value in Room(u.s, f)
    ensures Vacant(u, c, f)
  {
  }

  lemma UnlistedStays(s: State, t: State, cert: string)
    requires Unlisted(s, cert) && t.members == s.members && t.burned == s.burned
    ensures Unlisted(t, cert)
  {
  }

  /** A newcomer waits with the address, or it is still free among fewer. */
  lemma OneNewcomer(h: History, c: Issued, f: Family) returns (op: Op)
    requires Vacant(h, c, f)
    ensures op.DoEnroll? && Legal(h.s, op) && Guarded(h.s, op)
    ensures var u := Advance(h, op);
            && c in u.issued && CertsApart(u.issued) && Unlisted(u.s, c.cert)
            && (WaitsWith(u.s, op.id, c, f) || (Vacant(u, c, f) && |Room(u.s, f)| < |Room(h.s, f)|))
  {
    var key := Stranger(h.s, c.key);
    var id := Unused(h.s.requests.Keys);
    op := DoEnroll(WHO, Asking(key), id);
    NewcomerIsAdmitted(h.s, f, key, id);
    NewcomerWaits(h, c, f, key, id);
    EnrollLeavesOthers(h, WHO, Asking(key), id);
    UnlistedStays(h.s, Advance(h, op).s, c.cert);
    if !WaitsWith(Advance(h, op).s, id, c, f) {
      EnrollKeepsInv(h.s, WHO, Asking(key), id);
      VacantStays(h, Advance(h, op), c, f);
    }
  }

  /** Newcomers take what is free until one of them waits with that address. */
  lemma {:induction false} TakenAgain(h: History, c: Issued, f: Family)
    requires Vacant(h, c, f)
    ensures CanShare(h)
    decreases |Room(h.s, f)|
  {
    var op := OneNewcomer(h, c, f);
    var u := Advance(h, op);
    if WaitsWith(u.s, op.id, c, f) {
      SecondHolder(u, op.id, c, f);
    } else {
      TakenAgain(u, c, f);
    }
    StepBack(h, op);
  }

  /** The key still holds the address, and only the key's own entry could get the certificate blocked. */
  ghost predicate Loose(h: History, c: Issued, f: Family) {
    && Inv(h.s) && c in h.issued && CertsApart(h.issued) && c.key != h.s.owner && OnlyAt(h.s, c.key, c.cert)
    && c.addrs.Of(f).Some? && Holds(h.s.net, f, c.key, c.addrs.Of(f))
  }

  /** And that entry has another certificate. */
  ghost predicate Replaced(h: History, c: Issued, f: Family) {
    Loose(h, c, f) && c.key in h.s.members && (h.s.members[c.key].cert != c.cert || c.cert == "")
  }

  lemma FreedIsRoom(s: State, k: string, f: Family)
    requires AllocInv(s.net, f) && k in s.members && k in s.net.alloc.Of(f)
    ensures s.net.alloc.Of(f)[k] in Room(Erased(s, k), f)
  {
    var t, a := Erased(s, k), s.net.alloc.Of(f)[k];
    assert a in s.net.alloc.Of(f).Values && a !in t.net.alloc.Of(f).Values;
    assert Fixed(t.net, f) == Fixed(s.net, f);
  }

  lemma BurnsAnother(s: State, k: string, cert: string)
    requires k in s.members && OnlyAt(s, k, cert) && (s.members[k].cert != cert || cert == "")
    ensures Unlisted(Erased(s, k), cert)
  {
  }

  /** Removing the key frees the address, and burns another certificate than the lost one. */
  lemma RemovalFrees(h: History, c: Issued, f: Family)
    requires Replaced(h, c, f)
    ensures Vacant(History(Erased(h.s, c.key), h.issued), c, f)
  {
    EraseKeepsInv(h.s, c.key);
    assert AllocInv(h.s.net, f);
    FreedIsRoom(h.s, c.key, f);
    BurnsAnother(h.s, c.key, c.cert);
  }

  lemma MemberGoes(h: History, c: Issued, f: Family)
    requires Replaced(h, c, f) && h.s.members[c.key].Banned()
    ensures CanShare(h)
  {
    var op := DoRemove(c.key, c.key);
    RemovalFrees(h, c, f);
    assert Means(h.s, c.key, c.key);
    assert Apply(h.s, op) == Erased(h.s, c.key);
    TakenAgain(Advance(h, op), c, f);
    StepBack(h, op);
  }

  lemma BanKeepsReplaced(h: History, c: Issued, f: Family)
    requires Replaced(h, c, f)
    ensures Replaced(History(Mark(h.s, c.key, BanEvent), h.issued), c, f)
  {
    MarkKeepsInv(h.s, c.key, BanEvent);
  }

  lemma MemberIsBanned(h: History, c: Issued, f: Family)
    requires Replaced(h, c, f) && !h.s.members[c.key].Banned()
    ensures CanShare(h)
  {
    var op := DoBan(c.key, c.key);
    assert Means(h.s, c.key, c.key);
    assert Apply(h.s, op) == Mark(h.s, c.key, BanEvent);
    BanKeepsReplaced(h, c, f);
    MemberGoes(Advance(h, op), c, f);
    StepBack(h, op);
  }

  /** A step about a key's own record brings its certificate nowhere else. */
  lemma StepKeepsOnlyAt(s: State, op: Op, key: string, cert: string)
    requires OnlyAt(s, key, cert) && OnRequests(op) && (op.DoDecide? ==> HasRecord(s, op.id, key))
    ensures OnlyAt(Apply(s, op), key, cert)
  {
  }

  lemma StepKeepsHeld(s: State, op: Op, f: Family, key: string, a: Option<Addr>)
    requires AllocInv(s.net, f) && Holds(s.net, f, key, a) && OnRequests(op)
    ensures Holds(Apply(s, op).net, f, key, a)
  {
    if op.DoEnroll? {
      EnrollExtends(s, op.who, op.req, op.id, f);
    } else {
      OtherStepsKeepNet(s, op);
    }
  }

  lemma LooseStays(h: History, op: Op, c: Issued, f: Family)
    requires Loose(h, c, f) && Legal(h.s, op) && OnRequests(op) && (op.DoDecide? ==> HasRecord(h.s, op.id, c.key))
    requires CertsApart(Advance(h, op).issued)
    ensures Loose(Advance(h, op), c, f)
  {
    StepKeepsInv(h.s, op);
    StepKeepsFrame(h.s, op);
    StepKeepsOnlyAt(h.s, op, c.key, c.cert);
    assert AllocInv(h.s.net, f);
    StepKeepsHeld(h.s, op, f, c.key, c.addrs.Of(f));
  }

  /** The record's own certificate, or one nobody has seen. */
  ghost predicate IsChoice(h: History, id: string, cert: string) {
    id in h.s.requests && (cert in IssuedCerts(h.issued) ==> Issued(h.s.requests[id].key, h.s.requests[id].addrs, cert) in h.issued)
  }

  lemma GrantReplaces(h: History, id: string, name: string, cert: string, c: Issued, f: Family)
    requires Loose(h, c, f) && HasRecord(h.s, id, c.key) && (cert != c.cert || c.cert == "")
    requires name != "" && name !in Names(h.s) && IsChoice(h, id, cert)
    ensures var u := Advance(h, DoDecide(id, Grant(name, cert)));
            Replaced(u, c, f) && !u.s.members[c.key].Banned()
  {
    GrantMakesMember(h, id, name, cert);
    NewCertIsApart(h.issued, Issued(h.s.requests[id].key, h.s.requests[id].addrs, cert));
    LooseStays(h, DoDecide(id, Grant(name, cert)), c, f);
  }

  /** The key becomes a member under another certificate, and goes. */
  lemma JoinsAndGoes(h: History, id: string, cert: string, c: Issued, f: Family)
    requires Loose(h, c, f) && HasRecord(h.s, id, c.key) && (cert != c.cert || c.cert == "")
    requires MayDecide(h.s.requests[id], Grant("", cert)) && IsChoice(h, id, cert)
    ensures CanShare(h)
  {
    var name := Unused(Names(h.s));
    GrantReplaces(h, id, name, cert, c, f);
    var op := DoDecide(id, Grant(name, cert));
    MemberIsBanned(Advance(h, op), c, f);
    StepBack(h, op);
  }

  /** The key asks again, with its addresses still its own. */
  lemma AsksAgain(h: History, c: Issued, f: Family)
    requires Loose(h, c, f) && !IsBurned(h.s, c.key) && forall rid :: !HasRecord(h.s, rid, c.key)
    ensures CanShare(h)
  {
    var id := Unused(h.s.requests.Keys);
    var op := DoEnroll(WHO, Asking(c.key), id);
    assert PickFor(h.s, f, c.key, Tenant).Some?;
    AdmittedIs(h.s, WHO, Asking(c.key), id);
    EnrollLeavesOthers(h, WHO, Asking(c.key), id);
    LooseStays(h, op, c, f);
    var cert := Unused(IssuedCerts(h.issued));
    assert c.cert in IssuedCerts(h.issued);
    JoinsAndGoes(Advance(h, op), id, cert, c, f);
    StepBack(h, op);
  }

  /** Whatever record the key has or has not, it can join under another certificate. */
  lemma LostCanShare(h: History, c: Issued, f: Family)
    requires Loose(h, c, f) && RecordsIssued(h) && OffRecord(h.s, c) && !IsBurned(h.s, c.key)
    ensures CanShare(h)
  {
    if id :| HasRecord(h.s, id, c.key) {
      var r := h.s.requests[id];
      if IsApproved(h.s, id) {
        assert RecordIsSound(h, r);
        assert !Bundles(h.s, id, c) || c.cert == "";
        JoinsAndGoes(h, id, r.bundle.value, c, f);
      } else {
        var cert := Unused(IssuedCerts(h.issued));
        assert c.cert in IssuedCerts(h.issued);
        JoinsAndGoes(h, id, cert, c, f);
      }
    } else {
      AsksAgain(h, c, f);
    }
  }

  // ----- The guard is exact -----

  lemma IssuedIsOnlyAt(h: History, c: Issued)
    requires HistoryInv(h) && CertsApart(h.issued) && c in h.issued && !Gone(h.s, c.key)
    ensures OnlyAt(h.s, c.key, c.cert)
  {
    forall k | k in h.s.members && k != c.key
      ensures h.s.members[k].cert != c.cert
    {
      assert MemberIsIssued(h, k) && Tracked(h.s, c);
    }
    forall i | 0 <= i < |h.s.burned|
      ensures h.s.burned[i].cert != c.cert
    {
      assert WasIssued(h.issued, h.s.burned[i]);
      BurnedIsGone(h.s, h.s.burned[i]);
    }
  }

  lemma RecordIsHeld(h: History, id: string) returns (f: Family)
    requires HistoryInv(h) && id in h.s.requests
    ensures var r := h.s.requests[id];
            && r.addrs.Of(f).Some? && Holds(h.s.net, f, r.key, r.addrs.Of(f))
            && r.key != h.s.owner && !Gone(h.s, r.key) && !IsBurned(h.s, r.key)
  {
    assert RecordIsSound(h, h.s.requests[id]);
    f := if h.s.requests[id].addrs.v4.Some? then F4 else F6;
  }

  lemma BreachIsLoose(h: History, op: Op, c: Issued) returns (f: Family)
    requires HistoryInv(h) && CertsApart(Advance(h, op).issued) && c in Advance(h, op).issued
    requires Legal(h.s, op) && OnRequests(op) && op.id in h.s.requests
    requires c.key == h.s.requests[op.id].key && c.addrs == h.s.requests[op.id].addrs
    requires c.cert == "" || c in h.issued
    ensures Loose(Advance(History(h.s, h.issued + {c}), op), c, f)
    ensures !IsBurned(Apply(h.s, op), c.key)
  {
    f := RecordIsHeld(h, op.id);
    if c.cert != "" {
      IssuedIsOnlyAt(h, c);
    }
    assert Advance(History(h.s, h.issued + {c}), op).issued == Advance(h, op).issued;
    LooseStays(History(h.s, h.issued + {c}), op, c, f);
    BurnsNothing(h.s, op);
  }

  lemma BreachCanShare(h: History, op: Op)
    requires HistoryInv(h) && CertsApart(Advance(h, op).issued) && Legal(h.s, op) && !Guarded(h.s, op)
    ensures CanShare(Advance(h, op))
  {
    var c := BreachLoses(h, op);
    var f := BreachIsLoose(h, op, c);
    StepAccounts(h, op);
    LostCanShare(Advance(h, op), c, f);
  }

  /**
   From any state of a guarded run, a step is guarded exactly when no guarded steps
   after it can lead to two usable certificates for one address. Up to the step, and
   in the runs that show a breach, no certificate is issued to two keys.
   */
  lemma GuardIsExact(h: History, op: Op)
    requires HistoryInv(h) && CertsApart(Advance(h, op).issued) && Legal(h.s, op)
    ensures Guarded(h.s, op) <==> !CanShare(Advance(h, op))
  {
    if Guarded(h.s, op) {
      StepKeepsHistory(h, op);
      forall ops | GuardedRun(Advance(h, op), ops)
        ensures Unshared(Final(Advance(h, op), ops))
      {
        RunKeepsHistory(Advance(h, op), ops);
        InvIsUnshared(Final(Advance(h, op), ops));
      }
    } else {
      BreachCanShare(h, op);
    }
  }
}
