/**
 Why an address may be handed out again. A certificate cannot be revoked, so the
 history of every certificate ever delivered is kept beside the instance. Two
 certificates for one address never stay usable together in a run that leaves
 approved records as they are, and each step that does not is one too many.
 */
module Reuse {
  import opened Wrappers
  import opened Netip
  import opened Membership
  import opened Invariant

  datatype Issued = Issued(key: string, addrs: Dual<Option<Addr>>, cert: string)

  datatype History = History(s: State, issued: set<Issued>)

  /** A certificate is out as soon as its bundle is written, even if the name is refused after that. */
  function IssuedBy(s: State, op: Op): set<Issued> {
    if op.DoDecide? && op.id in s.requests && op.d.Approve? && op.d.certificate
    then {Issued(s.requests[op.id].key, s.requests[op.id].addrs, op.d.cert)}
    else {}
  }

  ghost function Advance(h: History, op: Op): History {
    History(Apply(h.s, op), h.issued + IssuedBy(h.s, op))
  }

  predicate IsApproved(s: State, id: string) {
    id in s.requests && s.requests[id].status.Approved?
  }

  /** The enrollment is answered with a new record. */
  ghost predicate Admits(s: State, who: Applicant, req: Request) {
    && TurnedAway(s, who, req).None?
    && (forall rid :: !HasRecord(s, rid, req.key))
    && (PickFor(s, F4, req.key, who.kind).Some? || PickFor(s, F6, req.key, who.kind).Some?)
  }

  /**
   Approved records are left as they are: no new record takes their identifier, they
   are not rejected, not forgotten, and only approved again with the certificate they
   were approved with. An approval names its certificate.
   */
  ghost predicate Guarded(s: State, op: Op) {
    match op
    case DoEnroll(who, req, id) => IsApproved(s, id) ==> !Admits(s, who, req)
    case DoDecide(id, d) => id in s.requests ==> MayDecide(s.requests[id], d)
    case DoForget(id) => !IsApproved(s, id)
    case _ => true
  }

  predicate MayDecide(r: Record, d: Decision) {
    match d
    case Unknown => true
    case Reject => !r.status.Approved?
    case Approve(certificate, _, _, _, cert) =>
      certificate ==> if r.status.Approved? then r.bundle == Some(cert) else cert != ""
  }

  ghost predicate GuardedRun(h: History, ops: seq<Op>)
    decreases |ops|
  {
    ops != [] ==> Legal(h.s, ops[0]) && Guarded(h.s, ops[0]) && GuardedRun(Advance(h, ops[0]), ops[1..])
  }

  ghost function Final(h: History, ops: seq<Op>): History
    decreases |ops|
  {
    if ops == [] then h else Final(Advance(h, ops[0]), ops[1..])
  }

  // ----- The invariant -----

  predicate ApprovedAs(s: State, id: string, key: string) {
    HasRecord(s, id, key) && s.requests[id].status.Approved?
  }

  ghost predicate HasApproved(s: State, key: string) {
    exists id :: ApprovedAs(s, id, key)
  }

  /** Its key still holds its addresses, and removing the member would burn this certificate. */
  ghost predicate Live(s: State, c: Issued) {
    && HasApproved(s, c.key)
    && HoldsBoth(s.net, c.key, c.addrs)
    && (c.key in s.members ==> s.members[c.key].cert == c.cert)
  }

  ghost predicate Spent(s: State, c: Issued) {
    Burned(c.key, c.cert) in s.burned
  }

  ghost predicate Tracked(s: State, c: Issued) {
    c.cert != "" && (Live(s, c) || Spent(s, c))
  }

  ghost predicate AllTracked(h: History) {
    forall c :: c in h.issued ==> Tracked(h.s, c)
  }

  ghost predicate OnePerKey(issued: set<Issued>) {
    forall c, d :: c in issued && d in issued && c.key == d.key ==> c == d
  }

  /** It never carried the lighthouse's or the owner's address. */
  ghost predicate AwayFromFixed(n: Net, c: Issued) {
    forall f: Family :: c.addrs.Of(f).Some? ==> c.addrs.Of(f).value !in Fixed(n, f)
  }

  ghost predicate AllAway(h: History) {
    forall c :: c in h.issued ==> AwayFromFixed(h.s.net, c)
  }

  ghost predicate RecordIsIssued(h: History, r: Record) {
    r.bundle.Some? && Issued(r.key, r.addrs, r.bundle.value) in h.issued
  }

  /** Whoever asked has an address, and an approval on record put a certificate out. */
  ghost predicate RecordIsSound(h: History, r: Record) {
    (r.addrs.v4.Some? || r.addrs.v6.Some?) && (r.status.Approved? ==> RecordIsIssued(h, r))
  }

  ghost predicate RecordsIssued(h: History) {
    forall id :: id in h.s.requests ==> RecordIsSound(h, h.s.requests[id])
  }

  /** A member's certificate was issued to it; the owner has none. */
  ghost predicate MemberIsIssued(h: History, k: string)
    requires k in h.s.members
  {
    var m := h.s.members[k];
    if k == h.s.owner then m.cert == "" else Issued(k, m.addrs, m.cert) in h.issued
  }

  ghost predicate MembersIssued(h: History) {
    forall k :: k in h.s.members ==> MemberIsIssued(h, k)
  }

  ghost predicate WasIssued(issued: set<Issued>, b: Burned) {
    exists c :: c in issued && c.key == b.key && c.cert == b.cert
  }

  ghost predicate BurnedIssued(h: History) {
    forall i :: 0 <= i < |h.s.burned| ==> WasIssued(h.issued, h.s.burned[i])
  }

  /** What the instance writes down was issued, and nothing issued escapes it. */
  ghost predicate Accounted(h: History) {
    RecordsIssued(h) && MembersIssued(h) && BurnedIssued(h)
  }

  ghost predicate HistoryInv(h: History) {
    Inv(h.s) && Accounted(h) && AllTracked(h) && OnePerKey(h.issued) && AllAway(h)
  }

  // ----- One step -----

  lemma BurnedIsGone(s: State, b: Burned)
    requires BurnedGone(s) && b in s.burned
    ensures Gone(s, b.key)
  {
    var i :| 0 <= i < |s.burned| && s.burned[i] == b;
    assert Gone(s, s.burned[i].key);
  }

  /** A key whose record is not approved has been issued nothing and is no member. */
  lemma UnapprovedIsNew(h: History, id: string)
    requires HistoryInv(h) && id in h.s.requests && !IsApproved(h.s, id)
    ensures forall c :: c in h.issued ==> c.key != h.s.requests[id].key
    ensures h.s.requests[id].key !in h.s.members
  {
    var key := h.s.requests[id].key;
    assert !HasApproved(h.s, key);
    forall c | c in h.issued
      ensures c.key != key
    {
      assert Tracked(h.s, c);
      if Spent(h.s, c) {
        BurnedIsGone(h.s, Burned(c.key, c.cert));
      }
    }
  }

  /** A key whose record is approved has been issued what the record's bundle says. */
  lemma ApprovedIsIssued(h: History, id: string, c: Issued)
    requires HistoryInv(h) && IsApproved(h.s, id) && c in h.issued && c.key == h.s.requests[id].key
    ensures h.s.requests[id].bundle == Some(c.cert) && h.s.requests[id].addrs == c.addrs
    ensures Live(h.s, c)
  {
    assert RecordIsIssued(h, h.s.requests[id]);
    assert Tracked(h.s, c);
    if Spent(h.s, c) {
      BurnedIsGone(h.s, Burned(c.key, c.cert));
    }
  }

  lemma EnrollKeepsApproved(s: State, who: Applicant, req: Request, id: string, key: string)
    requires Guarded(s, DoEnroll(who, req, id)) && HasApproved(s, key)
    ensures HasApproved(Enroll(s, who, req, id).0, key)
  {
    var rid :| ApprovedAs(s, rid, key);
    assert ApprovedAs(Enroll(s, who, req, id).0, rid, key);
  }

  lemma EnrollKeepsHeld(s: State, who: Applicant, req: Request, id: string, key: string, addrs: Dual<Option<Addr>>)
    requires AllocInv(s.net, F4) && AllocInv(s.net, F6) && HoldsBoth(s.net, key, addrs)
    ensures HoldsBoth(Enroll(s, who, req, id).0.net, key, addrs)
  {
    EnrollExtends(s, who, req, id, F4);
    EnrollExtends(s, who, req, id, F6);
  }

  lemma EnrollKeepsTracked(s: State, who: Applicant, req: Request, id: string, c: Issued)
    requires AllocInv(s.net, F4) && AllocInv(s.net, F6) && Guarded(s, DoEnroll(who, req, id)) && Tracked(s, c)
    ensures Tracked(Enroll(s, who, req, id).0, c)
  {
    var t := Enroll(s, who, req, id).0;
    assert t.members == s.members && t.burned == s.burned;
    if Live(s, c) {
      EnrollKeepsApproved(s, who, req, id, c.key);
      EnrollKeepsHeld(s, who, req, id, c.key, c.addrs);
    }
  }

  /** Deciding about another key's record touches nothing of this key. */
  lemma DecideKeepsOthers(s: State, id: string, d: Decision, key: string)
    requires id in s.requests ==> s.requests[id].key != key
    ensures var t := Decide(s, id, d).0;
            && (HasApproved(s, key) ==> HasApproved(t, key))
            && t.net == s.net && t.burned == s.burned
            && (key in t.members <==> key in s.members)
            && (key in s.members ==> t.members[key] == s.members[key])
  {
    if HasApproved(s, key) {
      var rid :| ApprovedAs(s, rid, key);
      assert ApprovedAs(Decide(s, id, d).0, rid, key);
    }
  }

  lemma ForgetKeepsApproved(s: State, id: string, key: string)
    requires !IsApproved(s, id) && HasApproved(s, key)
    ensures HasApproved(Forget(s, id).0, key)
  {
    var rid :| ApprovedAs(s, rid, key);
    assert ApprovedAs(Forget(s, id).0, rid, key);
  }

  lemma EraseKeepsOthers(s: State, k: string, key: string)
    requires k in s.members && key != k && HasApproved(s, key)
    ensures HasApproved(Erased(s, k), key)
  {
    var rid :| ApprovedAs(s, rid, key);
    assert ApprovedAs(Erased(s, k), rid, key);
  }

  /** Removing the member a certificate was issued to burns that certificate; others are untouched. */
  lemma EraseKeepsTracked(s: State, k: string, c: Issued)
    requires k in s.members && Tracked(s, c)
    ensures Tracked(Erased(s, k), c)
  {
    var t := Erased(s, k);
    assert s.burned <= t.burned;
    if Live(s, c) {
      if c.key == k {
        assert t.burned[|s.burned|] == Burned(c.key, c.cert);
      } else {
        EraseKeepsOthers(s, k, c.key);
      }
    }
  }

  lemma MarkKeepsTracked(s: State, k: string, e: Event, c: Issued)
    requires k in s.members && Tracked(s, c)
    ensures Tracked(Mark(s, k, e), c)
  {
    if Live(s, c) {
      MarkKeepsApproved(s, k, e, c.key);
    }
  }

  lemma MarkKeepsApproved(s: State, k: string, e: Event, key: string)
    requires k in s.members && HasApproved(s, key)
    ensures HasApproved(Mark(s, k, e), key)
  {
    var rid :| ApprovedAs(s, rid, key);
    assert ApprovedAs(Mark(s, k, e), rid, key);
  }

  lemma ForgetKeepsTracked(s: State, id: string, c: Issued)
    requires !IsApproved(s, id) && Tracked(s, c)
    ensures Tracked(Forget(s, id).0, c)
  {
    if Live(s, c) {
      ForgetKeepsApproved(s, id, c.key);
    }
  }

  /** Deciding about an approved record in a way that leaves it as it is. */
  lemma RepeatKeepsTracked(h: History, id: string, d: Decision, c: Issued)
    requires HistoryInv(h) && IsApproved(h.s, id) && MayDecide(h.s.requests[id], d)
    requires c in h.issued && c.key == h.s.requests[id].key
    ensures Tracked(Decide(h.s, id, d).0, c)
  {
    ApprovedIsIssued(h, id, c);
    assert ApprovedAs(Decide(h.s, id, d).0, id, c.key);
  }

  lemma DecideKeepsTracked(h: History, id: string, d: Decision, c: Issued)
    requires HistoryInv(h) && Guarded(h.s, DoDecide(id, d)) && c in h.issued
    ensures Tracked(Decide(h.s, id, d).0, c)
  {
    if IsApproved(h.s, id) && c.key == h.s.requests[id].key {
      RepeatKeepsTracked(h, id, d, c);
    } else {
      if id in h.s.requests && !IsApproved(h.s, id) {
        UnapprovedIsNew(h, id);
      }
      DecideKeepsOthers(h.s, id, d, c.key);
    }
  }

  lemma MemberStepKeepsTracked(s: State, k: string, c: Issued)
    requires k in s.members && Tracked(s, c)
    ensures Tracked(Ban(s, k).0, c) && Tracked(Unban(s, k).0, c) && Tracked(RemoveMember(s, k).0, c)
  {
    MarkKeepsTracked(s, k, BanEvent, c);
    MarkKeepsTracked(s, k, UnbanEvent, c);
    EraseKeepsTracked(s, k, c);
  }

  /** Certificates issued before a step are accounted for after it. */
  lemma StepKeepsTracked(h: History, op: Op, c: Issued)
    requires HistoryInv(h) && Guarded(h.s, op) && c in h.issued
    ensures Tracked(Apply(h.s, op), c)
  {
    match op {
      case DoEnroll(who, req, id) => EnrollKeepsTracked(h.s, who, req, id, c);
      case DoDecide(id, d) => DecideKeepsTracked(h, id, d, c);
      case DoForget(id) => ForgetKeepsTracked(h.s, id, c);
      case _ =>
        if op.pick in h.s.members {
          MemberStepKeepsTracked(h.s, op.pick, c);
        }
    }
  }

  lemma ApprovalIsLive(s: State, id: string, d: Decision)
    requires id in s.requests && RecordsHold(s) && s.requests[id].key !in s.members && d.Approve? && d.certificate
    ensures Live(Decide(s, id, d).0, Issued(s.requests[id].key, s.requests[id].addrs, d.cert))
  {
    assert ApprovedAs(Decide(s, id, d).0, id, s.requests[id].key);
  }

  /** A certificate issued by a step is live after it. */
  lemma StepIssuesLive(h: History, op: Op, c: Issued)
    requires HistoryInv(h) && Guarded(h.s, op) && c in IssuedBy(h.s, op) && c !in h.issued
    ensures Tracked(Apply(h.s, op), c)
  {
    assert !IsApproved(h.s, op.id);
    UnapprovedIsNew(h, op.id);
    ApprovalIsLive(h.s, op.id, op.d);
  }

  lemma StepTracksAll(h: History, op: Op)
    requires HistoryInv(h) && Guarded(h.s, op)
    ensures AllTracked(Advance(h, op))
  {
    forall c | c in Advance(h, op).issued
      ensures Tracked(Apply(h.s, op), c)
    {
      if c in h.issued {
        StepKeepsTracked(h, op, c);
      } else {
        StepIssuesLive(h, op, c);
      }
    }
  }

  /** Approving again issues nothing that is not out already. */
  lemma RepeatIssuesNothing(h: History, op: Op)
    requires HistoryInv(h) && Guarded(h.s, op) && op.DoDecide? && IsApproved(h.s, op.id)
    ensures IssuedBy(h.s, op) <= h.issued
  {
    assert RecordIsSound(h, h.s.requests[op.id]);
  }

  lemma OneMoreKey(issued: set<Issued>, c: Issued)
    requires OnePerKey(issued) && forall d :: d in issued ==> d.key != c.key
    ensures OnePerKey(issued + {c})
  {
  }

  lemma StepIssuesOnce(h: History, op: Op)
    requires HistoryInv(h) && Guarded(h.s, op)
    ensures OnePerKey(h.issued + IssuedBy(h.s, op))
  {
    if IssuedBy(h.s, op) == {} {
      assert h.issued + {} == h.issued;
    } else if IsApproved(h.s, op.id) {
      RepeatIssuesNothing(h, op);
      assert h.issued + IssuedBy(h.s, op) == h.issued;
    } else {
      UnapprovedIsNew(h, op.id);
      OneMoreKey(h.issued, Issued(h.s.requests[op.id].key, h.s.requests[op.id].addrs, op.d.cert));
    }
  }

  // ----- What the instance writes down was issued -----

  /** Every step, guarded or not, writes down only what was issued. */
  lemma StepAccounts(h: History, op: Op)
    requires Inv(h.s) && Accounted(h)
    ensures Accounted(Advance(h, op))
  {
    StepIssuesRecords(h, op);
    StepIssuesMembers(h, op);
    StepIssuesBurned(h, op);
  }

  lemma StepIssuesRecords(h: History, op: Op)
    requires RecordsIssued(h)
    ensures RecordsIssued(Advance(h, op))
  {
    var u := Advance(h, op);
    forall id | id in u.s.requests
      ensures RecordIsSound(u, u.s.requests[id])
    {
      match op {
        case DoEnroll(who, req, rid) => EnrollIssuesRecord(h, who, req, rid, id);
        case DoDecide(rid, d) => DecideIssuesRecord(h, rid, d, id);
        case _ =>
          assert id in h.s.requests && u.s.requests[id] == h.s.requests[id];
          assert RecordIsSound(h, h.s.requests[id]);
      }
    }
  }

  lemma EnrollIssuesRecord(h: History, who: Applicant, req: Request, rid: string, id: string)
    requires RecordsIssued(h) && id in Enroll(h.s, who, req, rid).0.requests
    ensures RecordIsSound(h, Enroll(h.s, who, req, rid).0.requests[id])
  {
    assert id in h.s.requests ==> RecordIsSound(h, h.s.requests[id]);
  }

  lemma DecideIssuesRecord(h: History, rid: string, d: Decision, id: string)
    requires RecordsIssued(h) && id in Decide(h.s, rid, d).0.requests
    ensures RecordIsSound(Advance(h, DoDecide(rid, d)), Decide(h.s, rid, d).0.requests[id])
  {
    assert RecordIsSound(h, h.s.requests[id]);
  }

  lemma StepIssuesMembers(h: History, op: Op)
    requires Inv(h.s) && MembersIssued(h)
    ensures MembersIssued(Advance(h, op))
  {
    var u := Advance(h, op);
    StepKeepsFrame(h.s, op);
    forall k | k in u.s.members
      ensures MemberIsIssued(u, k)
    {
      if k in h.s.members {
        assert MemberIsIssued(h, k);
      }
      if op.DoDecide? {
        DecideIssuesMember(h, op.id, op.d, k);
      } else {
        OthersKeepCertificates(h.s, op, k);
      }
    }
  }

  /** A decision leaves a member as it was, or makes one of the record it is about. */
  lemma DecideMakesMember(s: State, id: string, d: Decision, k: string)
    requires k in Decide(s, id, d).0.members
    ensures var m := Decide(s, id, d).0.members[k];
            || (k in s.members && m == s.members[k])
            || (&& id in s.requests && k == s.requests[id].key
                && IssuedBy(s, DoDecide(id, d)) == {Issued(k, m.addrs, m.cert)})
  {
  }

  lemma DecideIssuesMember(h: History, id: string, d: Decision, k: string)
    requires OwnerApart(h.s) && MembersIssued(h) && k in Decide(h.s, id, d).0.members
    ensures MemberIsIssued(Advance(h, DoDecide(id, d)), k)
  {
    DecideMakesMember(h.s, id, d, k);
    assert Decide(h.s, id, d).0.owner == h.s.owner;
    assert k in h.s.members ==> MemberIsIssued(h, k);
  }

  /** Only a decision makes members or gives them certificates. */
  lemma OthersKeepCertificates(s: State, op: Op, k: string)
    requires !op.DoDecide? && k in Apply(s, op).members
    ensures k in s.members
    ensures Apply(s, op).members[k].cert == s.members[k].cert && Apply(s, op).members[k].addrs == s.members[k].addrs
  {
  }

  /** The burned list grows by the member that is removed, and by nothing else. */
  lemma BurnedByStep(s: State, op: Op)
    ensures var t := Apply(s, op);
            || t.burned == s.burned
            || (&& op.DoRemove? && op.pick in s.members && !s.members[op.pick].kind.Owner?
                && t.burned == s.burned + [Burned(op.pick, s.members[op.pick].cert)])
  {
  }

  lemma StillIssued(issued: set<Issued>, more: set<Issued>, b: Burned)
    requires WasIssued(issued, b)
    ensures WasIssued(issued + more, b)
  {
    var c :| c in issued && c.key == b.key && c.cert == b.cert;
    assert c in issued + more;
  }

  lemma StepIssuesBurned(h: History, op: Op)
    requires OwnerApart(h.s) && Accounted(h)
    ensures BurnedIssued(Advance(h, op))
  {
    BurnedByStep(h.s, op);
    var u := Advance(h, op);
    forall i | 0 <= i < |u.s.burned|
      ensures WasIssued(u.issued, u.s.burned[i])
    {
      if i < |h.s.burned| {
        StillIssued(h.issued, IssuedBy(h.s, op), h.s.burned[i]);
      } else {
        assert MemberIsIssued(h, op.pick);
        assert Issued(op.pick, h.s.members[op.pick].addrs, h.s.members[op.pick].cert) in u.issued;
      }
    }
  }

  lemma HeldIsAway(n: Net, key: string, addrs: Dual<Option<Addr>>, f: Family)
    requires NetInv(n) && HoldsBoth(n, key, addrs) && addrs.Of(f).Some?
    ensures addrs.Of(f).value !in Fixed(n, f)
  {
    assert AllocInv(n, f) && Holds(n, f, key, addrs.Of(f));
    assert addrs.Of(f).value in n.alloc.Of(f).Values;
  }

  lemma StepKeepsAway(h: History, op: Op)
    requires HistoryInv(h)
    ensures AllAway(Advance(h, op))
  {
    StepKeepsFrame(h.s, op);
    forall c, f: Family | c in IssuedBy(h.s, op) && c.addrs.Of(f).Some?
      ensures c.addrs.Of(f).value !in Fixed(h.s.net, f)
    {
      HeldIsAway(h.s.net, c.key, c.addrs, f);
    }
    assert forall f: Family :: Fixed(Apply(h.s, op).net, f) == Fixed(h.s.net, f);
  }

  lemma StepKeepsHistory(h: History, op: Op)
    requires HistoryInv(h) && Legal(h.s, op) && Guarded(h.s, op)
    ensures HistoryInv(Advance(h, op))
  {
    StepKeepsInv(h.s, op);
    StepAccounts(h, op);
    StepTracksAll(h, op);
    StepIssuesOnce(h, op);
    StepKeepsAway(h, op);
  }

  lemma {:induction false} RunKeepsHistory(h: History, ops: seq<Op>)
    requires HistoryInv(h) && GuardedRun(h, ops)
    ensures HistoryInv(Final(h, ops))
    decreases |ops|
  {
    if ops == [] {
    } else {
      StepKeepsHistory(h, ops[0]);
      RunKeepsHistory(Advance(h, ops[0]), ops[1..]);
    }
  }

  // ----- What it gives -----

  /** Of any two certificates issued to different keys for one address, in either family, one is blocked. */
  ghost predicate Unshared(h: History) {
    forall c, d, f: Family ::
      c in h.issued && d in h.issued && c.key != d.key && c.addrs.Of(f).Some? && c.addrs.Of(f) == d.addrs.Of(f) ==>
        c.cert in Blocked(h.s) || d.cert in Blocked(h.s)
  }

  /** Two keys never hold one address, so of two certificates for it one is burned. */
  lemma OneIsSpent(h: History, f: Family, c: Issued, d: Issued)
    requires HistoryInv(h) && c in h.issued && d in h.issued && c.key != d.key
    requires c.addrs.Of(f).Some? && c.addrs.Of(f) == d.addrs.Of(f)
    ensures c.cert != "" && d.cert != "" && (Spent(h.s, c) || Spent(h.s, d))
  {
    assert Tracked(h.s, c) && Tracked(h.s, d);
    if Live(h.s, c) && Live(h.s, d) {
      LiveApart(h.s, f, c, d);
      assert false;
    }
  }

  lemma SharedIsBlocked(h: History, f: Family, c: Issued, d: Issued)
    requires HistoryInv(h) && c in h.issued && d in h.issued && c.key != d.key
    requires c.addrs.Of(f).Some? && c.addrs.Of(f) == d.addrs.Of(f)
    ensures c.cert in Blocked(h.s) || d.cert in Blocked(h.s)
  {
    OneIsSpent(h, f, c, d);
    SpentIsBlocked(h.s, c);
    SpentIsBlocked(h.s, d);
  }

  lemma SpentIsBlocked(s: State, c: Issued)
    requires c.cert != ""
    ensures Spent(s, c) ==> c.cert in Blocked(s)
  {
    if Spent(s, c) {
      var i :| 0 <= i < |s.burned| && s.burned[i] == Burned(c.key, c.cert);
      assert s.burned[i].cert == c.cert;
    }
  }

  lemma LiveApart(s: State, f: Family, c: Issued, d: Issued)
    requires Inv(s) && Live(s, c) && Live(s, d) && c.key != d.key && c.addrs.Of(f).Some?
    ensures c.addrs.Of(f) != d.addrs.Of(f)
  {
    assert Holds(s.net, f, c.key, c.addrs.Of(f)) && Holds(s.net, f, d.key, d.addrs.Of(f));
    assert AllocInv(s.net, f);
  }

  lemma InvIsUnshared(h: History)
    requires HistoryInv(h)
    ensures Unshared(h)
  {
    forall c, d, f: Family |
      c in h.issued && d in h.issued && c.key != d.key && c.addrs.Of(f).Some? && c.addrs.Of(f) == d.addrs.Of(f)
      ensures c.cert in Blocked(h.s) || d.cert in Blocked(h.s)
    {
      SharedIsBlocked(h, f, c, d);
    }
  }

  ghost function Fresh(owner: string, name: string, token: bool, overlay: Dual<Option<Prefix>>): History {
    History(Created(owner, name, token, overlay), {})
  }

  lemma FreshInv(owner: string, name: string, token: bool, overlay: Dual<Option<Prefix>>)
    requires Roomy(overlay.v4) && Roomy(overlay.v6)
    ensures HistoryInv(Fresh(owner, name, token, overlay))
  {
    CreatedInv(owner, name, token, overlay);
  }

  /**
   The safety of reuse. From a fresh instance, in every run that leaves approved
   records as they are: a key is issued at most one certificate, no certificate
   carries the lighthouse's or the owner's address, and of any two certificates
   issued to different keys for the same address, in either family, at least one is
   in the current blocklist.
   */
  lemma AddressNeverShared(owner: string, name: string, token: bool, overlay: Dual<Option<Prefix>>, ops: seq<Op>)
    requires Roomy(overlay.v4) && Roomy(overlay.v6)
    requires GuardedRun(Fresh(owner, name, token, overlay), ops)
    ensures var h := Final(Fresh(owner, name, token, overlay), ops); OnePerKey(h.issued) && AllAway(h) && Unshared(h)
  {
    FreshInv(owner, name, token, overlay);
    RunKeepsHistory(Fresh(owner, name, token, overlay), ops);
    InvIsUnshared(Final(Fresh(owner, name, token, overlay), ops));
  }
}
