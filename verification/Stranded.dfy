/**
 A name refused after the approval. The certificate is out by then, and where nobody
 goes back to approved records its key can never be banned or removed.
 */
module Stranded {
  import opened Wrappers
  import opened Membership
  import opened Invariant
  import opened Reuse
  import opened Breach

  /** Decisions are taken, and records forgotten, only before an approval. */
  predicate HandsOff(s: State, op: Op) {
    op.DoDecide? || op.DoForget? ==> !IsApproved(s, op.id)
  }

  ghost predicate HandsOffRun(h: History, ops: seq<Op>)
    decreases |ops|
  {
    ops != [] ==>
      && Legal(h.s, ops[0]) && Guarded(h.s, ops[0]) && HandsOff(h.s, ops[0])
      && HandsOffRun(Advance(h, ops[0]), ops[1..])
  }

  lemma {:induction false} HandsOffIsGuarded(h: History, ops: seq<Op>)
    requires HandsOffRun(h, ops)
    ensures GuardedRun(h, ops)
    decreases |ops|
  {
    if ops == [] {
    } else {
      HandsOffIsGuarded(Advance(h, ops[0]), ops[1..]);
    }
  }

  // ----- The name was refused -----

  /** Its bundle is on record for whoever asks, and its key is no member. */
  ghost predicate Adrift(s: State, id: string, c: Issued) {
    Bundles(s, id, c) && c.key !in s.members
  }

  lemma EnrollKeepsAdrift(s: State, who: Applicant, req: Request, rid: string, id: string, c: Issued)
    requires Guarded(s, DoEnroll(who, req, rid)) && Adrift(s, id, c)
    ensures Adrift(Enroll(s, who, req, rid).0, id, c)
  {
  }

  lemma DecideKeepsAdrift(s: State, rid: string, d: Decision, id: string, c: Issued)
    requires OneRecordPerKey(s) && !IsApproved(s, rid) && Adrift(s, id, c)
    ensures Adrift(Decide(s, rid, d).0, id, c)
  {
  }

  lemma StepKeepsAdrift(s: State, op: Op, id: string, c: Issued)
    requires OneRecordPerKey(s) && Guarded(s, op) && HandsOff(s, op) && Adrift(s, id, c)
    ensures Adrift(Apply(s, op), id, c)
  {
    match op {
      case DoEnroll(who, req, rid) => EnrollKeepsAdrift(s, who, req, rid, id, c);
      case DoDecide(rid, d) => DecideKeepsAdrift(s, rid, d, id, c);
      case _ =>
    }
  }

  lemma {:induction false} AdriftForEver(h: History, ops: seq<Op>, id: string, c: Issued)
    requires HistoryInv(h) && HandsOffRun(h, ops) && Adrift(h.s, id, c)
    ensures Adrift(Final(h, ops).s, id, c)
    decreases |ops|
  {
    if ops == [] {
    } else {
      StepKeepsHistory(h, ops[0]);
      StepKeepsAdrift(h.s, ops[0], id, c);
      AdriftForEver(Advance(h, ops[0]), ops[1..], id, c);
    }
  }

  // ----- The name was free -----

  ghost predicate Settled(s: State, c: Issued) {
    c.key in s.members || Spent(s, c)
  }

  lemma MemberStepKeepsSettled(s: State, k: string, c: Issued)
    requires k in s.members && Settled(s, c) && (c.key in s.members ==> s.members[c.key].cert == c.cert)
    ensures Settled(Ban(s, k).0, c) && Settled(Unban(s, k).0, c) && Settled(RemoveMember(s, k).0, c)
  {
    assert s.burned <= RemoveMember(s, k).0.burned;
    if k == c.key && RemoveMember(s, k).1 == None {
      assert RemoveMember(s, k).0.burned[|s.burned|] == Burned(c.key, c.cert);
    }
  }

  lemma RequestStepKeepsSettled(s: State, op: Op, c: Issued)
    requires OnRequests(op) && Settled(s, c)
    ensures Settled(Apply(s, op), c)
  {
    BurnsNothing(s, op);
  }

  /** A member has the certificate that was issued to it. */
  lemma MemberHasIts(h: History, c: Issued)
    requires HistoryInv(h) && c in h.issued && c.key in h.s.members
    ensures h.s.members[c.key].cert == c.cert
  {
    assert Tracked(h.s, c);
    if Spent(h.s, c) {
      BurnedIsGone(h.s, Burned(c.key, c.cert));
    }
  }

  /** A member stays one until it is burned. */
  lemma StepKeepsSettled(h: History, op: Op, c: Issued)
    requires HistoryInv(h) && c in h.issued && Settled(h.s, c)
    ensures Settled(Apply(h.s, op), c)
  {
    if OnRequests(op) {
      RequestStepKeepsSettled(h.s, op, c);
    } else if op.pick in h.s.members {
      if c.key in h.s.members {
        MemberHasIts(h, c);
      }
      MemberStepKeepsSettled(h.s, op.pick, c);
    }
  }

  lemma {:induction false} SettledForEver(h: History, ops: seq<Op>, c: Issued)
    requires HistoryInv(h) && GuardedRun(h, ops) && c in h.issued && Settled(h.s, c)
    ensures Settled(Final(h, ops).s, c)
    decreases |ops|
  {
    if ops == [] {
    } else {
      StepKeepsHistory(h, ops[0]);
      StepKeepsSettled(h, ops[0], c);
      SettledForEver(Advance(h, ops[0]), ops[1..], c);
    }
  }

  // ----- What an approval decides -----

  /** On record for good: never a member, never burned, its addresses never given to another key. */
  ghost predicate OutOfReach(h: History, c: Issued) {
    && c.key !in h.s.members
    && !Spent(h.s, c)
    && HoldsBoth(h.s.net, c.key, c.addrs)
    && (CertsApart(h.issued) ==> c.cert !in Blocked(h.s))
  }

  lemma AdriftIsOutOfReach(h: History, id: string, c: Issued)
    requires HistoryInv(h) && c in h.issued && Adrift(h.s, id, c)
    ensures OutOfReach(h, c)
  {
    ApprovedIsIssued(h, id, c);
    if Spent(h.s, c) {
      BurnedIsGone(h.s, Burned(c.key, c.cert));
    }
    if CertsApart(h.issued) {
      IssuedIsOnlyAt(h, c);
      UnlistedIsNotBlocked(h.s, c.cert);
    }
  }

  lemma {:induction false} IssuedStays(h: History, ops: seq<Op>, c: Issued)
    requires c in h.issued
    ensures c in Final(h, ops).issued
    decreases |ops|
  {
    if ops == [] {
    } else {
      IssuedStays(Advance(h, ops[0]), ops[1..], c);
    }
  }

  /** What the approval of a waiting record leaves, by whether the name was free. */
  lemma ApprovalSettles(s: State, id: string, d: Decision)
    requires id in s.requests && d.Approve? && d.certificate && s.requests[id].key !in s.members
    ensures var r, t := s.requests[id], Decide(s, id, d).0;
            var c := Issued(r.key, r.addrs, d.cert);
            if NameIsTaken(s, r.key, ChosenName(r, d)) then Adrift(t, id, c) else Settled(t, c)
  {
  }

  /**
   The decision settles it, for every later state in which nobody goes back to an
   approved record: the certificate belongs to a member or has been burned exactly
   if the name was free at the decision, and one that does not is out of reach of
   every ban and removal.
   */
  lemma NameDecidesReach(h: History, id: string, d: Decision, ops: seq<Op>)
    requires HistoryInv(h) && id in h.s.requests && !IsApproved(h.s, id)
    requires d.Approve? && d.certificate && d.cert != ""
    requires HandsOffRun(Advance(h, DoDecide(id, d)), ops)
    ensures var r := h.s.requests[id];
            var c, u := Issued(r.key, r.addrs, d.cert), Final(Advance(h, DoDecide(id, d)), ops);
            && c in u.issued
            && (Settled(u.s, c) <==> !NameIsTaken(h.s, r.key, ChosenName(r, d)))
            && !(c.key in u.s.members && Spent(u.s, c))
            && (NameIsTaken(h.s, r.key, ChosenName(r, d)) ==> OutOfReach(u, c) && Bundles(u.s, id, c))
  {
    var r, h1 := h.s.requests[id], Advance(h, DoDecide(id, d));
    var c := Issued(r.key, r.addrs, d.cert);
    UnapprovedIsNew(h, id);
    ApprovalSettles(h.s, id, d);
    StepKeepsHistory(h, DoDecide(id, d));
    HandsOffIsGuarded(h1, ops);
    RunKeepsHistory(h1, ops);
    IssuedStays(h1, ops, c);
    var u := Final(h1, ops);
    if NameIsTaken(h.s, r.key, ChosenName(r, d)) {
      AdriftForEver(h1, ops, id, c);
      AdriftIsOutOfReach(u, id, c);
    } else {
      SettledForEver(h1, ops, c);
      if Spent(u.s, c) {
        BurnedIsGone(u.s, Burned(c.key, c.cert));
      }
    }
  }
}
