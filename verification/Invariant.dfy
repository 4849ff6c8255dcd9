/** The instance invariant over every step, refusals and half-done refusals included. */
module Invariant {
  import opened Wrappers
  import opened Netip
  import opened Ipam
  import opened Pools
  import opened Membership

  datatype Op =
    | DoEnroll(who: Applicant, req: Request, id: string)
    | DoDecide(id: string, d: Decision)
    | DoForget(id: string)
    | DoBan(ref: string, pick: string)
    | DoUnban(ref: string, pick: string)
    | DoRemove(ref: string, pick: string)

  /**
   What the formats guarantee: an applicant is a tenant or a connector, its key is
   not the owner's identity, and a member lookup picks one of the members meant,
   whichever the map yields first.
   */
  ghost predicate Legal(s: State, op: Op) {
    match op
    case DoEnroll(who, req, _) => !who.kind.Owner? && req.key != s.owner
    case DoBan(ref, pick) => PickIsMeant(s, ref, pick)
    case DoUnban(ref, pick) => PickIsMeant(s, ref, pick)
    case DoRemove(ref, pick) => PickIsMeant(s, ref, pick)
    case _ => true
  }

  ghost predicate PickIsMeant(s: State, ref: string, pick: string) {
    Means(s, ref, pick) || forall k: string :: !Means(s, ref, k)
  }

  ghost function Apply(s: State, op: Op): State {
    match op
    case DoEnroll(who, req, id) => Enroll(s, who, req, id).0
    case DoDecide(id, d) => Decide(s, id, d).0
    case DoForget(id) => Forget(s, id).0
    case DoBan(ref, pick) => if Means(s, ref, pick) then Ban(s, pick).0 else s
    case DoUnban(ref, pick) => if Means(s, ref, pick) then Unban(s, pick).0 else s
    case DoRemove(ref, pick) => if Means(s, ref, pick) then RemoveMember(s, pick).0 else s
  }

  // ----- A fresh instance -----

  /** The overlay has room for the two addresses an instance reserves. */
  ghost predicate Roomy(overlay: Option<Prefix>) {
    overlay.Some? ==> var p := overlay.value; p.Valid() && FirstUsable(p) < LastUsable(p)
  }

  /** The first two usable addresses go to the lighthouse and the owner. */
  lemma FreshFixed(p: Prefix)
    requires Roomy(Some(p))
    ensures var first := Addr(p.addr.fam, FirstUsable(p));
            && LeastFree(p, {}) == Some(first)
            && LeastFree(p, {first}) == Some(Addr(p.addr.fam, FirstUsable(p) + 1))
  {
    var first := Addr(p.addr.fam, FirstUsable(p));
    assert Segmented(p, {}, FirstUsable(p), LastUsable(p));
    EndsOfGap(p, {}, FirstUsable(p), LastUsable(p));
    assert Segmented(p, {first}, FirstUsable(p) + 1, LastUsable(p));
    EndsOfGap(p, {first}, FirstUsable(p) + 1, LastUsable(p));
  }

  /** Addresses that were found are the ones a creation gives, and finding two means there is room. */
  lemma FirstTwoAsCreated(p: Prefix, first: Addr, second: Addr)
    requires FirstTwo(p, first, second)
    ensures Roomy(Some(p))
    ensures FirstFree(Some(p), {}) == Some(first) && FirstFree(Some(p), Present([Some(first)])) == Some(second)
  {
    assert Present([Some(first)]) == {first};
    SearchUnique(p, {}, Some(first));
    SearchUnique(p, {first}, Some(second));
    assert Free(p, {first}, second) && second != first;
  }

  lemma CreatedFixed(owner: string, name: string, token: bool, overlay: Dual<Option<Prefix>>, f: Family)
    requires Roomy(overlay.Of(f))
    ensures var n := Created(owner, name, token, overlay).net;
            && FixedInv(n, f)
            && (overlay.Of(f).Some? ==>
                  var p := overlay.Of(f).value;
                  && n.lighthouse.Of(f) == Some(Addr(p.addr.fam, FirstUsable(p)))
                  && n.home.Of(f) == Some(Addr(p.addr.fam, FirstUsable(p) + 1)))
  {
    if overlay.Of(f).Some? {
      var p := overlay.Of(f).value;
      FreshFixed(p);
      var first := Addr(p.addr.fam, FirstUsable(p));
      assert Present([Some(first)]) == {first};
    }
  }

  lemma CreatedInv(owner: string, name: string, token: bool, overlay: Dual<Option<Prefix>>)
    requires Roomy(overlay.v4) && Roomy(overlay.v6)
    ensures Inv(Created(owner, name, token, overlay))
  {
    CreatedFixed(owner, name, token, overlay, F4);
    CreatedFixed(owner, name, token, overlay, F6);
  }

  // ----- Enroll -----

  /** Members hold nothing beyond the allocations and the owner's address, so they take nothing away. */
  lemma TakenIsHeldOrFixed(s: State, f: Family)
    requires MembersHold(s)
    ensures var held, fixed := s.net.alloc.Of(f).Values, Fixed(s.net, f);
            held + (MemberAddrs(s, f) + fixed) == held + fixed
  {
    forall a | a in MemberAddrs(s, f)
      ensures a in s.net.alloc.Of(f).Values + Fixed(s.net, f)
    {
      var k :| k in s.members && s.members[k].addrs.Of(f) == Some(a);
      assert k != s.owner ==> Holds(s.net, f, k, Some(a));
    }
  }

  lemma PickIgnoresMembers(s: State, f: Family, key: string, kind: Kind)
    requires MembersHold(s) && s.net.overlay.Of(f).Some?
    ensures PickFor(s, f, key, kind)
         == Pick(s.net.overlay.Of(f).value, s.net.alloc.Of(f), key, kind, Fixed(s.net, f))
  {
    TakenIsHeldOrFixed(s, f);
  }

  /** Every entry of one map is in the other. */
  ghost predicate Extends(big: map<string, Addr>, small: map<string, Addr>) {
    forall k :: k in small ==> k in big && big[k] == small[k]
  }

  /** Allocating only ever adds the key's own entry. */
  lemma HoldGrows(s: State, f: Family, key: string, kind: Kind)
    requires AllocInv(s.net, f)
    ensures var held := Hold(s.net.alloc.Of(f), key, PickFor(s, f, key, kind));
            && Extends(held, s.net.alloc.Of(f))
            && held.Keys <= s.net.alloc.Of(f).Keys + {key}
            && (PickFor(s, f, key, kind).Some? ==> key in held && held[key] == PickFor(s, f, key, kind).value)
  {
  }

  /** An enrollment takes no address from anybody. */
  lemma EnrollExtends(s: State, who: Applicant, req: Request, id: string, f: Family)
    requires AllocInv(s.net, f)
    ensures Extends(Enroll(s, who, req, id).0.net.alloc.Of(f), s.net.alloc.Of(f))
  {
    HoldGrows(s, f, req.key, who.kind);
    EnrollAllocates(s, who, req, id, f);
  }

  lemma EnrollAllocates(s: State, who: Applicant, req: Request, id: string, f: Family)
    ensures var alloc := Enroll(s, who, req, id).0.net.alloc.Of(f);
            alloc == s.net.alloc.Of(f) || alloc == Hold(s.net.alloc.Of(f), req.key, PickFor(s, f, req.key, who.kind))
  {
  }

  /** What was held under an allocation is held under any extension of it. */
  lemma HoldsMore(s: State, n: Net)
    requires RecordsHold(s) && MembersHold(s) && n.home == s.net.home
    requires Extends(n.alloc.v4, s.net.alloc.v4) && Extends(n.alloc.v6, s.net.alloc.v6)
    ensures RecordsHold(s.(net := n)) && MembersHold(s.(net := n))
  {
  }

  lemma HoldKeepsSound(p: Prefix, reserved: set<Addr>, held: map<string, Addr>, key: string, kind: Kind)
    requires Sound(p, reserved, held)
    ensures Sound(p, reserved, Hold(held, key, Pick(p, held, key, kind, reserved)))
  {
    if key in held {
      assert held[key := held[key]] == held;
    } else {
      FreshKeyFits(p, reserved, held, key, kind);
    }
  }

  lemma AdmitKeepsAlloc(s: State, who: Applicant, req: Request, id: string, f: Family)
    requires NetInv(s.net) && MembersHold(s)
    ensures AllocInv(Admit(s, who, req, id).net, f)
  {
    var n := Admit(s, who, req, id).net;
    assert n.alloc.Of(f) == Hold(s.net.alloc.Of(f), req.key, PickFor(s, f, req.key, who.kind));
    if s.net.overlay.Of(f).Some? {
      PickIgnoresMembers(s, f, req.key, who.kind);
      HoldKeepsSound(s.net.overlay.Of(f).value, Fixed(s.net, f), s.net.alloc.Of(f), req.key, who.kind);
    }
  }

  lemma AdmitKeepsOneRecord(s: State, who: Applicant, req: Request, id: string)
    requires OneRecordPerKey(s) && forall rid :: !HasRecord(s, rid, req.key)
    ensures OneRecordPerKey(Admit(s, who, req, id))
  {
    assert forall i :: i in s.requests ==> HasRecord(s, i, s.requests[i].key);
  }

  lemma AdmitKeepsOwner(s: State, who: Applicant, req: Request, id: string)
    requires OwnerApart(s) && NetInv(s.net) && !who.kind.Owner? && req.key != s.owner
    ensures OwnerApart(Admit(s, who, req, id))
  {
    HoldGrows(s, F4, req.key, who.kind);
    HoldGrows(s, F6, req.key, who.kind);
  }

  lemma AdmitKeepsShape(s: State, who: Applicant, req: Request, id: string)
    requires Shape(s) && NetInv(s.net) && !who.kind.Owner? && req.key != s.owner && !IsBurned(s, req.key)
    requires forall rid :: !HasRecord(s, rid, req.key)
    ensures Shape(Admit(s, who, req, id))
  {
    AdmitKeepsOneRecord(s, who, req, id);
    AdmitKeepsOwner(s, who, req, id);
    AdmitKeepsGone(s, who, req, id);
  }

  lemma AdmitKeepsGone(s: State, who: Applicant, req: Request, id: string)
    requires BurnedGone(s) && NetInv(s.net) && !IsBurned(s, req.key)
    ensures BurnedGone(Admit(s, who, req, id))
  {
    HoldGrows(s, F4, req.key, who.kind);
    HoldGrows(s, F6, req.key, who.kind);
    var t := Admit(s, who, req, id);
    forall i | 0 <= i < |t.burned|
      ensures Gone(t, t.burned[i].key)
    {
      assert Gone(s, s.burned[i].key) && s.burned[i].key != req.key;
    }
  }

  lemma AdmitKeepsHolds(s: State, who: Applicant, req: Request, id: string)
    requires NetInv(s.net) && RecordsHold(s) && MembersHold(s)
    ensures RecordsHold(Admit(s, who, req, id)) && MembersHold(Admit(s, who, req, id))
  {
    HoldGrows(s, F4, req.key, who.kind);
    HoldGrows(s, F6, req.key, who.kind);
    var t := Admit(s, who, req, id);
    HoldsMore(s, t.net);
    assert HoldsBoth(t.net, req.key, t.requests[id].addrs);
    AddRecordHolds(s.(net := t.net), id, t.requests[id]);
  }

  lemma AddRecordHolds(s: State, id: string, r: Record)
    requires RecordsHold(s) && MembersHold(s) && HoldsBoth(s.net, r.key, r.addrs)
    ensures RecordsHold(SetRecord(s, id, r)) && MembersHold(SetRecord(s, id, r))
  {
  }

  lemma AdmitKeepsInv(s: State, who: Applicant, req: Request, id: string)
    requires Inv(s) && !who.kind.Owner? && req.key != s.owner && !IsBurned(s, req.key)
    requires forall rid :: !HasRecord(s, rid, req.key)
    ensures Inv(Admit(s, who, req, id))
  {
    AdmitKeepsAlloc(s, who, req, id, F4);
    AdmitKeepsAlloc(s, who, req, id, F6);
    AdmitKeepsShape(s, who, req, id);
    AdmitKeepsHolds(s, who, req, id);
    var t := Admit(s, who, req, id);
    assert Fixed(t.net, F4) == Fixed(s.net, F4) && Fixed(t.net, F6) == Fixed(s.net, F6);
  }

  /** No new key, no new name, no new owner, nothing allocated. */
  ghost predicate Alike(s: State, t: State) {
    && t.owner == s.owner && t.burned == s.burned && t.net == s.net
    && t.members.Keys == s.members.Keys
    && (forall i :: i in t.requests ==>
          && i in s.requests
          && t.requests[i].key == s.requests[i].key
          && t.requests[i].kind == s.requests[i].kind
          && t.requests[i].addrs == s.requests[i].addrs)
    && (forall k :: k in t.members && k in s.members ==>
          && t.members[k].kind == s.members[k].kind
          && t.members[k].name == s.members[k].name
          && t.members[k].addrs == s.members[k].addrs)
  }

  lemma AlikeShape(s: State, t: State)
    requires Shape(s) && Alike(s, t)
    ensures Shape(t)
  {
    assert forall k :: k in t.members <==> k in s.members;
    forall i | 0 <= i < |t.burned|
      ensures Gone(t, t.burned[i].key)
    {
      assert Gone(s, s.burned[i].key);
    }
  }

  lemma AlikeHolds(s: State, t: State)
    requires RecordsHold(s) && MembersHold(s) && Alike(s, t)
    ensures RecordsHold(t) && MembersHold(t)
  {
    assert forall k :: k in t.members <==> k in s.members;
  }

  lemma AlikeInv(s: State, t: State)
    requires Inv(s) && Alike(s, t)
    ensures Inv(t)
  {
    AlikeShape(s, t);
    AlikeHolds(s, t);
  }

  /** A record may change its status, name and bundle. */
  lemma SetRecordKeepsInv(s: State, id: string, r: Record)
    requires Inv(s) && id in s.requests
    requires r.key == s.requests[id].key && r.kind == s.requests[id].kind && r.addrs == s.requests[id].addrs
    ensures Inv(SetRecord(s, id, r))
  {
    AlikeInv(s, SetRecord(s, id, r));
  }

  /** A key that has a record keeps it: one record per key leaves the walk no choice. */
  lemma EnrollAgain(s: State, id: string, who: Applicant, req: Request, other: string)
    requires OneRecordPerKey(s) && HasRecord(s, id, req.key) && TurnedAway(s, who, req).None?
    ensures Enroll(s, who, req, other) == (SetRecord(s, id, Reopened(s.requests[id], req.name)), Ok(id))
  {
    assert forall rid :: HasRecord(s, rid, req.key) ==> rid == id;
  }

  lemma EnrollKeepsInv(s: State, who: Applicant, req: Request, id: string)
    requires Inv(s) && !who.kind.Owner? && req.key != s.owner
    ensures Inv(Enroll(s, who, req, id).0)
  {
    if TurnedAway(s, who, req).None? {
      if rid :| HasRecord(s, rid, req.key) {
        EnrollAgain(s, rid, who, req, id);
        SetRecordKeepsInv(s, rid, Reopened(s.requests[rid], req.name));
      } else {
        AdmitKeepsInv(s, who, req, id);
      }
    }
  }

  // ----- The other steps -----

  /** A key that has a record becomes a member, under a name nobody else has. */
  lemma AddMemberKeepsShape(s: State, id: string, m: Member)
    requires Shape(s) && id in s.requests && m.kind == s.requests[id].kind
    requires !NameIsTaken(s, s.requests[id].key, m.name)
    ensures Shape(SetMember(s, s.requests[id].key, m))
  {
    var t := SetMember(s, s.requests[id].key, m);
    forall i | 0 <= i < |t.burned|
      ensures Gone(t, t.burned[i].key)
    {
      assert Gone(s, s.burned[i].key);
    }
  }

  lemma AddMemberHolds(s: State, key: string, m: Member)
    requires RecordsHold(s) && MembersHold(s) && key != s.owner && HoldsBoth(s.net, key, m.addrs)
    ensures RecordsHold(SetMember(s, key, m)) && MembersHold(SetMember(s, key, m))
  {
  }

  lemma AddMemberKeepsInv(s: State, id: string, m: Member)
    requires Inv(s) && id in s.requests && m.kind == s.requests[id].kind && m.addrs == s.requests[id].addrs
    requires !NameIsTaken(s, s.requests[id].key, m.name)
    ensures Inv(SetMember(s, s.requests[id].key, m))
  {
    AddMemberKeepsShape(s, id, m);
    AddMemberHolds(s, s.requests[id].key, m);
  }

  lemma DecideKeepsInv(s: State, id: string, d: Decision)
    requires Inv(s)
    ensures Inv(Decide(s, id, d).0)
  {
    if id in s.requests && !d.Unknown? {
      var r := s.requests[id];
      if d.Reject? {
        SetRecordKeepsInv(s, id, r.(status := Rejected, bundle := None));
      } else if d.certificate {
        var r' := r.(status := Approved, bundle := Some(d.cert));
        SetRecordKeepsInv(s, id, r');
        var name := ChosenName(r, d);
        if !NameIsTaken(s, r.key, name) {
          AddMemberKeepsInv(SetRecord(s, id, r'), id, Member(r.kind, name, r.addrs, d.routes, d.domain, d.cert, []));
        }
      }
    }
  }

  lemma ForgetIsAlike(s: State, id: string)
    ensures Alike(s, Forget(s, id).0)
  {
  }

  lemma ForgetKeepsInv(s: State, id: string)
    requires Inv(s)
    ensures Inv(Forget(s, id).0)
  {
    ForgetIsAlike(s, id);
    AlikeInv(s, Forget(s, id).0);
  }

  lemma MarkIsAlike(s: State, k: string, e: Event)
    requires k in s.members
    ensures Alike(s, Mark(s, k, e))
  {
  }

  lemma MarkKeepsInv(s: State, k: string, e: Event)
    requires Inv(s) && k in s.members
    ensures Inv(Mark(s, k, e))
  {
    MarkIsAlike(s, k, e);
    AlikeInv(s, Mark(s, k, e));
  }

  lemma WithoutKeepsSound(p: Prefix, reserved: set<Addr>, held: map<string, Addr>, k: string)
    requires Sound(p, reserved, held)
    ensures Sound(p, reserved, Without(held, k))
  {
    assert Without(held, k).Values <= held.Values;
  }

  lemma EraseKeepsNet(s: State, k: string)
    requires NetInv(s.net) && k in s.members
    ensures NetInv(Erased(s, k).net)
  {
    var n := Erased(s, k).net;
    assert Fixed(n, F4) == Fixed(s.net, F4) && Fixed(n, F6) == Fixed(s.net, F6);
    if s.net.overlay.v4.Some? {
      WithoutKeepsSound(s.net.overlay.v4.value, Fixed(s.net, F4), s.net.alloc.v4, k);
    }
    if s.net.overlay.v6.Some? {
      WithoutKeepsSound(s.net.overlay.v6.value, Fixed(s.net, F6), s.net.alloc.v6, k);
    }
  }

  lemma EraseKeepsShape(s: State, k: string)
    requires Shape(s) && k in s.members && k != s.owner
    ensures Shape(Erased(s, k))
  {
    var t := Erased(s, k);
    assert Gone(t, k);
    forall i | 0 <= i < |t.burned|
      ensures Gone(t, t.burned[i].key)
    {
      assert i < |s.burned| ==> Gone(s, s.burned[i].key);
    }
  }

  lemma EraseKeepsHolds(s: State, k: string)
    requires RecordsHold(s) && MembersHold(s) && k in s.members
    ensures RecordsHold(Erased(s, k)) && MembersHold(Erased(s, k))
  {
  }

  lemma EraseKeepsInv(s: State, k: string)
    requires Inv(s) && k in s.members && k != s.owner
    ensures Inv(Erased(s, k))
  {
    EraseKeepsNet(s, k);
    EraseKeepsShape(s, k);
    EraseKeepsHolds(s, k);
  }

  lemma BanKeepsInv(s: State, k: string)
    requires Inv(s) && k in s.members
    ensures Inv(Ban(s, k).0) && Inv(Unban(s, k).0)
  {
    MarkKeepsInv(s, k, BanEvent);
    MarkKeepsInv(s, k, UnbanEvent);
  }

  lemma RemoveKeepsInv(s: State, k: string)
    requires Inv(s) && k in s.members
    ensures Inv(RemoveMember(s, k).0)
  {
    if k != s.owner {
      EraseKeepsInv(s, k);
    }
  }

  /** A lookup that means nobody changes nothing. */
  lemma MemberOpIs(s: State, op: Op)
    requires op.DoBan? || op.DoUnban? || op.DoRemove?
    ensures Apply(s, op) == if !Means(s, op.ref, op.pick) then s
                            else if op.DoBan? then Ban(s, op.pick).0
                            else if op.DoUnban? then Unban(s, op.pick).0 else RemoveMember(s, op.pick).0
  {
  }

  lemma MemberOpKeepsInv(s: State, op: Op)
    requires Inv(s) && (op.DoBan? || op.DoUnban? || op.DoRemove?)
    ensures Inv(Apply(s, op))
  {
    MemberOpIs(s, op);
    if Means(s, op.ref, op.pick) {
      if op.DoRemove? {
        RemoveKeepsInv(s, op.pick);
      } else {
        BanKeepsInv(s, op.pick);
      }
    }
  }

  /** Every legal step keeps the invariant, whatever it answers and whatever status it acts on. */
  lemma StepKeepsInv(s: State, op: Op)
    requires Inv(s) && Legal(s, op)
    ensures Inv(Apply(s, op))
  {
    match op {
      case DoEnroll(who, req, id) => EnrollKeepsInv(s, who, req, id);
      case DoDecide(id, d) => DecideKeepsInv(s, id, d);
      case DoForget(id) => ForgetKeepsInv(s, id);
      case _ => MemberOpKeepsInv(s, op);
    }
  }

  /** The other steps, removal aside, ask for nothing. */
  lemma OtherStepsKeepNet(s: State, op: Op)
    requires !op.DoRemove? && !op.DoEnroll?
    ensures Apply(s, op).net == s.net
  {
  }

  /** Where the instance lives, and whose it is, never changes. */
  lemma StepKeepsFrame(s: State, op: Op)
    ensures var t := Apply(s, op);
            && t.owner == s.owner && t.token == s.token && t.net.overlay == s.net.overlay
            && t.net.lighthouse == s.net.lighthouse && t.net.home == s.net.home
  {
  }

  /** What the invariant says of addresses, in the words of the search loops. */
  lemma AddressesApart(s: State, f: Family, j: string, k: string)
    requires Inv(s) && j in s.net.alloc.Of(f) && k in s.net.alloc.Of(f)
    ensures s.net.overlay.Of(f).Some? && s.net.lighthouse.Of(f).Some? && s.net.home.Of(f).Some?
    ensures var p, a := s.net.overlay.Of(f).value, s.net.alloc.Of(f)[k];
            && p.Contains(Some(a)) && a != p.Masked().addr && !IsBroadcast(p, a)
            && Some(a) != s.net.lighthouse.Of(f) && Some(a) != s.net.home.Of(f)
            && s.net.lighthouse.Of(f) != s.net.home.Of(f)
            && (j != k ==> a != s.net.alloc.Of(f)[j])
  {
    assert AllocInv(s.net, f) && FixedInv(s.net, f);
    var p, a := s.net.overlay.Of(f).value, s.net.alloc.Of(f)[k];
    assert a in s.net.alloc.Of(f).Values;
    assert Usable(p, a);
    UsableIsTested(p, a);
  }

  // ----- Runs -----

  /** The states an instance goes through: each step legal where it is taken. */
  ghost predicate Run(s: State, ops: seq<Op>)
    decreases |ops|
  {
    ops != [] ==> Legal(s, ops[0]) && Run(Apply(s, ops[0]), ops[1..])
  }

  ghost function After(s: State, ops: seq<Op>): State
    decreases |ops|
  {
    if ops == [] then s else After(Apply(s, ops[0]), ops[1..])
  }

  lemma {:induction false} RunKeepsInv(s: State, ops: seq<Op>)
    requires Inv(s) && Run(s, ops)
    ensures Inv(After(s, ops)) && After(s, ops).owner == s.owner
    decreases |ops|
  {
    if ops == [] {
    } else {
      StepKeepsInv(s, ops[0]);
      StepKeepsFrame(s, ops[0]);
      RunKeepsInv(Apply(s, ops[0]), ops[1..]);
    }
  }
}
