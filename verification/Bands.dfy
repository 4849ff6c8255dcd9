/**
 Runs of an instance without removals, seen from one address family: they are
 runs of that family's pool, so everything proved of pools holds of instances.
 */
module Bands {
  import opened Wrappers
  import opened Netip
  import opened Ipam
  import opened Pools
  import opened Membership
  import opened Invariant

  predicate NoRemoval(ops: seq<Op>) {
    forall i :: 0 <= i < |ops| ==> !ops[i].DoRemove?
  }

  /** What an applicant must show: a well-formed request, a token if one is set, and no claim a tenant may not make. */
  predicate Welcome(owner: string, token: bool, who: Applicant, req: Request) {
    && req.valid
    && (who.kind.Connector? && token ==> who.authentic)
    && (who.kind.Tenant? ==> !req.announces && (who.identity == "" || who.identity != owner))
  }

  /** The applicants an instance answers to, as far as they go by its owner and its token. */
  datatype Door = Door(owner: string, token: bool)

  predicate Enrolls(door: Door, op: Op, ask: Ask) {
    op.DoEnroll? && op.req.key == ask.key && op.who.kind == ask.kind && Welcome(door.owner, door.token, op.who, op.req)
  }

  /** An enrollment asks the pool for nothing, or once for its key. */
  lemma EnrollIsPoolStep(s: State, who: Applicant, req: Request, id: string, f: Family, b: Book)
    requires MembersHold(s) && s.net.overlay.Of(f).Some? && b.held == s.net.alloc.Of(f)
    ensures var alloc := Enroll(s, who, req, id).0.net.alloc.Of(f);
            || alloc == b.held
            || (&& Welcome(s.owner, s.token, who, req)
                && alloc == Serve(s.net.overlay.Of(f).value, Fixed(s.net, f), b, Ask(req.key, who.kind)).held)
  {
    PickIgnoresMembers(s, f, req.key, who.kind);
  }

  lemma {:induction false} ServeOneMore(p: Prefix, fixed: set<Addr>, before: seq<Ask>, ask: Ask)
    ensures ServeAll(p, fixed, before + [ask]) == Serve(p, fixed, ServeAll(p, fixed, before), ask)
  {
    assert (before + [ask])[..|before|] == before;
  }

  lemma StepIsPoolStep(s: State, op: Op, f: Family, before: seq<Ask>) returns (one: seq<Ask>)
    requires MembersHold(s) && !op.DoRemove? && s.net.overlay.Of(f).Some?
    requires ServeAll(s.net.overlay.Of(f).value, Fixed(s.net, f), before).held == s.net.alloc.Of(f)
    ensures ServeAll(s.net.overlay.Of(f).value, Fixed(s.net, f), before + one).held == Apply(s, op).net.alloc.Of(f)
    ensures one == [] || (|one| == 1 && Enrolls(Door(s.owner, s.token), op, one[0]))
  {
    one := [];
    assert before + one == before;
    if op.DoEnroll? {
      EnrollIsPoolStep(s, op.who, op.req, op.id, f, ServeAll(s.net.overlay.Of(f).value, Fixed(s.net, f), before));
      if Apply(s, op).net.alloc.Of(f) != s.net.alloc.Of(f) {
        one := [Ask(op.req.key, op.who.kind)];
        ServeOneMore(s.net.overlay.Of(f).value, Fixed(s.net, f), before, one[0]);
      }
    } else {
      OtherStepsKeepNet(s, op);
    }
  }

  /** Members hold what they were allocated in every state the run passes through. */
  ghost predicate HoldsAlong(s: State, ops: seq<Op>)
    decreases |ops|
  {
    MembersHold(s) && (ops != [] ==> HoldsAlong(Apply(s, ops[0]), ops[1..]))
  }

  lemma {:induction false} RunHoldsAlong(s: State, ops: seq<Op>)
    requires Inv(s) && Run(s, ops)
    ensures HoldsAlong(s, ops)
    decreases |ops|
  {
    if ops == [] {
    } else {
      StepKeepsInv(s, ops[0]);
      RunHoldsAlong(Apply(s, ops[0]), ops[1..]);
    }
  }

  /** What a run never changes, as one family sees it. */
  datatype Setting = Setting(f: Family, p: Prefix, fixed: set<Addr>, door: Door)

  predicate In(s: State, at: Setting) {
    s.net.overlay.Of(at.f) == Some(at.p) && Fixed(s.net, at.f) == at.fixed && at.door == Door(s.owner, s.token)
  }

  lemma StepKeepsSetting(s: State, op: Op, at: Setting)
    requires In(s, at)
    ensures In(Apply(s, op), at)
  {
    StepKeepsFrame(s, op);
  }

  /** The rest of a run, and the pool requests that led to where it starts. */
  ghost predicate Midway(s: State, before: seq<Ask>, ops: seq<Op>, at: Setting) {
    && HoldsAlong(s, ops)
    && NoRemoval(ops)
    && In(s, at)
    && ServeAll(at.p, at.fixed, before).held == s.net.alloc.Of(at.f)
  }

  lemma OneStepOn(s: State, before: seq<Ask>, ops: seq<Op>, at: Setting) returns (one: seq<Ask>)
    requires Midway(s, before, ops, at) && ops != []
    ensures Midway(Apply(s, ops[0]), before + one, ops[1..], at)
    ensures one == [] || (|one| == 1 && Enrolls(at.door, ops[0], one[0]))
  {
    one := StepIsPoolStep(s, ops[0], at.f, before);
    StepKeepsSetting(s, ops[0], at);
  }

  lemma Regrouped(a: seq<Ask>, b: seq<Ask>, c: seq<Ask>)
    ensures (a + b) + c == a + (b + c)
  {
  }

  /** A pool request made by one step of a run, and what the family holds just before and just after it. */
  ghost predicate MadeAt(s: State, before: seq<Ask>, ops: seq<Op>, at: Setting, asks: seq<Ask>, i: nat, w: nat) {
    && i < |asks| && w < |ops|
    && Enrolls(at.door, ops[w], asks[i])
    && After(s, ops[..w]).net.alloc.Of(at.f) == ServeAll(at.p, at.fixed, before + asks[..i]).held
    && After(s, ops[..w + 1]).net.alloc.Of(at.f) == ServeAll(at.p, at.fixed, before + asks[..i + 1]).held
  }

  lemma AfterMore(s: State, ops: seq<Op>, w: nat)
    requires w < |ops|
    ensures After(s, ops[..w + 1]) == After(Apply(s, ops[0]), ops[1..][..w])
  {
    assert ops[..w + 1][1..] == ops[1..][..w];
  }

  lemma MadeNow(s: State, before: seq<Ask>, ops: seq<Op>, at: Setting, one: seq<Ask>, rest: seq<Ask>)
    requires Midway(s, before, ops, at) && ops != [] && |one| == 1 && Enrolls(at.door, ops[0], one[0])
    requires Midway(Apply(s, ops[0]), before + one, ops[1..], at)
    ensures MadeAt(s, before, ops, at, one + rest, 0, 0)
  {
    AfterMore(s, ops, 0);
    assert before + (one + rest)[..0] == before && (one + rest)[..1] == one;
  }

  lemma Front(before: seq<Ask>, one: seq<Ask>, rest: seq<Ask>, i: nat)
    requires i <= |rest|
    ensures before + (one + rest)[..|one| + i] == before + one + rest[..i]
  {
  }

  lemma MadeLater(s: State, before: seq<Ask>, ops: seq<Op>, at: Setting, one: seq<Ask>, rest: seq<Ask>, i: nat, w: nat)
    requires ops != [] && MadeAt(Apply(s, ops[0]), before + one, ops[1..], at, rest, i, w)
    ensures MadeAt(s, before, ops, at, one + rest, |one| + i, w + 1)
  {
    AfterMore(s, ops, w);
    AfterMore(s, ops, w + 1);
    Front(before, one, rest, i);
    Front(before, one, rest, i + 1);
  }

  ghost predicate Increasing(when: seq<nat>) {
    forall i, j :: 0 <= i < j < |when| ==> when[i] < when[j]
  }

  /** The steps the requests were made in, one after another. */
  ghost predicate MadeIn(s: State, before: seq<Ask>, ops: seq<Op>, at: Setting, asks: seq<Ask>, when: seq<nat>) {
    && |when| == |asks|
    && Increasing(when)
    && (forall i :: 0 <= i < |when| ==> MadeAt(s, before, ops, at, asks, i, when[i]))
  }

  /** The same steps counted from one step earlier, behind as many as that step made itself. */
  function WhenEarlier(n: nat, when: seq<nat>): seq<nat> {
    seq(n + |when|, i requires 0 <= i < n + |when| => if i < n then 0 else when[i - n] + 1)
  }

  lemma EarlierIncreases(n: nat, when: seq<nat>)
    requires n <= 1 && Increasing(when)
    ensures Increasing(WhenEarlier(n, when))
  {
  }

  lemma EarlierAt(s: State, before: seq<Ask>, ops: seq<Op>, at: Setting, one: seq<Ask>, rest: seq<Ask>, when: seq<nat>, i: nat)
    requires ops != [] && |one| <= 1 && i < |one| + |when|
    requires if i < |one| then MadeAt(s, before, ops, at, one + rest, 0, 0)
             else MadeAt(Apply(s, ops[0]), before + one, ops[1..], at, rest, i - |one|, when[i - |one|])
    ensures MadeAt(s, before, ops, at, one + rest, i, WhenEarlier(|one|, when)[i])
  {
    if |one| <= i {
      MadeLater(s, before, ops, at, one, rest, i - |one|, when[i - |one|]);
      assert |one| + (i - |one|) == i && WhenEarlier(|one|, when)[i] == when[i - |one|] + 1;
    } else {
      assert i == 0 && WhenEarlier(|one|, when)[i] == 0;
    }
  }

  lemma OneStepEarlier(s: State, before: seq<Ask>, ops: seq<Op>, at: Setting, one: seq<Ask>, rest: seq<Ask>, when: seq<nat>)
    requires ops != [] && |one| <= 1 && (one != [] ==> MadeAt(s, before, ops, at, one + rest, 0, 0))
    requires MadeIn(Apply(s, ops[0]), before + one, ops[1..], at, rest, when)
    ensures MadeIn(s, before, ops, at, one + rest, WhenEarlier(|one|, when))
  {
    EarlierIncreases(|one|, when);
    forall i | 0 <= i < |WhenEarlier(|one|, when)|
      ensures MadeAt(s, before, ops, at, one + rest, i, WhenEarlier(|one|, when)[i])
    {
      EarlierAt(s, before, ops, at, one, rest, when, i);
    }
  }

  /** The pool requests a run makes, in the order of its steps, each of them an enrollment. */
  lemma {:induction false} RunIsPoolRun(s: State, before: seq<Ask>, ops: seq<Op>, at: Setting)
    returns (asks: seq<Ask>, when: seq<nat>)
    requires Midway(s, before, ops, at)
    ensures ServeAll(at.p, at.fixed, before + asks).held == After(s, ops).net.alloc.Of(at.f)
    ensures MadeIn(s, before, ops, at, asks, when)
    decreases |ops|
  {
    if ops == [] {
      asks, when := [], [];
      assert before + asks == before;
    } else {
      var one := OneStepOn(s, before, ops, at);
      var rest, later := RunIsPoolRun(Apply(s, ops[0]), before + one, ops[1..], at);
      asks := one + rest;
      Regrouped(before, one, rest);
      if one != [] {
        MadeNow(s, before, ops, at, one, rest);
      }
      OneStepEarlier(s, before, ops, at, one, rest, later);
      when := WhenEarlier(|one|, later);
    }
  }

  /** What a pool run says of the addresses held at its end, its kinds being those first asked with. */
  ghost predicate BandedPool(p: Prefix, fixed: set<Addr>, b: Book, lo: int, hi: int) {
    && Segmented(p, b.held.Values + fixed, lo, hi)
    && Banded(b, lo, hi)
    && |b.held| <= |UsableSet(p) - fixed|
  }

  lemma PoolIsBanded(p: Prefix, fixed: set<Addr>, asks: seq<Ask>, lo0: int, hi0: int) returns (lo: int, hi: int)
    requires Segmented(p, fixed, lo0, hi0)
    ensures BandedPool(p, fixed, ServeAll(p, fixed, asks), lo, hi)
  {
    lo, hi := TenantsBelowConnectors(p, fixed, asks, lo0, hi0);
    FitsExactly(p, fixed, asks);
  }

  /** The key had no address in the family before this step, has one after it, and enrolled as this kind in it. */
  ghost predicate FirstServedAt(s: State, ops: seq<Op>, f: Family, door: Door, ask: Ask, w: nat) {
    && w < |ops|
    && Enrolls(door, ops[w], ask)
    && ask.key !in After(s, ops[..w]).net.alloc.Of(f)
    && ask.key in After(s, ops[..w + 1]).net.alloc.Of(f)
  }

  /** The kind in the book is the one of the request that first filled the key's place. */
  lemma {:induction false} KindIsFirst(p: Prefix, fixed: set<Addr>, asks: seq<Ask>, k: string) returns (i: nat)
    requires k in ServeAll(p, fixed, asks).held
    ensures i < |asks| && k in ServeAll(p, fixed, asks).kinds && asks[i] == Ask(k, ServeAll(p, fixed, asks).kinds[k])
    ensures k !in ServeAll(p, fixed, asks[..i]).held && k in ServeAll(p, fixed, asks[..i + 1]).held
  {
    var n := |asks| - 1;
    if k in ServeAll(p, fixed, asks[..n]).held {
      i := KindIsFirst(p, fixed, asks[..n], k);
      assert asks[..n][..i] == asks[..i] && asks[..n][..i + 1] == asks[..i + 1];
    } else {
      i := n;
      assert asks[..n + 1] == asks;
    }
  }

  lemma FirstServed(s: State, ops: seq<Op>, at: Setting, asks: seq<Ask>, when: seq<nat>, k: string) returns (w: nat)
    requires MadeIn(s, [], ops, at, asks, when) && k in ServeAll(at.p, at.fixed, asks).held
    ensures k in ServeAll(at.p, at.fixed, asks).kinds
    ensures FirstServedAt(s, ops, at.f, at.door, Ask(k, ServeAll(at.p, at.fixed, asks).kinds[k]), w)
  {
    var i := KindIsFirst(at.p, at.fixed, asks, k);
    assert MadeAt(s, [], ops, at, asks, i, when[i]);
    assert [] + asks[..i] == asks[..i] && [] + asks[..i + 1] == asks[..i + 1];
    w := when[i];
  }

  ghost function FreshSetting(owner: string, name: string, token: bool, overlay: Dual<Option<Prefix>>, f: Family): Setting
    requires overlay.Of(f).Some?
  {
    Setting(f, overlay.Of(f).value, Fixed(Created(owner, name, token, overlay).net, f), Door(owner, token))
  }

  lemma FreshPoolRun(owner: string, name: string, token: bool, overlay: Dual<Option<Prefix>>, ops: seq<Op>, f: Family)
    returns (asks: seq<Ask>, when: seq<nat>)
    requires Roomy(overlay.v4) && Roomy(overlay.v6) && overlay.Of(f).Some?
    requires Run(Created(owner, name, token, overlay), ops) && NoRemoval(ops)
    ensures var s, at := Created(owner, name, token, overlay), FreshSetting(owner, name, token, overlay, f);
            MadeIn(s, [], ops, at, asks, when) && ServeAll(at.p, at.fixed, asks).held == After(s, ops).net.alloc.Of(f)
  {
    var s := Created(owner, name, token, overlay);
    CreatedInv(owner, name, token, overlay);
    RunHoldsAlong(s, ops);
    asks, when := RunIsPoolRun(s, [], ops, FreshSetting(owner, name, token, overlay, f));
    assert [] + asks == asks;
  }

  /**
   In any run of a fresh instance without a removal, in each family: every tenant
   address lies below every connector address, the taken addresses are one low and
   one high segment, and no more keys hold an address than the overlay has room
   for beside the two reserved ones. A key's kind is the one it first got an
   address with, in an enrollment that showed what was asked of it.
   */
  lemma InstanceIsBanded(owner: string, name: string, token: bool, overlay: Dual<Option<Prefix>>, ops: seq<Op>, f: Family)
    returns (b: Book, lo: int, hi: int)
    requires Roomy(overlay.v4) && Roomy(overlay.v6) && overlay.Of(f).Some?
    requires Run(Created(owner, name, token, overlay), ops) && NoRemoval(ops)
    ensures b.held == After(Created(owner, name, token, overlay), ops).net.alloc.Of(f)
    ensures BandedPool(overlay.Of(f).value, Fixed(Created(owner, name, token, overlay).net, f), b, lo, hi)
    ensures forall k :: k in b.held ==>
              && k in b.kinds
              && exists w :: FirstServedAt(Created(owner, name, token, overlay), ops, f, Door(owner, token), Ask(k, b.kinds[k]), w)
  {
    var s := Created(owner, name, token, overlay);
    var at := FreshSetting(owner, name, token, overlay, f);
    var p, fixed := at.p, at.fixed;
    var asks, when := FreshPoolRun(owner, name, token, overlay, ops, f);
    CreatedSegment(owner, name, token, overlay, f);
    b := ServeAll(p, fixed, asks);
    lo, hi := PoolIsBanded(p, fixed, asks, FirstUsable(p) + 2, LastUsable(p));
    forall k | k in b.held
      ensures k in b.kinds && exists w :: FirstServedAt(s, ops, f, Door(owner, token), Ask(k, b.kinds[k]), w)
    {
      var w := FirstServed(s, ops, at, asks, when, k);
    }
  }

  /** The lighthouse and the owner are the low segment to begin with. */
  lemma CreatedSegment(owner: string, name: string, token: bool, overlay: Dual<Option<Prefix>>, f: Family)
    requires Roomy(overlay.Of(f)) && overlay.Of(f).Some?
    ensures var p := overlay.Of(f).value;
            Segmented(p, Fixed(Created(owner, name, token, overlay).net, f), FirstUsable(p) + 2, LastUsable(p))
  {
    CreatedFixed(owner, name, token, overlay, f);
  }

  // ----- Who is let in -----

  /** The family has an overlay and the key has an address in it already, or there is room for one more. */
  predicate RoomFor(n: Net, f: Family, key: string) {
    && n.overlay.Of(f).Some?
    && (key in n.alloc.Of(f) || |n.alloc.Of(f)| < |UsableSet(n.overlay.Of(f).value) - Fixed(n, f)|)
  }

  lemma PickedExactly(s: State, f: Family, key: string, kind: Kind)
    requires Inv(s)
    ensures PickFor(s, f, key, kind).Some? <==> RoomFor(s.net, f, key)
  {
    if s.net.overlay.Of(f).Some? {
      PickIgnoresMembers(s, f, key, kind);
      if key !in s.net.alloc.Of(f) {
        assert AllocInv(s.net, f);
        FreshKeyFits(s.net.overlay.Of(f).value, Fixed(s.net, f), s.net.alloc.Of(f), key, kind);
      }
    }
  }

  /**
   An enrollment is refused at the door exactly when the applicant is not welcome or
   its key was removed, each refusal for its own reason, and then nothing changes.
   */
  lemma RefusedExactly(s: State, who: Applicant, req: Request, id: string)
    ensures var (t, r) := Enroll(s, who, req, id);
            && (r.Err? && r.error != NoAddress <==> !Welcome(s.owner, s.token, who, req) || IsBurned(s, req.key))
            && (r == Err(Invalid) <==> !req.valid)
            && (r == Err(OwnInstance) <==> req.valid && who.kind.Tenant? && who.identity != "" && who.identity == s.owner)
            && (r == Err(TenantRoutes) <==>
                  req.valid && who.kind.Tenant? && (who.identity == "" || who.identity != s.owner) && req.announces)
            && (r == Err(Unauthenticated) <==> req.valid && who.kind.Connector? && s.token && !who.authentic)
            && (r == Err(KeyRemoved) <==> Welcome(s.owner, s.token, who, req) && exists b :: b in s.burned && b.key == req.key)
            && (r.Err? ==> t == s)
  {
    if IsBurned(s, req.key) {
      var i :| 0 <= i < |s.burned| && s.burned[i].key == req.key;
      assert s.burned[i] in s.burned;
    }
  }

  /**
   A welcome key without a record is admitted exactly when one of the families has
   room for it, with an address in exactly the families that do.
   */
  lemma AdmittedExactly(s: State, who: Applicant, req: Request, id: string)
    requires Inv(s) && Welcome(s.owner, s.token, who, req) && !IsBurned(s, req.key) && forall rid :: !HasRecord(s, rid, req.key)
    ensures var (t, r) := Enroll(s, who, req, id);
            && (r.Ok? <==> RoomFor(s.net, F4, req.key) || RoomFor(s.net, F6, req.key))
            && (r.Err? ==> t == s && r.error == NoAddress)
            && (r.Ok? ==>
                  && r.value == id && id in t.requests && t.members == s.members
                  && t.requests[id] == Record(Pending, req.key, who.kind, req.name, t.requests[id].addrs, None)
                  && (t.requests[id].addrs.v4.Some? <==> RoomFor(s.net, F4, req.key))
                  && (t.requests[id].addrs.v6.Some? <==> RoomFor(s.net, F6, req.key)))
  {
    PickedExactly(s, F4, req.key, who.kind);
    PickedExactly(s, F6, req.key, who.kind);
  }

  /** A welcome key that has a record keeps it, with its addresses and what was decided; only a rejection is reopened. */
  lemma AskingAgain(s: State, id: string, who: Applicant, req: Request, other: string)
    requires OneRecordPerKey(s) && HasRecord(s, id, req.key) && Welcome(s.owner, s.token, who, req) && !IsBurned(s, req.key)
    ensures var (t, r) := Enroll(s, who, req, other);
            && r == Ok(id)
            && id in t.requests && t == s.(requests := s.requests[id := t.requests[id]])
            && t.requests[id] == s.requests[id].(name := req.name, status := t.requests[id].status)
            && (t.requests[id].status.Pending? <==> !s.requests[id].status.Approved?)
            && (t.requests[id].status.Approved? <==> s.requests[id].status.Approved?)
  {
    EnrollAgain(s, id, who, req, other);
  }

  /** A key that is turned down and asks again is pending again, on its own record and at its own addresses. */
  lemma RetryAfterReject(s: State, id: string, who: Applicant, req: Request, other: string)
    requires OneRecordPerKey(s) && HasRecord(s, id, req.key) && Welcome(s.owner, s.token, who, req) && !IsBurned(s, req.key)
    ensures Enroll(Decide(s, id, Reject).0, who, req, other)
         == (SetRecord(s, id, s.requests[id].(status := Pending, name := req.name, bundle := None)), Ok(id))
  {
    var u := Decide(s, id, Reject).0;
    EnrollAgain(u, id, who, req, other);
    var r := s.requests[id].(status := Pending, name := req.name, bundle := None);
    assert Reopened(u.requests[id], req.name) == r;
    assert SetRecord(u, id, r).requests == SetRecord(s, id, r).requests;
  }
}
