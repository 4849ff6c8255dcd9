/**
 The two roles together. The owner's machine lists what is pending first and decides
 later, with nothing held in between, so several commands can work from lists that
 are out of date. Whole runs of hub steps, lists, and decisions taken from lists.
 */
module Desks {
  import opened Wrappers
  import opened Netip
  import opened Membership
  import opened Invariant
  import opened Reuse
  import opened Owner

  /** What was pending when a list was taken, and how many approvals had been made by then. */
  datatype Listing = Listing(ids: set<string>, since: nat)

  datatype Desk = Desk(h: History, approvals: seq<string>, lists: seq<Listing>)

  /** A step of the hub that is not the owner's, a list being taken, or a decision about a request of an earlier list. */
  datatype Turn = Hub(op: Op) | Look | Act(list: nat, op: Op)

  function PendingIds(s: State): set<string> {
    set id | id in s.requests && IsPending(s, id)
  }

  predicate IsDecision(op: Op) {
    op.DoDecide? || op.DoForget?
  }

  function ApprovedBy(op: Op): seq<string> {
    if op.DoDecide? && ApprovesIt(op, op.id) then [op.id] else []
  }

  ghost function Next(d: Desk, t: Turn): Desk {
    match t
    case Hub(op) => d.(h := Advance(d.h, op))
    case Look => d.(lists := d.lists + [Listing(PendingIds(d.h.s), |d.approvals|)])
    case Act(_, op) => d.(h := Advance(d.h, op), approvals := d.approvals + ApprovedBy(op))
  }

  /** The owner's machine acts on requests it saw pending, and an approval names the certificate it signed. */
  ghost predicate May(d: Desk, t: Turn) {
    match t
    case Hub(op) => !IsDecision(op) && Legal(d.h.s, op) && Guarded(d.h.s, op)
    case Look => true
    case Act(n, op) =>
      && n < |d.lists| && IsDecision(op) && op.id in d.lists[n].ids
      && (op.DoDecide? && op.d.Approve? ==> op.d.cert != "")
  }

  /** The request has not been approved since the list it is taken from. */
  ghost predicate Unraced(d: Desk, t: Turn) {
    t.Act? && t.list < |d.lists| && IsDecision(t.op) ==>
      forall i :: d.lists[t.list].since <= i < |d.approvals| ==> d.approvals[i] != t.op.id
  }

  ghost predicate DeskRun(d: Desk, turns: seq<Turn>)
    decreases |turns|
  {
    turns != [] ==> May(d, turns[0]) && DeskRun(Next(d, turns[0]), turns[1..])
  }

  ghost predicate OneAtATime(d: Desk, turns: seq<Turn>)
    decreases |turns|
  {
    turns != [] ==> Unraced(d, turns[0]) && OneAtATime(Next(d, turns[0]), turns[1..])
  }

  ghost function Played(d: Desk, turns: seq<Turn>): Desk
    decreases |turns|
  {
    if turns == [] then d else Played(Next(d, turns[0]), turns[1..])
  }

  /** What the hub sees of it. */
  function OpsOf(turns: seq<Turn>): seq<Op>
    decreases |turns|
  {
    if turns == [] then []
    else if turns[0].Look? then OpsOf(turns[1..])
    else [turns[0].op] + OpsOf(turns[1..])
  }

  lemma FinalCons(h: History, op: Op, rest: seq<Op>)
    ensures Final(h, [op] + rest) == Final(Advance(h, op), rest)
  {
    assert ([op] + rest)[1..] == rest;
  }

  lemma {:induction false} PlayedIsFinal(d: Desk, turns: seq<Turn>)
    ensures Played(d, turns).h == Final(d.h, OpsOf(turns))
    decreases |turns|
  {
    if turns == [] {
    } else {
      PlayedIsFinal(Next(d, turns[0]), turns[1..]);
      if !turns[0].Look? {
        FinalCons(d.h, turns[0].op, OpsOf(turns[1..]));
      }
    }
  }

  /** Of the requests on a list, those approved by now were approved since. */
  ghost predicate Known(d: Desk, l: Listing) {
    && l.since <= |d.approvals|
    && forall id :: id in l.ids && IsApproved(d.h.s, id) ==>
         exists i :: l.since <= i < |d.approvals| && d.approvals[i] == id
  }

  ghost predicate DeskInv(d: Desk) {
    forall n :: 0 <= n < |d.lists| ==> Known(d, d.lists[n])
  }

  lemma UnracedIsGuarded(d: Desk, t: Turn)
    requires DeskInv(d) && t.Act? && May(d, t) && Unraced(d, t)
    ensures Legal(d.h.s, t.op) && Guarded(d.h.s, t.op)
  {
    assert Known(d, d.lists[t.list]);
    assert !IsApproved(d.h.s, t.op.id);
  }

  lemma StepKeepsKnown(d: Desk, op: Op, l: Listing)
    requires Known(d, l)
    ensures Known(d.(h := Advance(d.h, op), approvals := d.approvals + ApprovedBy(op)), l)
  {
    var e := d.(h := Advance(d.h, op), approvals := d.approvals + ApprovedBy(op));
    forall id | id in l.ids && IsApproved(e.h.s, id)
      ensures exists i :: l.since <= i < |e.approvals| && e.approvals[i] == id
    {
      if ApprovesIt(op, id) {
        assert e.approvals[|d.approvals|] == id;
      } else {
        if !IsApproved(d.h.s, id) {
          StepKeepsOpen(d.h.s, op, id);
        }
        var i :| l.since <= i < |d.approvals| && d.approvals[i] == id;
        assert e.approvals[i] == id;
      }
    }
  }

  lemma TurnKeepsDesk(d: Desk, t: Turn)
    requires DeskInv(d) && May(d, t)
    ensures DeskInv(Next(d, t))
  {
    var e := Next(d, t);
    if t.Look? {
      forall n | 0 <= n < |e.lists|
        ensures Known(e, e.lists[n])
      {
        if n < |d.lists| {
          assert Known(d, d.lists[n]);
        }
      }
    } else {
      assert t.Hub? ==> d.approvals + ApprovedBy(t.op) == d.approvals;
      forall n | 0 <= n < |e.lists|
        ensures Known(e, e.lists[n])
      {
        StepKeepsKnown(d, t.op, d.lists[n]);
      }
    }
  }

  lemma GuardedCons(h: History, op: Op, rest: seq<Op>)
    requires Legal(h.s, op) && Guarded(h.s, op) && GuardedRun(Advance(h, op), rest)
    ensures GuardedRun(h, [op] + rest)
  {
    assert ([op] + rest)[1..] == rest;
  }

  lemma {:induction false} DeskIsGuarded(d: Desk, turns: seq<Turn>)
    requires DeskInv(d) && DeskRun(d, turns) && OneAtATime(d, turns)
    ensures GuardedRun(d.h, OpsOf(turns))
    decreases |turns|
  {
    if turns == [] {
    } else {
      var t := turns[0];
      TurnKeepsDesk(d, t);
      DeskIsGuarded(Next(d, t), turns[1..]);
      if t.Act? {
        UnracedIsGuarded(d, t);
      }
      if !t.Look? {
        GuardedCons(d.h, t.op, OpsOf(turns[1..]));
      }
    }
  }

  /**
   The two roles over whole runs. From a fresh instance, with any number of lists
   taken and decisions taken from them in any order and however late: if no request
   is approved between a list and a decision about it that is taken from that list,
   the hub sees a guarded run, and no address is shared at the end of it.
   */
  lemma OwnerNeverShares(owner: string, name: string, token: bool, overlay: Dual<Option<Prefix>>, turns: seq<Turn>)
    requires Roomy(overlay.v4) && Roomy(overlay.v6)
    requires var d := Desk(Fresh(owner, name, token, overlay), [], []); DeskRun(d, turns) && OneAtATime(d, turns)
    ensures GuardedRun(Fresh(owner, name, token, overlay), OpsOf(turns))
    ensures Unshared(Played(Desk(Fresh(owner, name, token, overlay), [], []), turns).h)
  {
    var d := Desk(Fresh(owner, name, token, overlay), [], []);
    DeskIsGuarded(d, turns);
    AddressNeverShared(owner, name, token, overlay, OpsOf(turns));
    PlayedIsFinal(d, turns);
  }
}
