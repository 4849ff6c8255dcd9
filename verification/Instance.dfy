/**
 The instance as the hub holds it: maps and lists that each step updates in place.
 Every method is proved to do exactly what its function in Membership.dfy says,
 and to keep the instance invariant, whatever order a map is walked in.
 */
module Instances {
  import opened Wrappers
  import opened Netip
  import opened Ipam
  import opened Membership
  import opened Invariant

  class Instance {
    const owner: string
    var sharedToken: bool
    const overlay: Option<Prefix>
    const overlay6: Option<Prefix>
    const lighthouse: Option<Addr>
    const lighthouse6: Option<Addr>
    const tenant: Option<Addr>
    const tenant6: Option<Addr>
    var allocations: map<string, Addr>
    var allocations6: map<string, Addr>
    var requests: map<string, Record>
    var members: map<string, Member>
    var burned: seq<Burned>

    ghost function View(): State
      reads this
    {
      State(owner, sharedToken,
            Net(Dual(overlay, overlay6), Dual(lighthouse, lighthouse6), Dual(tenant, tenant6),
                Dual(allocations, allocations6)),
            requests, members, burned)
    }

    ghost predicate Valid()
      reads this
    {
      overlay.Some? && Inv(View())
    }

    /** The part of creating an instance that follows the choice of its overlays and addresses. */
    constructor (owner: string, name: string, sharedToken: bool, overlay: Prefix, overlay6: Option<Prefix>,
                 lighthouse: Addr, lighthouse6: Option<Addr>, tenant: Addr, tenant6: Option<Addr>)
      requires FirstTwo(overlay, lighthouse, tenant)
      requires match overlay6
               case None => lighthouse6 == None && tenant6 == None
               case Some(p) => lighthouse6.Some? && tenant6.Some? && FirstTwo(p, lighthouse6.value, tenant6.value)
      ensures Valid() && View() == Created(owner, name, sharedToken, Dual(Some(overlay), overlay6))
    {
      this.owner := owner;
      this.sharedToken := sharedToken;
      this.overlay, this.overlay6 := Some(overlay), overlay6;
      this.lighthouse, this.lighthouse6 := Some(lighthouse), lighthouse6;
      this.tenant, this.tenant6 := Some(tenant), tenant6;
      allocations, allocations6 := map[], map[];
      requests := map[];
      members := map[owner := Member(Owner, name, Dual(Some(tenant), tenant6), [], "", "", [])];
      burned := [];
      new;
      FirstTwoAsCreated(overlay, lighthouse, tenant);
      if overlay6.Some? {
        FirstTwoAsCreated(overlay6.value, lighthouse6.value, tenant6.value);
      }
      CreatedInv(owner, name, sharedToken, Dual(Some(overlay), overlay6));
    }

    method KeyBurned(key: string) returns (b: bool)
      ensures b <==> IsBurned(View(), key)
    {
      for i := 0 to |burned|
        invariant forall j :: 0 <= j < i ==> burned[j].key != key
      {
        if burned[i].key == key {
          return true;
        }
      }
      return false;
    }

    method RecordOf(key: string) returns (r: Option<string>)
      ensures r.Some? ==> HasRecord(View(), r.value, key)
      ensures r == None ==> forall id :: !HasRecord(View(), id, key)
    {
      var todo := requests.Keys;
      while todo != {}
        invariant todo <= requests.Keys
        invariant forall id :: id in requests && id !in todo ==> requests[id].key != key
        decreases todo
      {
        var id :| id in todo;
        if requests[id].key == key {
          return Some(id);
        }
        todo := todo - {id};
      }
      return None;
    }

    method MemberAddresses(f: Family) returns (out: seq<Option<Addr>>)
      ensures Present(out) == MemberAddrs(View(), f)
    {
      out := [];
      var todo := members.Keys;
      while todo != {}
        invariant todo <= members.Keys
        invariant Present(out) == set k | k in members && k !in todo && members[k].addrs.Of(f).Some? :: members[k].addrs.Of(f).value
        decreases todo
      {
        var k :| k in todo;
        out := out + [members[k].addrs.Of(f)];
        todo := todo - {k};
      }
    }

    method Allocate(key: string, kind: Kind) returns (r: Option<Addr>)
      requires overlay.Some?
      modifies this`allocations
      ensures r == old(PickFor(View(), F4, key, kind))
      ensures allocations == Hold(old(allocations), key, r)
    {
      var taken := MemberAddresses(F4);
      var reserved := taken + [lighthouse, tenant];
      assert Present(reserved) == MemberAddrs(View(), F4) + Fixed(View().net, F4);
      r := FromPool(overlay.value, allocations, key, kind, reserved);
      if r.Some? {
        allocations := allocations[key := r.value];
      }
    }

    method Allocate6(key: string, kind: Kind) returns (r: Option<Addr>)
      modifies this`allocations6
      ensures r == old(PickFor(View(), F6, key, kind))
      ensures allocations6 == Hold(old(allocations6), key, r)
    {
      if overlay6.None? {
        return None;
      }
      var taken := MemberAddresses(F6);
      var reserved := taken + [lighthouse6, tenant6];
      assert Present(reserved) == MemberAddrs(View(), F6) + Fixed(View().net, F6);
      r := FromPool(overlay6.value, allocations6, key, kind, reserved);
      if r.Some? {
        allocations6 := allocations6[key := r.value];
      }
    }

    /** Why an enrollment is refused before its record is looked for, if it is. */
    method TurnAway(who: Applicant, req: Request) returns (r: Option<Refusal>)
      ensures r == TurnedAway(View(), who, req)
    {
      if !req.valid {
        return Some(Invalid);
      }
      if who.kind.Tenant? && who.identity != "" && who.identity == owner {
        return Some(OwnInstance);
      }
      if who.kind.Tenant? && req.announces {
        return Some(TenantRoutes);
      }
      if who.kind.Connector? && sharedToken && !who.authentic {
        return Some(Unauthenticated);
      }
      var gone := KeyBurned(req.key);
      if gone {
        return Some(KeyRemoved);
      }
      return None;
    }

    /** Both families are tried, and running out of one is not running out of the other. */
    method AdmitNew(who: Applicant, req: Request, id: string) returns (r: Result<string, Refusal>)
      requires overlay.Some?
      modifies this`allocations, this`allocations6, this`requests
      ensures r == if old(PickFor(View(), F4, req.key, who.kind).None? && PickFor(View(), F6, req.key, who.kind).None?)
                   then Err(NoAddress) else Ok(id)
      ensures View() == if r.Ok? then Admit(old(View()), who, req, id) else old(View())
    {
      ghost var s := View();
      var addr := Allocate(req.key, who.kind);
      assert PickFor(View(), F6, req.key, who.kind) == PickFor(s, F6, req.key, who.kind);
      var addr6 := Allocate6(req.key, who.kind);
      if addr.None? && addr6.None? {
        return Err(NoAddress);
      }
      requests := requests[id := Record(Pending, req.key, who.kind, req.name, Dual(addr, addr6), None)];
      return Ok(id);
    }

    method Enroll(who: Applicant, req: Request, id: string) returns (r: Result<string, Refusal>)
      requires Valid() && !who.kind.Owner? && req.key != owner
      modifies this`allocations, this`allocations6, this`requests
      ensures Valid()
      ensures (View(), r) == Membership.Enroll(old(View()), who, req, id)
    {
      EnrollKeepsInv(View(), who, req, id);
      var refused := TurnAway(who, req);
      if refused.Some? {
        return Err(refused.value);
      }
      var existing := RecordOf(req.key);
      if existing.Some? {
        EnrollAgain(View(), existing.value, who, req, id);
        requests := requests[existing.value := Reopened(requests[existing.value], req.name)];
        return Ok(existing.value);
      }
      r := AdmitNew(who, req, id);
    }

    method NameTakenBy(key: string, name: string) returns (taken: bool)
      ensures taken <==> NameIsTaken(View(), key, name)
    {
      var todo := members.Keys;
      while todo != {}
        invariant todo <= members.Keys
        invariant forall k :: k in members && k !in todo && k != key && name != "" ==> members[k].name != name
        decreases todo
      {
        var k :| k in todo;
        if k != key && members[k].name == name && name != "" {
          return true;
        }
        todo := todo - {k};
      }
      return false;
    }

    /** The bundle and the approval are written before the name is looked at. */
    method ApproveRecord(id: string, d: Decision) returns (r: Option<Refusal>)
      requires id in requests && d.Approve? && d.certificate
      modifies this`requests, this`members
      ensures (View(), r) == Membership.Decide(old(View()), id, d)
    {
      var record := requests[id];
      requests := requests[id := record.(status := Approved, bundle := Some(d.cert))];
      var name := ChosenName(record, d);
      var taken := NameTakenBy(record.key, name);
      if taken {
        return Some(NameTaken);
      }
      members := members[record.key := Member(record.kind, name, record.addrs, d.routes, d.domain, d.cert, [])];
      return None;
    }

    method Decide(id: string, d: Decision) returns (r: Option<Refusal>)
      requires Valid()
      modifies this`requests, this`members
      ensures Valid()
      ensures (View(), r) == Membership.Decide(old(View()), id, d)
    {
      DecideKeepsInv(View(), id, d);
      if id !in requests {
        return Some(NotFound);
      }
      var record := requests[id];
      match d {
        case Approve(certificate, _, _, _, _) =>
          if !certificate {
            return Some(NoCertificate);
          }
          r := ApproveRecord(id, d);
          return;
        case Reject =>
          requests := requests[id := record.(status := Rejected, bundle := None)];
        case Unknown =>
          return Some(UnknownDecision);
      }
      return None;
    }

    method Forget(id: string) returns (r: Option<Refusal>)
      requires Valid()
      modifies this`requests
      ensures Valid()
      ensures (View(), r) == Membership.Forget(old(View()), id)
    {
      ForgetKeepsInv(View(), id);
      if id !in requests {
        return Some(NotFound);
      }
      requests := Without(requests, id);
      return None;
    }

    /** Whichever matching member the map yields first. */
    method MemberIn(ref: string) returns (k: Option<string>)
      ensures k.Some? ==> Means(View(), ref, k.value)
      ensures k == None ==> forall j: string :: !Means(View(), ref, j)
    {
      var todo := members.Keys;
      while todo != {}
        invariant todo <= members.Keys
        invariant forall j :: j in members && j !in todo ==> !Means(View(), ref, j)
        decreases todo
      {
        var j :| j in todo;
        if j == ref || ref <= j || members[j].name == ref {
          return Some(j);
        }
        todo := todo - {j};
      }
      return None;
    }

    method Ban(ref: string) returns (k: Option<string>, r: Option<Refusal>)
      requires Valid()
      modifies this`members
      ensures Valid()
      ensures match k
              case None => View() == old(View()) && r == Some(NotFound) && forall j: string :: !Means(old(View()), ref, j)
              case Some(j) => Means(old(View()), ref, j) && (View(), r) == Membership.Ban(old(View()), j)
    {
      k := MemberIn(ref);
      if k.None? {
        return None, Some(NotFound);
      }
      var j := k.value;
      BanKeepsInv(View(), j);
      if members[j].Banned() {
        return k, Some(AlreadyBanned);
      }
      members := members[j := members[j].(events := members[j].events + [BanEvent])];
      return k, None;
    }

    method Unban(ref: string) returns (k: Option<string>, r: Option<Refusal>)
      requires Valid()
      modifies this`members
      ensures Valid()
      ensures match k
              case None => View() == old(View()) && r == Some(NotFound) && forall j: string :: !Means(old(View()), ref, j)
              case Some(j) => Means(old(View()), ref, j) && (View(), r) == Membership.Unban(old(View()), j)
    {
      k := MemberIn(ref);
      if k.None? {
        return None, Some(NotFound);
      }
      var j := k.value;
      BanKeepsInv(View(), j);
      if !members[j].Banned() {
        return k, Some(NotBanned);
      }
      members := members[j := members[j].(events := members[j].events + [UnbanEvent])];
      return k, None;
    }

    method RemoveMember(ref: string) returns (k: Option<string>, r: Option<Refusal>)
      requires Valid()
      modifies this`members, this`burned, this`allocations, this`allocations6, this`requests
      ensures Valid()
      ensures match k
              case None => View() == old(View()) && r == Some(NotFound) && forall j: string :: !Means(old(View()), ref, j)
              case Some(j) => Means(old(View()), ref, j) && (View(), r) == Membership.RemoveMember(old(View()), j)
    {
      k := MemberIn(ref);
      if k.None? {
        return None, Some(NotFound);
      }
      var j := k.value;
      RemoveKeepsInv(View(), j);
      if members[j].kind.Owner? {
        return k, Some(IsOwner);
      }
      if !members[j].Banned() {
        return k, Some(NotBanned);
      }
      Erase(j);
      return k, None;
    }

    /** The key and its certificate are burned, and everything else about it is forgotten. */
    method Erase(j: string)
      requires j in members
      modifies this`members, this`burned, this`allocations, this`allocations6, this`requests
      ensures View() == Erased(old(View()), j)
    {
      burned := burned + [Burned(j, members[j].cert)];
      members := Without(members, j);
      allocations := Without(allocations, j);
      allocations6 := Without(allocations6, j);
      DropRecordsOf(j);
    }

    /** The request a member arrived with goes too. */
    method DropRecordsOf(key: string)
      modifies this`requests
      ensures requests == map i | i in old(requests) && old(requests)[i].key != key :: old(requests)[i]
    {
      var todo := requests.Keys;
      while todo != {}
        invariant todo <= requests.Keys
        invariant requests == map i | i in old(requests) && (i in todo || old(requests)[i].key != key) :: old(requests)[i]
        decreases todo
      {
        var i :| i in todo;
        if requests[i].key == key {
          requests := Without(requests, i);
        }
        todo := todo - {i};
      }
    }
  }
}
