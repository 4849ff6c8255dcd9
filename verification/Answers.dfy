/**
 What the owner's steps answer and what they change, case by case, over the members
 and the records themselves.
 */
module Answers {
  import opened Wrappers
  import opened Netip
  import opened Ipam
  import opened Membership
  import opened Invariant

  // ----- Creation -----

  /**
   A fresh instance has its owner as its only member, under the instance's name, at the
   second usable address of each overlay, with nothing granted and nothing held against
   it; the lighthouse has the first, and nobody has asked for anything yet.
   */
  lemma FreshExactly(owner: string, name: string, token: bool, overlay: Dual<Option<Prefix>>, f: Family)
    requires Roomy(overlay.Of(f))
    ensures var s := Created(owner, name, token, overlay);
            && s.owner == owner && s.token == token && s.net.overlay == overlay
            && s.members.Keys == {owner} && s.requests.Keys == {} && s.burned == []
            && s.net.alloc.v4.Keys == {} && s.net.alloc.v6.Keys == {}
            && s.members[owner].kind.Owner? && s.members[owner].name == name && s.members[owner].cert == ""
            && s.members[owner].routes == [] && s.members[owner].domain == "" && !s.members[owner].Banned()
            && (match overlay.Of(f)
                case None => s.net.lighthouse.Of(f) == None && s.members[owner].addrs.Of(f) == None
                case Some(p) =>
                  && s.net.lighthouse.Of(f) == Some(Addr(p.addr.fam, FirstUsable(p)))
                  && s.members[owner].addrs.Of(f) == Some(Addr(p.addr.fam, FirstUsable(p) + 1)))
  {
    CreatedFixed(owner, name, token, overlay, f);
  }

  // ----- Decide and Forget -----

  /** The name an approval gives: the one decided on, or else the one asked for. */
  ghost predicate Gives(r: Record, d: Decision, name: string)
    requires d.Approve?
  {
    (d.name != "" && name == d.name) || (d.name == "" && name == r.name)
  }

  /** A member under another key has it. */
  ghost predicate HeldByAnother(s: State, key: string, name: string) {
    name != "" && exists k :: k in s.members && k != key && s.members[k].name == name
  }

  /** Only this record may differ. */
  predicate OnlyRecord(s: State, t: State, id: string) {
    t.requests.Keys == s.requests.Keys && forall i :: i in s.requests && i != id ==> t.requests[i] == s.requests[i]
  }

  /** Only this member may differ. */
  predicate OnlyMember(s: State, t: State, k: string) {
    t.members.Keys == s.members.Keys + {k} && forall j :: j in s.members && j != k ==> t.members[j] == s.members[j]
  }

  predicate SameElse(s: State, t: State) {
    t.owner == s.owner && t.token == s.token && t.net == s.net && t.burned == s.burned
  }

  /**
   An approval with a certificate is on record whatever follows. It is refused exactly
   when its name is one that a member under another key has; otherwise its key is a
   member under that name, with what was granted and a clean sheet.
   */
  lemma ApprovalExactly(s: State, id: string, d: Decision, name: string)
    requires id in s.requests && d.Approve? && d.certificate && Gives(s.requests[id], d, name)
    ensures var (t, e) := Decide(s, id, d);
            var r := s.requests[id];
            && SameElse(s, t) && OnlyRecord(s, t, id)
            && t.requests[id] == r.(status := Approved, bundle := Some(d.cert))
            && (e == Some(NameTaken) <==> HeldByAnother(s, r.key, name))
            && (e == None <==> !HeldByAnother(s, r.key, name))
            && (e != None ==> t.members == s.members)
            && (e == None ==>
                  && OnlyMember(s, t, r.key)
                  && t.members[r.key].kind == r.kind && t.members[r.key].addrs == r.addrs && t.members[r.key].name == name
                  && t.members[r.key].routes == d.routes && t.members[r.key].domain == d.domain
                  && t.members[r.key].cert == d.cert && !t.members[r.key].Banned())
  {
  }

  /** What the other decisions do: a rejection takes the bundle back and no member away; the rest change nothing. */
  lemma DecisionExactly(s: State, id: string, d: Decision)
    ensures var (t, e) := Decide(s, id, d);
            && (e == Some(NotFound) <==> id !in s.requests)
            && (e == Some(NoCertificate) <==> id in s.requests && d.Approve? && !d.certificate)
            && (e == Some(UnknownDecision) <==> id in s.requests && d.Unknown?)
            && (e.Some? && e != Some(NameTaken) ==> t == s)
            && (id in s.requests && d.Reject? ==>
                  && e == None && SameElse(s, t) && t.members == s.members && OnlyRecord(s, t, id)
                  && t.requests[id] == s.requests[id].(status := Rejected, bundle := None))
  {
  }

  lemma ForgetExactly(s: State, id: string)
    ensures var (t, e) := Forget(s, id);
            && SameElse(s, t) && t.members == s.members
            && (e == Some(NotFound) <==> id !in s.requests) && (e == None <==> id in s.requests)
            && (forall i :: i in t.requests <==> i in s.requests && i != id)
            && (forall i :: i in t.requests ==> t.requests[i] == s.requests[i])
  {
  }

  // ----- Ban, Unban, RemoveMember -----

  /** After a ban the member is banned, whether it was before or not; it is refused exactly if it was, and then changes nothing. */
  lemma BanExactly(s: State, k: string)
    requires k in s.members
    ensures var (t, e) := Ban(s, k);
            && SameElse(s, t) && t.requests == s.requests && OnlyMember(s, t, k)
            && t.members[k] == s.members[k].(events := t.members[k].events)
            && t.members[k].Banned() && Blocked(s) <= Blocked(t)
            && (e == Some(AlreadyBanned) <==> s.members[k].Banned())
            && (e == None <==> !s.members[k].Banned())
            && (e != None ==> t == s)
  {
    var t := Ban(s, k).0;
    forall c | c in Blocked(s)
      ensures c in Blocked(t)
    {
      if j :| j in s.members && s.members[j].Banned() && s.members[j].cert != "" && s.members[j].cert == c {
        assert t.members[j].Banned() && t.members[j].cert == c;
      } else {
        var i :| 0 <= i < |s.burned| && s.burned[i].cert == c;
        assert t.burned[i].cert == c;
      }
    }
  }

  lemma UnbanExactly(s: State, k: string)
    requires k in s.members
    ensures var (t, e) := Unban(s, k);
            && SameElse(s, t) && t.requests == s.requests && OnlyMember(s, t, k)
            && t.members[k] == s.members[k].(events := t.members[k].events)
            && !t.members[k].Banned() && Blocked(t) <= Blocked(s)
            && (e == Some(NotBanned) <==> !s.members[k].Banned())
            && (e == None <==> s.members[k].Banned())
            && (e != None ==> t == s)
  {
    var t := Unban(s, k).0;
    forall c | c in Blocked(t)
      ensures c in Blocked(s)
    {
      if j :| j in t.members && t.members[j].Banned() && t.members[j].cert != "" && t.members[j].cert == c {
        assert s.members[j].Banned() && s.members[j].cert == c;
      } else {
        var i :| 0 <= i < |t.burned| && t.burned[i].cert == c;
        assert s.burned[i].cert == c;
      }
    }
  }

  /**
   A member can be removed exactly when it is banned and does not own the instance.
   Then its key, its addresses and its records are gone, its key and certificate are
   burned, and nobody else is touched.
   */
  lemma RemovalExactly(s: State, k: string)
    requires k in s.members
    ensures var (t, e) := RemoveMember(s, k);
            && (e == Some(IsOwner) <==> s.members[k].kind.Owner?)
            && (e == Some(NotBanned) <==> !s.members[k].kind.Owner? && !s.members[k].Banned())
            && (e == None <==> !s.members[k].kind.Owner? && s.members[k].Banned())
            && (e != None ==> t == s)
            && (e == None ==>
                  && t.burned == s.burned + [Burned(k, s.members[k].cert)]
                  && t.members.Keys == s.members.Keys - {k}
                  && t.net.alloc.v4.Keys == s.net.alloc.v4.Keys - {k} && t.net.alloc.v6.Keys == s.net.alloc.v6.Keys - {k}
                  && (forall i :: i in t.requests <==> i in s.requests && s.requests[i].key != k)
                  && (forall j :: j in t.members ==> t.members[j] == s.members[j])
                  && (forall j :: j in t.net.alloc.v4 ==> t.net.alloc.v4[j] == s.net.alloc.v4[j])
                  && (forall j :: j in t.net.alloc.v6 ==> t.net.alloc.v6[j] == s.net.alloc.v6[j])
                  && (forall i :: i in t.requests ==> t.requests[i] == s.requests[i])
                  && t.owner == s.owner && t.token == s.token && t.net == s.net.(alloc := t.net.alloc))
  {
  }

  // ----- Who is meant -----

  /** A name means its member; beside it only keys that begin with the name, of which a fingerprint is none. */
  lemma NameMeans(s: State, k: string, j: string)
    requires NamesDistinct(s) && k in s.members && s.members[k].name != ""
    requires forall i :: i in s.members ==> !(s.members[k].name <= i)
    ensures Means(s, s.members[k].name, j) <==> j == k
  {
  }

  /** The first characters of a key mean its member, and no other if no other key or name fits. */
  lemma KeyMeans(s: State, k: string, n: nat, j: string)
    requires k in s.members && n <= |k|
    requires forall i :: i in s.members && i != k ==> !(k[..n] <= i) && s.members[i].name != k[..n]
    ensures Means(s, k[..n], j) <==> j == k
  {
  }
}
