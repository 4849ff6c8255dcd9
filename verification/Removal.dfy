/** Removal is the end of the line: it holds in every later state of every run. */
module Removal {
  import opened Wrappers
  import opened Netip
  import opened Membership
  import opened Invariant

  /** Nothing takes anything off the burned list. */
  lemma StepKeepsBurned(s: State, op: Op)
    ensures s.burned <= Apply(s, op).burned
  {
  }

  lemma {:induction false} RunKeepsBurned(s: State, ops: seq<Op>)
    ensures s.burned <= After(s, ops).burned
    decreases |ops|
  {
    if ops == [] {
    } else {
      StepKeepsBurned(s, ops[0]);
      RunKeepsBurned(Apply(s, ops[0]), ops[1..]);
    }
  }

  /** A burned key is turned away, whoever carries it and whatever is asked. */
  lemma BurnedIsRefused(s: State, who: Applicant, req: Request, id: string)
    requires IsBurned(s, req.key)
    ensures Enroll(s, who, req, id).0 == s && Enroll(s, who, req, id).1.Err?
  {
  }

  /**
   After a removal, in every later state: the key has no record, no member and no
   address, every enrollment carrying it is refused and changes nothing, and its
   certificate is still blocked. Decisions may be taken on records of any status.
   */
  lemma RemovalIsFinal(s: State, k: string, ops: seq<Op>)
    requires Inv(s) && k in s.members && RemoveMember(s, k).1 == None
    requires Run(RemoveMember(s, k).0, ops)
    ensures var t := After(RemoveMember(s, k).0, ops);
            && Gone(t, k)
            && (s.members[k].cert != "" ==> s.members[k].cert in Blocked(t))
            && forall who, req: Request, id :: req.key == k ==>
                 Enroll(t, who, req, id).0 == t && Enroll(t, who, req, id).1.Err?
  {
    var r := RemoveMember(s, k).0;
    RemoveKeepsInv(s, k);
    RunKeepsInv(r, ops);
    RunKeepsBurned(r, ops);
    var t := After(r, ops);
    var i := |s.burned|;
    assert t.burned[i] == r.burned[i] == Burned(k, s.members[k].cert);
    assert Gone(t, t.burned[i].key);
    forall who, req: Request, id | req.key == k
      ensures Enroll(t, who, req, id).0 == t && Enroll(t, who, req, id).1.Err?
    {
      BurnedIsRefused(t, who, req, id);
    }
  }

  // ----- One address for life -----

  lemma EnrollKeepsAddress(s: State, who: Applicant, req: Request, id: string, f: Family, k: string)
    requires AllocInv(s.net, f) && k in s.net.alloc.Of(f)
    ensures var alloc := Enroll(s, who, req, id).0.net.alloc.Of(f); k in alloc && alloc[k] == s.net.alloc.Of(f)[k]
  {
    EnrollExtends(s, who, req, id, f);
  }

  lemma EraseKeepsAddress(s: State, j: string, f: Family, k: string)
    requires j in s.members && k in s.net.alloc.Of(f)
    ensures var alloc := Erased(s, j).net.alloc.Of(f);
            if k in alloc then alloc[k] == s.net.alloc.Of(f)[k] else IsBurned(Erased(s, j), k)
  {
    assert Erased(s, j).burned[|s.burned|].key == j;
  }

  /** A step keeps a key's address, or removes the key. */
  lemma StepKeepsAddress(s: State, op: Op, f: Family, k: string)
    requires AllocInv(s.net, f) && k in s.net.alloc.Of(f)
    ensures var alloc := Apply(s, op).net.alloc.Of(f);
            if k in alloc then alloc[k] == s.net.alloc.Of(f)[k] else IsBurned(Apply(s, op), k)
  {
    if op.DoEnroll? {
      EnrollKeepsAddress(s, op.who, op.req, op.id, f, k);
    } else if op.DoRemove? {
      if op.pick in s.members {
        EraseKeepsAddress(s, op.pick, f, k);
      }
    } else {
      OtherStepsKeepNet(s, op);
    }
  }

  lemma BurnedStays(s: State, ops: seq<Op>, k: string)
    requires IsBurned(s, k)
    ensures IsBurned(After(s, ops), k)
  {
    RunKeepsBurned(s, ops);
    var i :| 0 <= i < |s.burned| && s.burned[i].key == k;
    assert After(s, ops).burned[i].key == k;
  }

  /** Between any two states of a run a key that holds an address in both holds the same one. */
  lemma {:induction false} AddressForLife(s: State, ops: seq<Op>, f: Family, k: string)
    requires Inv(s) && Run(s, ops) && k in s.net.alloc.Of(f) && k in After(s, ops).net.alloc.Of(f)
    ensures After(s, ops).net.alloc.Of(f)[k] == s.net.alloc.Of(f)[k]
    decreases |ops|
  {
    if ops == [] {
    } else {
      var t := Apply(s, ops[0]);
      StepKeepsAddress(s, ops[0], f, k);
      StepKeepsInv(s, ops[0]);
      if k in t.net.alloc.Of(f) {
        AddressForLife(t, ops[1..], f, k);
      } else {
        BurnedStays(t, ops[1..], k);
        RunKeepsInv(t, ops[1..]);
        BurnedHoldsNothing(After(s, ops), f, k);
      }
    }
  }

  lemma BurnedHoldsNothing(s: State, f: Family, k: string)
    requires BurnedGone(s) && IsBurned(s, k)
    ensures k !in s.net.alloc.Of(f)
  {
    var i :| 0 <= i < |s.burned| && s.burned[i].key == k;
    assert Gone(s, s.burned[i].key);
  }
}
