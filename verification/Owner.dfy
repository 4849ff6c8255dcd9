/** The owner's side of a decision: which pending request an identifier, or the start of one, means. */
module Owner {
  import opened Wrappers
  import opened Membership
  import opened Invariant
  import opened Reuse
  import opened Stranded

  // ----- Looking a request up -----

  /** A request waiting in one of the instances the machine owns. */
  datatype Entry = Entry(instance: string, id: string)

  datatype Lookup = Found(entry: Entry) | NoneMatches | Several(count: nat)

  function Starting(entries: seq<Entry>, ref: string): seq<Entry> {
    if entries == [] then []
    else
      var last := entries[|entries| - 1];
      Starting(entries[..|entries| - 1], ref) + (if ref <= last.id then [last] else [])
  }

  lemma {:induction false} StartingMembers(entries: seq<Entry>, ref: string, e: Entry)
    ensures e in Starting(entries, ref) <==> e in entries && ref <= e.id
  {
    if entries == [] {
    } else {
      assert entries == entries[..|entries| - 1] + [entries[|entries| - 1]];
      StartingMembers(entries[..|entries| - 1], ref, e);
    }
  }

  /** An exact identifier wins; a leading part is taken only when one request has it. */
  method MatchPending(entries: seq<Entry>, ref: string) returns (r: Lookup)
    ensures r.Found? ==> r.entry in entries && ref <= r.entry.id
    ensures (exists e :: e in entries && e.id == ref) ==> r.Found? && r.entry.id == ref
    ensures r.Found? && r.entry.id != ref ==> Starting(entries, ref) == [r.entry]
    ensures r.NoneMatches? ==> forall e :: e in entries ==> !(ref <= e.id)
    ensures r.Several? ==> r.count == |Starting(entries, ref)| >= 2
  {
    var found: seq<Entry> := [];
    for i := 0 to |entries|
      invariant found == Starting(entries[..i], ref)
      invariant forall e :: e in entries[..i] ==> e.id != ref
    {
      assert entries[..i + 1][..i] == entries[..i];
      if entries[i].id == ref {
        return Found(entries[i]);
      }
      if ref <= entries[i].id {
        found := found + [entries[i]];
      }
    }
    assert entries[..|entries|] == entries;
    if |found| == 0 {
      forall e | e in entries
        ensures !(ref <= e.id)
      {
        StartingMembers(entries, ref, e);
      }
      return NoneMatches;
    }
    if |found| == 1 {
      StartingMembers(entries, ref, found[0]);
      return Found(found[0]);
    }
    return Several(|found|);
  }

  predicate IsPending(s: State, id: string) {
    id in s.requests && s.requests[id].status.Pending?
  }

  ghost predicate EachOnce<T>(list: seq<T>) {
    forall i, j :: 0 <= i < j < |list| ==> list[i] != list[j]
  }

  /** The requests the hub lists as waiting, each once, in whatever order. */
  ghost predicate ListsPending(s: State, ids: seq<string>) {
    EachOnce(ids) && forall id :: id in ids <==> id in s.requests && s.requests[id].status.Pending?
  }

  method Pending(s: State) returns (ids: seq<string>)
    ensures ListsPending(s, ids)
  {
    ids := [];
    var todo := s.requests.Keys;
    while todo != {}
      invariant todo <= s.requests.Keys && EachOnce(ids)
      invariant forall id :: id in ids <==> IsPending(s, id) && id !in todo
      decreases todo
    {
      var id :| id in todo;
      if s.requests[id].status.Pending? {
        ids := ids + [id];
      }
      todo := todo - {id};
    }
  }

  /** What the hub answered about one owned instance, if it could be asked. */
  datatype Answer = Answer(instance: string, read: Option<State>)

  predicate WaitsIn(a: Answer, e: Entry) {
    e.instance == a.instance && a.read.Some? && IsPending(a.read.value, e.id)
  }

  ghost predicate Waits(answers: seq<Answer>, e: Entry) {
    exists i :: 0 <= i < |answers| && WaitsIn(answers[i], e)
  }

  /** An instance is owned once. */
  ghost predicate OwnedOnce(answers: seq<Answer>) {
    forall i, j :: 0 <= i < j < |answers| ==> answers[i].instance != answers[j].instance
  }

  method EntriesOf(a: Answer) returns (entries: seq<Entry>)
    ensures EachOnce(entries) && forall e :: e in entries <==> WaitsIn(a, e)
  {
    entries := [];
    if a.read.None? {
      return;
    }
    var ids := Pending(a.read.value);
    for i := 0 to |ids|
      invariant |entries| == i && forall j :: 0 <= j < i ==> entries[j] == Entry(a.instance, ids[j])
    {
      entries := entries + [Entry(a.instance, ids[i])];
    }
    forall e | WaitsIn(a, e)
      ensures e in entries
    {
      var i :| 0 <= i < |ids| && ids[i] == e.id;
      assert entries[i] == e;
    }
  }

  /** Everything waiting across the owned instances; one that cannot be read is passed over. */
  method AllPending(answers: seq<Answer>) returns (entries: seq<Entry>)
    requires OwnedOnce(answers)
    ensures EachOnce(entries) && forall e :: e in entries <==> Waits(answers, e)
  {
    entries := [];
    for i := 0 to |answers|
      invariant EachOnce(entries) && forall e :: e in entries <==> Waits(answers[..i], e)
    {
      var more := EntriesOf(answers[i]);
      OneMoreAnswer(answers, i);
      JoinOnce(entries, more);
      entries := entries + more;
    }
    assert answers[..|answers|] == answers;
  }

  lemma JoinOnce(a: seq<Entry>, b: seq<Entry>)
    requires EachOnce(a) && EachOnce(b) && forall e :: e in a ==> e !in b
    ensures EachOnce(a + b)
  {
    forall i, j | 0 <= i < j < |a + b|
      ensures (a + b)[i] != (a + b)[j]
    {
      if i < |a| <= j {
        assert a[i] in a && b[j - |a|] in b;
      }
    }
  }

  lemma OneMoreAnswer(answers: seq<Answer>, i: nat)
    requires i < |answers| && OwnedOnce(answers)
    ensures forall e :: Waits(answers[..i + 1], e) <==> Waits(answers[..i], e) || WaitsIn(answers[i], e)
    ensures forall e :: Waits(answers[..i], e) ==> !WaitsIn(answers[i], e)
  {
    var more := answers[..i + 1];
    assert more[i] == answers[i] && forall j :: 0 <= j < i ==> more[j] == answers[..i][j];
  }

  lemma {:induction false} StartingOnce(entries: seq<Entry>, ref: string)
    requires EachOnce(entries)
    ensures EachOnce(Starting(entries, ref))
  {
    if entries == [] {
    } else {
      StartingOnce(entries[..|entries| - 1], ref);
      StartingMembers(entries[..|entries| - 1], ref, entries[|entries| - 1]);
    }
  }

  /** What a reference finds is waiting, is meant by it, and is the only request it could mean. */
  method FindPending(answers: seq<Answer>, ref: string) returns (r: Lookup)
    requires OwnedOnce(answers)
    ensures r.Found? ==> Waits(answers, r.entry) && ref <= r.entry.id
    ensures r.Found? && r.entry.id != ref ==> forall e :: Waits(answers, e) && ref <= e.id ==> e == r.entry
    ensures (exists e :: Waits(answers, e) && e.id == ref) ==> r.Found? && r.entry.id == ref
    ensures r.NoneMatches? <==> forall e :: Waits(answers, e) ==> !(ref <= e.id)
    ensures r.Several? ==> exists d, e :: d != e && Waits(answers, d) && Waits(answers, e) && ref <= d.id && ref <= e.id
  {
    var entries := AllPending(answers);
    r := MatchPending(entries, ref);
    if r.Found? && r.entry.id != ref {
      forall e | Waits(answers, e) && ref <= e.id
        ensures e == r.entry
      {
        StartingMembers(entries, ref, e);
      }
    }
    if r.Several? {
      var found := Starting(entries, ref);
      StartingOnce(entries, ref);
      StartingMembers(entries, ref, found[0]);
      StartingMembers(entries, ref, found[1]);
      assert Waits(answers, found[0]) && Waits(answers, found[1]) && found[0] != found[1];
    }
  }

  // ----- The list is taken first and the decision comes later -----

  predicate ApprovesIt(op: Op, id: string) {
    op.DoDecide? && op.id == id && op.d.Approve? && op.d.certificate
  }

  lemma StepKeepsOpen(s: State, op: Op, id: string)
    requires !IsApproved(s, id) && !ApprovesIt(op, id)
    ensures !IsApproved(Apply(s, op), id)
  {
  }

  /**
   However old the list is when the decision arrives, it is a guarded one and keeps
   off approved records, unless somebody else approved that very request in between.
   */
  lemma {:induction false} FoundStaysGuarded(s: State, id: string, ops: seq<Op>, d: Decision)
    requires !IsApproved(s, id) && Run(s, ops) && (d.Approve? ==> d.cert != "")
    requires forall i :: 0 <= i < |ops| ==> !ApprovesIt(ops[i], id)
    ensures var t := After(s, ops);
            && Guarded(t, DoDecide(id, d)) && HandsOff(t, DoDecide(id, d))
            && Guarded(t, DoForget(id)) && HandsOff(t, DoForget(id))
    decreases |ops|
  {
    if ops == [] {
    } else {
      StepKeepsOpen(s, ops[0], id);
      FoundStaysGuarded(Apply(s, ops[0]), id, ops[1..], d);
    }
  }
}
