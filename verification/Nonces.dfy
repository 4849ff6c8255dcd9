/** The replay guard: a swept map of spent nonces, against a log that never forgets. */
module Nonces {

  /** One use of a nonce, at the time the store reads off its clock. */
  datatype Call = Call(key: string, ttl: int, now: int)

  datatype Memory = Memory(seen: map<string, int>, swept: int)

  // ----- The store -----

  function Swept(m: Memory, c: Call): Memory {
    if c.now - m.swept > c.ttl
    then Memory(map k | k in m.seen && c.now <= m.seen[k] :: m.seen[k], c.now)
    else m
  }

  predicate Spent(seen: map<string, int>, key: string, now: int) {
    key in seen && now < seen[key]
  }

  predicate Fresh(m: Memory, c: Call) {
    !Spent(Swept(m, c).seen, c.key, c.now)
  }

  function Use(m: Memory, c: Call): Memory {
    var s := Swept(m, c);
    if Fresh(m, c) then s.(seen := s.seen[c.key := c.now + c.ttl]) else s
  }

  class MemoryNonces {
    var seen: map<string, int>
    var swept: int

    constructor (zero: int)
      ensures seen == map[] && swept == zero
    {
      seen, swept := map[], zero;
    }

    method Spend(identity: string, nonce: string, ttl: int, now: int) returns (ok: bool)
      modifies this
      ensures var before, call := Memory(old(seen), old(swept)), Call(KeyOf(identity, nonce), ttl, now);
              ok == Fresh(before, call) && Memory(seen, swept) == Use(before, call)
    {
      var key := KeyOf(identity, nonce);
      if now - swept > ttl {
        var todo := seen.Keys;
        while todo != {}
          invariant todo <= seen.Keys <= old(seen).Keys
          invariant seen == map k | k in old(seen) && (k in todo || now <= old(seen)[k]) :: old(seen)[k]
          decreases todo
        {
          var k :| k in todo;
          if now > seen[k] {
            seen := map j | j in seen && j != k :: seen[j];
          }
          todo := todo - {k};
        }
        swept := now;
      }
      if key in seen && now < seen[key] {
        return false;
      }
      seen := seen[key := now + ttl];
      return true;
    }
  }

  function KeyOf(identity: string, nonce: string): string {
    identity + ['\0'] + nonce
  }

  /** An identity is printable, so one key is one identity and one nonce. */
  lemma KeyIsUnambiguous(i: string, n: string, j: string, o: string)
    requires '\0' !in i && '\0' !in j && KeyOf(i, n) == KeyOf(j, o)
    ensures i == j && n == o
  {
    var k := KeyOf(i, n);
    assert k[|i|] == '\0' && k[|j|] == '\0';
    assert forall t | 0 <= t < |i| :: k[t] == i[t];
    assert forall t | 0 <= t < |j| :: k[t] == j[t];
    assert !(|i| < |j|) && !(|j| < |i|);
    assert i == k[..|i|] && j == k[..|j|];
    assert n == k[|i| + 1..] && o == k[|j| + 1..];
  }

  // ----- Runs -----

  function After(m: Memory, calls: seq<Call>): Memory {
    if calls == [] then m else Use(After(m, calls[..|calls| - 1]), calls[|calls| - 1])
  }

  /** The clock does not go back. */
  ghost predicate Monotone(calls: seq<Call>) {
    forall i, j :: 0 <= i < j < |calls| ==> calls[i].now <= calls[j].now
  }

  // ----- What sweeping is for -----

  /** A sweep is due once more than a lifetime has passed since the last one, and forgets exactly what is over. */
  lemma SweepsWhenDue(m: Memory, c: Call)
    ensures c.now - m.swept <= c.ttl ==> Swept(m, c) == m
    ensures c.now - m.swept > c.ttl ==>
              && Swept(m, c).swept == c.now
              && forall k :: (k in Swept(m, c).seen <==> k in m.seen && m.seen[k] >= c.now)
                             && (k in Swept(m, c).seen ==> Swept(m, c).seen[k] == m.seen[k])
  {
  }

  /** Nothing that was over before the last sweep is remembered. */
  ghost predicate Recent(m: Memory) {
    forall k :: k in m.seen ==> m.seen[k] >= m.swept
  }

  /**
   So the memory holds recent nonces only: after every call of a run with a clock that
   does not go back, whatever is remembered was still good one lifetime before.
   */
  lemma {:induction false} RemembersRecent(zero: int, calls: seq<Call>, ttl: nat)
    requires Monotone(calls) && (forall i :: 0 <= i < |calls| ==> calls[i].ttl == ttl && zero <= calls[i].now)
    ensures var m := After(Memory(map[], zero), calls);
            && Recent(m)
            && m.swept <= (if calls == [] then zero else calls[|calls| - 1].now)
            && (calls != [] ==>
                  && calls[|calls| - 1].now - m.swept <= ttl
                  && forall k :: k in m.seen ==> m.seen[k] >= calls[|calls| - 1].now - ttl)
  {
    if calls != [] {
      RemembersRecent(zero, calls[..|calls| - 1], ttl);
    }
  }

  // ----- A log that never forgets -----

  datatype Entry = Entry(key: string, expiry: int)

  predicate LogSpent(log: seq<Entry>, key: string, now: int) {
    exists i :: 0 <= i < |log| && log[i].key == key && now < log[i].expiry
  }

  function LogUse(log: seq<Entry>, c: Call): seq<Entry> {
    if LogSpent(log, c.key, c.now) then log else log + [Entry(c.key, c.now + c.ttl)]
  }

  function Log(calls: seq<Call>): seq<Entry> {
    if calls == [] then [] else LogUse(Log(calls[..|calls| - 1]), calls[|calls| - 1])
  }

  /** From a time on, the map and the log call the same nonces spent. */
  ghost predicate Agree(m: Memory, log: seq<Entry>, from: int) {
    forall key, now :: now >= from ==> (Spent(m.seen, key, now) <==> LogSpent(log, key, now))
  }

  /** Sweeping forgets only what no longer matters. */
  lemma SweepKeepsAgreement(m: Memory, log: seq<Entry>, c: Call)
    requires Agree(m, log, c.now)
    ensures Agree(Swept(m, c), log, c.now)
  {
    forall key, now | now >= c.now
      ensures Spent(Swept(m, c).seen, key, now) <==> LogSpent(log, key, now)
    {
      assert Spent(m.seen, key, now) <==> LogSpent(log, key, now);
    }
  }

  lemma UseKeepsAgreement(m: Memory, log: seq<Entry>, c: Call)
    requires Agree(m, log, c.now)
    ensures Fresh(m, c) <==> !LogSpent(log, c.key, c.now)
    ensures Agree(Use(m, c), LogUse(log, c), c.now)
  {
    SweepKeepsAgreement(m, log, c);
    assert Spent(Swept(m, c).seen, c.key, c.now) <==> LogSpent(log, c.key, c.now);
    if Fresh(m, c) {
      var longer := log + [Entry(c.key, c.now + c.ttl)];
      forall key, now | now >= c.now
        ensures Spent(Use(m, c).seen, key, now) <==> LogSpent(longer, key, now)
      {
        AppendSpent(log, Entry(c.key, c.now + c.ttl), key, now);
        assert Spent(Swept(m, c).seen, key, now) <==> LogSpent(log, key, now);
        if key == c.key {
          assert !LogSpent(log, key, now);
        }
      }
    }
  }

  lemma AppendSpent(log: seq<Entry>, e: Entry, key: string, now: int)
    ensures LogSpent(log + [e], key, now) <==> LogSpent(log, key, now) || (e.key == key && now < e.expiry)
  {
    var longer := log + [e];
    if LogSpent(log, key, now) {
      var i :| 0 <= i < |log| && log[i].key == key && now < log[i].expiry;
      assert longer[i] == log[i];
    }
    assert longer[|log|] == e;
  }

  lemma {:induction false} RunAgrees(zero: int, calls: seq<Call>, from: int)
    requires Monotone(calls) && (calls != [] ==> calls[|calls| - 1].now <= from)
    ensures Agree(After(Memory(map[], zero), calls), Log(calls), from)
  {
    if calls == [] {
    } else {
      var before, c := calls[..|calls| - 1], calls[|calls| - 1];
      assert forall i :: 0 <= i < |before| ==> before[i] == calls[i];
      RunAgrees(zero, before, c.now);
      UseKeepsAgreement(After(Memory(map[], zero), before), Log(before), c);
    }
  }

  /** Whether the i-th call of a run was accepted. */
  predicate Accepted(zero: int, calls: seq<Call>, i: nat)
    requires i < |calls|
  {
    Fresh(After(Memory(map[], zero), calls[..i]), calls[i])
  }

  /** Under any schedule of sweeps the store answers exactly as the log would. */
  lemma SweptAnswersLikeLog(zero: int, calls: seq<Call>, i: nat)
    requires Monotone(calls) && i < |calls|
    ensures Accepted(zero, calls, i) <==> !LogSpent(Log(calls[..i]), calls[i].key, calls[i].now)
  {
    var before := calls[..i];
    assert forall j :: 0 <= j < |before| ==> before[j] == calls[j];
    RunAgrees(zero, before, calls[i].now);
    UseKeepsAgreement(After(Memory(map[], zero), before), Log(before), calls[i]);
  }

  lemma {:induction false} LogGrows(calls: seq<Call>, i: nat)
    requires i <= |calls|
    ensures Log(calls[..i]) <= Log(calls)
    decreases |calls|
  {
    if i == |calls| {
      assert calls[..i] == calls;
    } else {
      assert calls[..|calls| - 1][..i] == calls[..i];
      LogGrows(calls[..|calls| - 1], i);
    }
  }

  lemma LogOneMore(calls: seq<Call>, i: nat)
    requires i < |calls|
    ensures Log(calls[..i + 1]) == LogUse(Log(calls[..i]), calls[i])
  {
    assert calls[..i + 1][..i] == calls[..i];
  }

  /** An accepted use of the nonce whose lifetime is not over. */
  predicate Bars(zero: int, calls: seq<Call>, j: nat, key: string, now: int) {
    j < |calls| && calls[j].key == key && Accepted(zero, calls, j) && now < calls[j].now + calls[j].ttl
  }

  ghost predicate BarredBefore(zero: int, calls: seq<Call>, i: nat, key: string, now: int) {
    exists j: nat :: j < i && Bars(zero, calls, j, key, now)
  }

  lemma BarredOneMore(zero: int, calls: seq<Call>, i: nat, key: string, now: int)
    ensures BarredBefore(zero, calls, i + 1, key, now)
       <==> BarredBefore(zero, calls, i, key, now) || Bars(zero, calls, i, key, now)
  {
  }

  lemma LogSpentOneMore(zero: int, calls: seq<Call>, i: nat, key: string, now: int)
    requires Monotone(calls) && i < |calls|
    ensures LogSpent(Log(calls[..i + 1]), key, now) <==> LogSpent(Log(calls[..i]), key, now) || Bars(zero, calls, i, key, now)
  {
    var c := calls[i];
    SweptAnswersLikeLog(zero, calls, i);
    LogOneMore(calls, i);
    AppendSpent(Log(calls[..i]), Entry(c.key, c.now + c.ttl), key, now);
  }

  /** What the log holds is what was accepted. */
  lemma {:induction false} LogIsAccepted(zero: int, calls: seq<Call>, i: nat, key: string, now: int)
    requires Monotone(calls) && i <= |calls|
    ensures LogSpent(Log(calls[..i]), key, now) <==> BarredBefore(zero, calls, i, key, now)
  {
    if i > 0 {
      LogIsAccepted(zero, calls, i - 1, key, now);
      BarredOneMore(zero, calls, i - 1, key, now);
      LogSpentOneMore(zero, calls, i - 1, key, now);
    }
  }

  /**
   A use is accepted exactly when every earlier accepted use of the same nonce has
   outlived its lifetime, under any schedule of sweeps.
   */
  lemma AcceptedExactly(zero: int, calls: seq<Call>, i: nat)
    requires Monotone(calls) && i < |calls|
    ensures Accepted(zero, calls, i)
       <==> forall j :: 0 <= j < i && calls[j].key == calls[i].key && Accepted(zero, calls, j) ==>
              calls[i].now >= calls[j].now + calls[j].ttl
  {
    SweptAnswersLikeLog(zero, calls, i);
    LogIsAccepted(zero, calls, i, calls[i].key, calls[i].now);
    if !BarredBefore(zero, calls, i, calls[i].key, calls[i].now) {
      forall j | 0 <= j < i && calls[j].key == calls[i].key && Accepted(zero, calls, j)
        ensures calls[i].now >= calls[j].now + calls[j].ttl
      {
        assert !Bars(zero, calls, j, calls[i].key, calls[i].now);
      }
    }
  }

  /** Two acceptances of one nonce are at least the first one's lifetime apart. */
  lemma AcceptancesApart(zero: int, calls: seq<Call>, i: nat, j: nat)
    requires Monotone(calls) && i < j < |calls| && calls[i].key == calls[j].key
    requires Accepted(zero, calls, i) && Accepted(zero, calls, j)
    ensures calls[j].now >= calls[i].now + calls[i].ttl
  {
    AcceptedExactly(zero, calls, j);
  }

  // ----- Signed requests -----

  /** How far apart the two clocks may be, in seconds. */
  const WINDOW := 300

  /** A request, whether its signature is good, and the time it is looked at. */
  datatype Signed = Signed(key: string, stamp: int, good: bool, now: int)

  /** Its time stamp is near enough, on either side of the clock. */
  predicate InWindow(r: Signed) {
    -WINDOW <= r.now - r.stamp <= WINDOW
  }

  function CallOf(r: Signed): Call {
    Call(r.key, WINDOW, r.now)
  }

  /** The nonce is looked at, and spent, only once everything else is in order. */
  function Verify(m: Memory, r: Signed): (Memory, bool) {
    if !InWindow(r) || !r.good then (m, false) else (Use(m, CallOf(r)), Fresh(m, CallOf(r)))
  }

  /** A nonce that has not been used passes exactly within five minutes of its stamp, either way. */
  lemma FirstUse(m: Memory, r: Signed)
    requires r.key !in m.seen
    ensures Verify(m, r).1 <==> r.good && r.stamp - 300 <= r.now <= r.stamp + 300
  {
  }

  /** Requests that get as far as their nonce. */
  function Passing(rs: seq<Signed>): seq<Call> {
    if rs == [] then []
    else
      var r := rs[|rs| - 1];
      Passing(rs[..|rs| - 1]) + (if InWindow(r) && r.good then [CallOf(r)] else [])
  }

  function VerifyAll(m: Memory, rs: seq<Signed>): Memory {
    if rs == [] then m else Verify(VerifyAll(m, rs[..|rs| - 1]), rs[|rs| - 1]).0
  }

  lemma AfterOneMore(m: Memory, calls: seq<Call>, c: Call)
    ensures After(m, calls + [c]) == Use(After(m, calls), c)
  {
    assert (calls + [c])[..|calls|] == calls;
  }

  /** Nobody can burn a nonce for somebody else: what fails before its nonce leaves no trace. */
  lemma {:induction false} FailuresLeaveNoTrace(m: Memory, rs: seq<Signed>)
    ensures VerifyAll(m, rs) == After(m, Passing(rs))
  {
    if rs == [] {
    } else {
      var before, r := rs[..|rs| - 1], rs[|rs| - 1];
      FailuresLeaveNoTrace(m, before);
      if InWindow(r) && r.good {
        AfterOneMore(m, Passing(before), CallOf(r));
      } else {
        assert Passing(before) + [] == Passing(before);
      }
    }
  }

  /**
   A request that was accepted can be accepted again later exactly when it was
   stamped at or after the moment of its first acceptance.
   */
  lemma ReplayExactly(m: Memory, r: Signed)
    requires Verify(m, r).1
    ensures (exists again :: again >= r.now && Verify(Verify(m, r).0, r.(now := again)).1) <==> r.stamp >= r.now
  {
    var after := Verify(m, r).0;
    assert after.seen[r.key] == r.now + WINDOW;
    if r.stamp >= r.now {
      assert Verify(after, r.(now := r.now + WINDOW)).1;
    } else {
      forall again | again >= r.now
        ensures !Verify(after, r.(now := again)).1
      {
        if again - r.stamp <= WINDOW {
          assert again < r.now + WINDOW;
          assert Spent(Swept(after, CallOf(r.(now := again))).seen, r.key, again);
        }
      }
    }
  }

  /** The clock does not go back between requests. */
  ghost predicate InOrder(rs: seq<Signed>) {
    forall i, j :: 0 <= i < j < |rs| ==> rs[i].now <= rs[j].now
  }

  predicate AcceptedIn(zero: int, rs: seq<Signed>, i: nat)
    requires i < |rs|
  {
    Verify(VerifyAll(Memory(map[], zero), rs[..i]), rs[i]).1
  }

  lemma {:induction false} PassingInOrder(rs: seq<Signed>, from: int)
    requires InOrder(rs) && (rs != [] ==> rs[|rs| - 1].now <= from)
    ensures Monotone(Passing(rs)) && forall i :: 0 <= i < |Passing(rs)| ==> Passing(rs)[i].now <= from
  {
    if rs != [] {
      PassingInOrder(rs[..|rs| - 1], rs[|rs| - 1].now);
    }
  }

  lemma {:induction false} PassingGrows(rs: seq<Signed>, i: nat)
    requires i <= |rs|
    ensures Passing(rs[..i]) <= Passing(rs)
    decreases |rs|
  {
    if i == |rs| {
      assert rs[..i] == rs;
    } else {
      assert rs[..|rs| - 1][..i] == rs[..i];
      PassingGrows(rs[..|rs| - 1], i);
    }
  }

  /** An accepted request is an accepted use, at its place among those that get as far. */
  lemma AcceptedIsUse(zero: int, rs: seq<Signed>, i: nat)
    requires InOrder(rs) && i < |rs| && AcceptedIn(zero, rs, i)
    ensures var n := |Passing(rs[..i])|;
            n < |Passing(rs)| && Passing(rs)[n] == CallOf(rs[i]) && Accepted(zero, Passing(rs), n)
  {
    var n := |Passing(rs[..i])|;
    assert rs[..i + 1][..i] == rs[..i];
    assert Passing(rs[..i + 1])[n] == CallOf(rs[i]);
    PassingGrows(rs, i + 1);
    PassingGrows(rs, i);
    assert Passing(rs)[..n] == Passing(rs[..i]);
    FailuresLeaveNoTrace(Memory(map[], zero), rs[..i]);
  }

  /** So, in every run, a request stamped before its first acceptance is accepted once. */
  lemma AcceptedAtMostOnce(zero: int, rs: seq<Signed>, i: nat, j: nat)
    requires InOrder(rs) && i < j < |rs| && rs[i].key == rs[j].key && rs[i].stamp == rs[j].stamp
    requires AcceptedIn(zero, rs, i) && rs[i].stamp < rs[i].now
    ensures !AcceptedIn(zero, rs, j)
  {
    if AcceptedIn(zero, rs, j) {
      AcceptedIsUse(zero, rs, i);
      AcceptedIsUse(zero, rs, j);
      var m, n := |Passing(rs[..i])|, |Passing(rs[..j])|;
      EarlierUse(rs, i, j);
      PassingInOrder(rs, rs[|rs| - 1].now);
      AcceptancesApart(zero, Passing(rs), m, n);
    }
  }

  lemma EarlierUse(rs: seq<Signed>, i: nat, j: nat)
    requires i < j < |rs| && InWindow(rs[i]) && rs[i].good
    ensures |Passing(rs[..i])| < |Passing(rs[..j])|
  {
    assert rs[..i + 1][..i] == rs[..i];
    assert rs[..j][..i + 1] == rs[..i + 1];
    PassingGrows(rs[..j], i + 1);
  }
}
