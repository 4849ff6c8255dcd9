/** The fixed-window limiter, and what it lets through in any window. */
module Limiter {

  datatype Bucket = Bucket(count: nat, reset: int)

  datatype Call = Call(key: string, now: int)

  predicate Opens(buckets: map<string, Bucket>, c: Call) {
    c.key !in buckets || c.now > buckets[c.key].reset
  }

  /** A key opens a bucket, or counts in the one it has. */
  function Counted(buckets: map<string, Bucket>, window: int, c: Call): Bucket {
    if Opens(buckets, c) then Bucket(1, c.now + window)
    else Bucket(buckets[c.key].count + 1, buckets[c.key].reset)
  }

  predicate Allows(buckets: map<string, Bucket>, limit: int, c: Call) {
    Opens(buckets, c) || buckets[c.key].count + 1 <= limit
  }

  class RateLimiter {
    const window: int
    const limit: int
    var buckets: map<string, Bucket>

    constructor (limit: int, window: int)
      ensures this.limit == limit && this.window == window && buckets == map[]
    {
      this.limit, this.window, buckets := limit, window, map[];
    }

    method Allow(key: string, now: int) returns (ok: bool)
      modifies this`buckets
      ensures ok == Allows(old(buckets), limit, Call(key, now))
      ensures buckets == old(buckets)[key := Counted(old(buckets), window, Call(key, now))]
    {
      if key !in buckets || now > buckets[key].reset {
        buckets := buckets[key := Bucket(1, now + window)];
        return true;
      }
      var b := buckets[key];
      buckets := buckets[key := b.(count := b.count + 1)];
      return b.count + 1 <= limit;
    }
  }

  function After(window: int, calls: seq<Call>): map<string, Bucket> {
    if calls == [] then map[]
    else
      var before, c := After(window, calls[..|calls| - 1]), calls[|calls| - 1];
      before[c.key := Counted(before, window, c)]
  }

  /** How many calls of one key were let through between two times, both included. */
  function Admitted(window: int, limit: int, calls: seq<Call>, key: string, from: int, to: int): nat {
    if calls == [] then 0
    else
      var before, c := calls[..|calls| - 1], calls[|calls| - 1];
      Admitted(window, limit, before, key, from, to)
      + (if c.key == key && from <= c.now <= to && Allows(After(window, before), limit, c) then 1 else 0)
  }

  ghost predicate Monotone(calls: seq<Call>) {
    forall i, j :: 0 <= i < j < |calls| ==> calls[i].now <= calls[j].now
  }

  /** The first call of a bucket is always let through, so a bucket lets at least one through. */
  function PerBucket(limit: int): (l: nat)
    ensures l >= 1
  {
    if limit >= 1 then limit else 1
  }

  function Min(a: nat, b: nat): nat {
    if a <= b then a else b
  }

  /**
   What the current bucket says about the count in a window that starts at from:
   a bucket opened before the window spent its first call outside it, and at most
   one bucket opens inside.
   */
  ghost predicate Budget(buckets: map<string, Bucket>, window: int, limit: int, key: string, from: int, admitted: nat) {
    var l := PerBucket(limit);
    if key !in buckets then admitted == 0
    else
      var start, used := buckets[key].reset - window, Min(buckets[key].count, l);
      && buckets[key].count >= 1
      && (start < from ==> admitted <= used - 1)
      && (from <= start <= from + window ==> admitted <= l - 1 + used)
      && admitted <= 2 * l - 1
  }

  lemma StepKeepsBudget(buckets: map<string, Bucket>, window: int, limit: int, key: string, from: int, admitted: nat, c: Call)
    requires window >= 0 && c.key == key && Budget(buckets, window, limit, key, from, admitted)
    requires c.now < from ==> admitted == 0
    requires key in buckets ==> buckets[key].reset - window <= c.now
    ensures var more := admitted + (if from <= c.now <= from + window && Allows(buckets, limit, c) then 1 else 0);
            Budget(buckets[key := Counted(buckets, window, c)], window, limit, key, from, more)
  {
  }

  lemma {:induction false} RunKeepsBudget(window: int, limit: int, calls: seq<Call>, key: string, from: int)
    requires window >= 0 && Monotone(calls)
    ensures Budget(After(window, calls), window, limit, key, from, Admitted(window, limit, calls, key, from, from + window))
    ensures calls != [] && calls[|calls| - 1].now < from ==> Admitted(window, limit, calls, key, from, from + window) == 0
    ensures key in After(window, calls) ==> calls != [] && After(window, calls)[key].reset - window <= calls[|calls| - 1].now
  {
    if calls == [] {
    } else {
      var before, c := calls[..|calls| - 1], calls[|calls| - 1];
      assert forall i :: 0 <= i < |before| ==> before[i] == calls[i];
      RunKeepsBudget(window, limit, before, key, from);
      if c.key == key {
        StepKeepsBudget(After(window, before), window, limit, key, from,
                        Admitted(window, limit, before, key, from, from + window), c);
      }
    }
  }

  /**
   In any closed interval one window long, at most 2 * limit - 1 calls of a key are
   let through, whatever the other keys do.
   */
  lemma AtMostTwoBuckets(window: int, limit: int, calls: seq<Call>, key: string, from: int)
    requires window >= 0 && limit >= 1 && Monotone(calls)
    ensures Admitted(window, limit, calls, key, from, from + window) <= 2 * limit - 1
  {
    RunKeepsBudget(window, limit, calls, key, from);
  }

  /** How many calls of a key its current bucket has let through. */
  function InBucket(window: int, limit: int, calls: seq<Call>, key: string): nat {
    if calls == [] then 0
    else
      var before, c := calls[..|calls| - 1], calls[|calls| - 1];
      if c.key != key then InBucket(window, limit, before, key)
      else if Opens(After(window, before), c) then 1
      else InBucket(window, limit, before, key) + (if Allows(After(window, before), limit, c) then 1 else 0)
  }

  /** A bucket lets its first calls through, up to the limit, and no more, whatever the clock does. */
  lemma {:induction false} BucketAdmits(window: int, limit: int, calls: seq<Call>, key: string)
    ensures var buckets := After(window, calls);
            InBucket(window, limit, calls, key)
            == (if key in buckets then Min(buckets[key].count, PerBucket(limit)) else 0)
    ensures key in After(window, calls) ==> After(window, calls)[key].count >= 1
  {
    if calls == [] {
    } else {
      BucketAdmits(window, limit, calls[..|calls| - 1], key);
    }
  }

  // ----- The bound is reached -----

  function Again(c: Call, n: nat): (s: seq<Call>)
    ensures |s| == n
  {
    seq(n, i => c)
  }

  /** The key's bucket and its count in a window, after a run. */
  ghost predicate Stands(window: int, limit: int, calls: seq<Call>, key: string, from: int, b: Bucket, admitted: nat) {
    && key in After(window, calls)
    && After(window, calls)[key] == b
    && Admitted(window, limit, calls, key, from, from + window) == admitted
  }

  lemma OneMore(window: int, limit: int, calls: seq<Call>, c: Call, from: int, b: Bucket, admitted: nat)
    requires Stands(window, limit, calls, c.key, from, b, admitted) && from <= c.now <= from + window
    requires c.now <= b.reset && b.count + 1 <= limit
    ensures Stands(window, limit, calls + [c], c.key, from, Bucket(b.count + 1, b.reset), admitted + 1)
  {
    assert (calls + [c])[..|calls|] == calls;
  }

  lemma OpensNew(window: int, limit: int, calls: seq<Call>, c: Call, from: int, b: Bucket, admitted: nat)
    requires Stands(window, limit, calls, c.key, from, b, admitted) && from <= c.now <= from + window && c.now > b.reset
    ensures Stands(window, limit, calls + [c], c.key, from, Bucket(1, c.now + window), admitted + 1)
  {
    assert (calls + [c])[..|calls|] == calls;
  }

  /** Calls repeated inside an open bucket are let through until the bucket is used up. */
  lemma {:induction false} Fills(window: int, limit: int, calls: seq<Call>, c: Call, n: nat, from: int, b: Bucket, admitted: nat)
    requires Stands(window, limit, calls, c.key, from, b, admitted) && from <= c.now <= from + window
    requires c.now <= b.reset && b.count + n <= limit
    ensures Stands(window, limit, calls + Again(c, n), c.key, from, Bucket(b.count + n, b.reset), admitted + n)
  {
    if n == 0 {
      assert calls + Again(c, n) == calls;
    } else {
      Fills(window, limit, calls, c, n - 1, from, b, admitted);
      OneMore(window, limit, calls + Again(c, n - 1), c, from, Bucket(b.count + n - 1, b.reset), admitted + n - 1);
      assert (calls + Again(c, n - 1)) + [c] == calls + Again(c, n);
    }
  }

  /** One call, a burst at the end of its bucket, and a full bucket right after. */
  function Burst(window: int, limit: nat, key: string): seq<Call>
    requires limit >= 1
  {
    (([Call(key, 0)] + Again(Call(key, window), limit - 1)) + [Call(key, window + 1)]) + Again(Call(key, window + 1), limit - 1)
  }

  lemma JustOne(window: int, limit: int, key: string)
    ensures Stands(window, limit, [Call(key, 0)], key, 1, Bucket(1, window), 0)
  {
    var calls := [Call(key, 0)];
    assert calls[..0] == [];
    assert After(window, calls[..0]) == map[];
    assert Admitted(window, limit, calls[..0], key, 1, 1 + window) == 0;
  }

  lemma BoundIsReached(window: int, limit: nat, key: string)
    requires window >= 1 && limit >= 1
    ensures Monotone(Burst(window, limit, key))
    ensures Admitted(window, limit, Burst(window, limit, key), key, 1, 1 + window) == 2 * limit - 1
  {
    var first := [Call(key, 0)];
    JustOne(window, limit, key);
    Fills(window, limit, first, Call(key, window), limit - 1, 1, Bucket(1, window), 0);
    var full := first + Again(Call(key, window), limit - 1);
    OpensNew(window, limit, full, Call(key, window + 1), 1, Bucket(limit, window), limit - 1);
    Fills(window, limit, full + [Call(key, window + 1)], Call(key, window + 1), limit - 1, 1,
          Bucket(1, window + 1 + window), limit);
  }
}
