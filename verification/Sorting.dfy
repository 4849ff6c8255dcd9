/** Strings in byte order, and the one sorted arrangement a bag of them has. */
module Sorting {

  predicate Le(a: string, b: string) {
    a == [] || (b != [] && (a[0] < b[0] || (a[0] == b[0] && Le(a[1..], b[1..]))))
  }

  lemma {:induction false} LeTotal(a: string, b: string)
    ensures Le(a, b) || Le(b, a)
    ensures Le(a, b) && Le(b, a) ==> a == b
  {
    if a == [] || b == [] {
    } else {
      LeTotal(a[1..], b[1..]);
      assert a == [a[0]] + a[1..] && b == [b[0]] + b[1..];
    }
  }

  lemma {:induction false} LeTransitive(a: string, b: string, c: string)
    requires Le(a, b) && Le(b, c)
    ensures Le(a, c)
  {
    if a == [] || b == [] || c == [] {
    } else if a[0] == b[0] == c[0] {
      LeTransitive(a[1..], b[1..], c[1..]);
    }
  }

  /** Each string is at most the next one. */
  predicate Sorted(s: seq<string>) {
    |s| <= 1 || (Le(s[0], s[1]) && Sorted(s[1..]))
  }

  function Insert(x: string, s: seq<string>): (r: seq<string>)
    requires Sorted(s)
    ensures Sorted(r) && |r| == |s| + 1 && (r[0] == x || (s != [] && r[0] == s[0]))
  {
    if s == [] then [x]
    else if Le(x, s[0]) then
      assert ([x] + s)[1..] == s;
      [x] + s
    else
      LeTotal(x, s[0]);
      var rest := Insert(x, s[1..]);
      assert ([s[0]] + rest)[1..] == rest;
      [s[0]] + rest
  }

  lemma HeadAndTail(s: seq<string>)
    requires s != []
    ensures multiset(s) == multiset{s[0]} + multiset(s[1..])
  {
    assert s == [s[0]] + s[1..];
  }

  lemma {:induction false} InsertBag(x: string, s: seq<string>)
    requires Sorted(s)
    ensures multiset(Insert(x, s)) == multiset{x} + multiset(s)
  {
    if s == [] || Le(x, s[0]) {
    } else {
      InsertBag(x, s[1..]);
      HeadAndTail(s);
    }
  }

  function Sort(s: seq<string>): (r: seq<string>)
    ensures Sorted(r)
  {
    if s == [] then [] else Insert(s[0], Sort(s[1..]))
  }

  /** Sorting rearranges and nothing else. */
  lemma {:induction false} SortBag(s: seq<string>)
    ensures multiset(Sort(s)) == multiset(s)
  {
    if s == [] {
    } else {
      SortBag(s[1..]);
      InsertBag(s[0], Sort(s[1..]));
      HeadAndTail(s);
    }
  }

  /** A bag of strings has exactly one sorted arrangement. */
  lemma {:induction false} SortedUnique(a: seq<string>, b: seq<string>)
    requires Sorted(a) && Sorted(b) && multiset(a) == multiset(b)
    ensures a == b
  {
    assert |a| == |multiset(a)| == |multiset(b)| == |b|;
    if a == [] {
    } else {
      SameHead(a, b);
      HeadAndTail(a);
      HeadAndTail(b);
      Cancel(multiset(a[1..]), multiset(b[1..]), multiset{a[0]});
      SortedUnique(a[1..], b[1..]);
      assert a == [a[0]] + a[1..] && b == [b[0]] + b[1..];
    }
  }

  lemma Cancel<T>(a: multiset<T>, b: multiset<T>, x: multiset<T>)
    requires x + a == x + b
    ensures a == b
  {
    assert (x + a) - x == a && (x + b) - x == b;
  }

  lemma SameHead(a: seq<string>, b: seq<string>)
    requires Sorted(a) && Sorted(b) && multiset(a) == multiset(b) && a != [] && b != []
    ensures a[0] == b[0]
  {
    assert a[0] in multiset(b) && b[0] in multiset(a);
    var i :| 0 <= i < |a| && a[i] == b[0];
    var j :| 0 <= j < |b| && b[j] == a[0];
    HeadLeast(a, i);
    HeadLeast(b, j);
    LeTotal(a[0], b[0]);
  }

  lemma {:induction false} HeadLeast(s: seq<string>, i: nat)
    requires Sorted(s) && i < |s|
    ensures Le(s[0], s[i])
  {
    if i == 0 {
      LeTotal(s[0], s[0]);
    } else {
      HeadLeast(s[1..], i - 1);
      LeTransitive(s[0], s[1], s[i]);
    }
  }

  /** Byte order: at the first place where two strings differ the smaller character decides, and a beginning comes first. */
  lemma {:induction false} LeIsByteOrder(a: string, b: string, n: nat)
    requires n <= |a| && n <= |b| && a[..n] == b[..n]
    ensures n < |a| && n < |b| && a[n] < b[n] ==> Le(a, b) && !Le(b, a)
    ensures n == |a| ==> Le(a, b)
  {
    if n > 0 {
      assert a[0] == a[..n][0] == b[..n][0] == b[0];
      assert a[1..][..n - 1] == a[..n][1..] && b[1..][..n - 1] == b[..n][1..];
      LeIsByteOrder(a[1..], b[1..], n - 1);
    }
  }
}
