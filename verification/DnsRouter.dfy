/** The name-space router: which connector answers a question, and the two rewritings. */
module DnsRouter {
  import opened Wrappers
  import opened Netip
  import opened Text

  const ROOT := "."

  datatype Route = Route(virt: string, zone: string, via: Addr, ipv4: bool, ipv6: bool) {
    /** A network whose names carry no suffix. */
    predicate Bare() {
      zone == ROOT
    }
  }

  /** A name is a name space or ends with one at a label boundary. */
  predicate Under(name: string, space: string) {
    name == space || HasSuffix(name, "." + space)
  }

  // ----- rewrite and restore -----

  function Rewrite(r: Route, name: string): string {
    var trimmed := Normal(name);
    if trimmed == r.virt then ROOT
    else
      var asked := TrimSuffix(trimmed, "." + r.virt);
      if r.Bare() then asked + "." else asked + "." + r.zone + "."
  }

  predicate OneLabel(s: string) {
    s != "" && '.' !in s
  }

  function Restore(r: Route, name: string): string {
    var trimmed := Normal(name);
    if r.Bare() then
      if OneLabel(trimmed) then trimmed + "." + r.virt + "." else name
    else if trimmed == r.zone then r.virt + "."
    else if HasSuffix(trimmed, "." + r.zone) then TrimSuffix(trimmed, "." + r.zone) + "." + r.virt + "."
    else name
  }

  /** Strictly under: the labels are what comes before the name space. */
  predicate Labels(r: Route, name: string, labels: string) {
    Normal(name) == labels + "." + r.virt
  }

  lemma RewriteLabels(r: Route, name: string, labels: string)
    requires Labels(r, name, labels)
    ensures Rewrite(r, name) == if r.Bare() then labels + "." else labels + "." + r.zone + "."
  {
    assert labels + "." + r.virt == labels + ("." + r.virt);
    SuffixOfConcat(labels, "." + r.virt);
  }

  lemma NormalOfDotted(s: string)
    requires IsLower(s)
    ensures Normal(s + ".") == s
  {
    LowerConcat(s, ".");
    LowerIdempotent(s);
    SuffixOfConcat(s, ".");
  }

  lemma LabelsAreLower(r: Route, name: string, labels: string)
    requires Labels(r, name, labels)
    ensures IsLower(labels)
  {
    NormalLower(name);
    forall i | 0 <= i < |labels|
      ensures LowerChar(labels[i]) == labels[i]
    {
      assert Normal(name)[i] == labels[i];
    }
  }

  /** An upstream name under the real zone keeps its labels. */
  lemma RestoreUpstream(r: Route, labels: string)
    requires !r.Bare() && IsLower(r.zone) && IsLower(labels)
    ensures Restore(r, labels + "." + r.zone + ".") == labels + "." + r.virt + "."
  {
    var up := labels + "." + r.zone;
    NormalOfDotted(up);
    assert up == labels + ("." + r.zone);
    SuffixOfConcat(labels, "." + r.zone);
  }

  /** With a real suffix, the answer comes back as the question, lower-cased with one dot. */
  lemma RestoreUndoesRewrite(r: Route, name: string, labels: string)
    requires Labels(r, name, labels) && !r.Bare() && IsLower(r.zone)
    ensures Restore(r, Rewrite(r, name)) == Normal(name) + "."
  {
    RewriteLabels(r, name, labels);
    LabelsAreLower(r, name, labels);
    RestoreUpstream(r, labels);
    assert labels + "." + r.virt + "." == Normal(name) + ".";
  }

  /** With no suffix, exactly the questions with a single label come back. */
  lemma BareRestoresOneLabel(r: Route, name: string, labels: string)
    requires Labels(r, name, labels) && r.Bare()
    ensures Restore(r, Rewrite(r, name)) == Normal(name) + "." <==> OneLabel(labels)
  {
    RewriteLabels(r, name, labels);
    LabelsAreLower(r, name, labels);
    NormalOfDotted(labels);
    if OneLabel(labels) {
      assert labels + "." + r.virt + "." == Normal(name) + ".";
    } else {
      assert |Restore(r, labels + ".")| < |Normal(name) + "."|;
    }
  }

  /** A name outside the real zone is returned as it came, letter case and dot included. */
  lemma RestoreLeavesOthers(r: Route, name: string)
    requires if r.Bare() then !OneLabel(Normal(name)) else !Under(Normal(name), r.zone)
    ensures Restore(r, name) == name
  {
  }

  /** The name space itself is asked about as the root. */
  lemma RewriteOfSpace(r: Route, name: string)
    requires Normal(name) == r.virt
    ensures Rewrite(r, name) == "."
  {
  }

  /** The real zone itself comes back as the name space, and a name under it keeps its labels, in any letter case. */
  lemma RestoreOfZone(r: Route, name: string, labels: string)
    requires !r.Bare()
    ensures Normal(name) == r.zone ==> Restore(r, name) == r.virt + "."
    ensures Normal(name) == labels + "." + r.zone && Normal(name) != r.zone ==> Restore(r, name) == labels + "." + r.virt + "."
  {
    assert labels + "." + r.zone == labels + ("." + r.zone);
    SuffixOfConcat(labels, "." + r.zone);
  }

  /** On a network without a suffix a single label comes back under the name space. */
  lemma RestoreOfLabel(r: Route, name: string)
    requires r.zone == "." && Normal(name) != "" && '.' !in Normal(name)
    ensures Restore(r, name) == Normal(name) + "." + r.virt + "."
  {
  }

  // ----- match -----

  /** The longest matching name space so far, the earliest of equals. */
  function Best(routes: seq<Route>, name: string): (b: Option<Route>) {
    if routes == [] then None
    else
      var best, r := Best(routes[..|routes| - 1], name), routes[|routes| - 1];
      if Under(Normal(name), r.virt) && (best.None? || |r.virt| > |best.value.virt|) then Some(r) else best
  }

  method Match(routes: seq<Route>, name: string) returns (best: Option<Route>)
    ensures best == Best(routes, name)
  {
    NormalEitherWay(name);
    var trimmed := Lower(TrimSuffix(name, "."));
    best := None;
    for i := 0 to |routes|
      invariant best == Best(routes[..i], name)
    {
      assert routes[..i + 1][..i] == routes[..i];
      if trimmed == routes[i].virt || HasSuffix(trimmed, "." + routes[i].virt) {
        if best.None? || |routes[i].virt| > |best.value.virt| {
          best := Some(routes[i]);
        }
      }
    }
    assert routes[..|routes|] == routes;
  }

  /** The answer is a matching route and no matching route is longer; none only if none matches. */
  lemma {:induction false} BestIsLongest(routes: seq<Route>, name: string)
    ensures match Best(routes, name)
            case None => forall r :: r in routes ==> !Under(Normal(name), r.virt)
            case Some(b) =>
              && b in routes
              && Under(Normal(name), b.virt)
              && forall r :: r in routes && Under(Normal(name), r.virt) ==> |r.virt| <= |b.virt|
  {
    if routes == [] {
    } else {
      var last := |routes| - 1;
      BestIsLongest(routes[..last], name);
      assert routes == routes[..last] + [routes[last]];
    }
  }

  ghost predicate SpacesDistinct(routes: seq<Route>) {
    forall r, q :: r in routes && q in routes && r.virt == q.virt ==> r == q
  }

  /** Two name spaces of one name and one length are the same name space. */
  lemma SameLengthSameSpace(name: string, a: string, b: string)
    requires Under(name, a) && Under(name, b) && |a| == |b|
    ensures a == b
  {
    assert a == name[|name| - |a|..] by {
      if name != a {
        assert name[|name| - |a|..] == name[|name| - |a| - 1..][1..];
      }
    }
    assert b == name[|name| - |b|..] by {
      if name != b {
        assert name[|name| - |b|..] == name[|name| - |b| - 1..][1..];
      }
    }
  }

  /** With distinct name spaces the answer does not depend on the order of the routes. */
  lemma MatchIgnoresOrder(a: seq<Route>, b: seq<Route>, name: string)
    requires SpacesDistinct(a) && forall r :: r in a <==> r in b
    ensures Best(a, name) == Best(b, name)
  {
    BestIsLongest(a, name);
    BestIsLongest(b, name);
    if Best(a, name).Some? && Best(b, name).Some? {
      SameLengthSameSpace(Normal(name), Best(a, name).value.virt, Best(b, name).value.virt);
    }
  }

  // ----- aliases -----

  datatype Alias = Alias(alias: string, canonical: string)

  function AliasRoute(r: Route, alias: string): Route {
    r.(virt := Normal(alias))
  }

  /** What one alias adds to a table. */
  function AliasStep(routes: seq<Route>, a: Alias): seq<Route> {
    match Best(routes, a.canonical)
    case None => []
    case Some(r) => [AliasRoute(r, a.alias)]
  }

  function WithAliases(routes: seq<Route>, order: seq<Alias>): seq<Route>
    decreases |order|
  {
    if order == [] then routes else WithAliases(routes + AliasStep(routes, order[0]), order[1..])
  }

  function AliasEntries(aliases: map<string, string>): set<Alias> {
    set a | a in aliases :: Alias(a, aliases[a])
  }

  /** The loop over a map: some order of its entries, each entry once. */
  method AddAliases(routes: seq<Route>, aliases: map<string, string>) returns (out: seq<Route>)
    ensures exists order :: multiset(order) == multiset(AliasEntries(aliases)) && out == WithAliases(routes, order)
  {
    out := routes;
    ghost var order: seq<Alias> := [];
    var todo := aliases.Keys;
    WithAliasesNone(routes);
    while todo != {}
      invariant todo <= aliases.Keys
      invariant out == WithAliases(routes, order)
      invariant multiset(order) == multiset(Walked(aliases, todo))
      decreases todo
    {
      var a :| a in todo;
      WithAliasesOneMore(routes, order, Alias(a, aliases[a]));
      out := AddAlias(out, a, aliases[a]);
      order := order + [Alias(a, aliases[a])];
      WalkedOneMore(aliases, todo, a);
      todo := todo - {a};
    }
    assert Walked(aliases, {}) == AliasEntries(aliases);
  }

  method AddAlias(routes: seq<Route>, alias: string, canonical: string) returns (out: seq<Route>)
    ensures out == routes + AliasStep(routes, Alias(alias, canonical))
  {
    var found := Match(routes, canonical);
    if found.None? {
      return routes;
    }
    NormalEitherWay(alias);
    return routes + [found.value.(virt := Lower(TrimSuffix(alias, ".")))];
  }

  /** The entries the walk has already passed. */
  function Walked(aliases: map<string, string>, todo: set<string>): set<Alias> {
    set a | a in aliases && a !in todo :: Alias(a, aliases[a])
  }

  lemma WalkedOneMore(aliases: map<string, string>, todo: set<string>, a: string)
    requires a in todo && todo <= aliases.Keys
    ensures Alias(a, aliases[a]) !in Walked(aliases, todo)
    ensures Walked(aliases, todo - {a}) == Walked(aliases, todo) + {Alias(a, aliases[a])}
  {
  }

  lemma WithAliasesNone(routes: seq<Route>)
    ensures WithAliases(routes, []) == routes
  {
  }

  lemma {:induction false} WithAliasesOneMore(routes: seq<Route>, order: seq<Alias>, a: Alias)
    ensures var table := WithAliases(routes, order);
            WithAliases(routes, order + [a]) == table + AliasStep(table, a)
    decreases |order|
  {
    if order == [] {
      assert order + [a] == [a];
      assert [a][1..] == [];
    } else {
      assert (order + [a])[1..] == order[1..] + [a];
      WithAliasesOneMore(routes + AliasStep(routes, order[0]), order[1..], a);
    }
  }

  /** No alias is, at a label boundary, the end of a name some alias stands for. */
  ghost predicate AliasesApart(order: seq<Alias>) {
    forall i, j :: 0 <= i < |order| && 0 <= j < |order| ==> !Under(Normal(order[i].canonical), Normal(order[j].alias))
  }

  lemma {:induction false} BestIgnores(routes: seq<Route>, extra: seq<Route>, name: string)
    requires forall r :: r in extra ==> !Under(Normal(name), r.virt)
    ensures Best(routes + extra, name) == Best(routes, name)
    decreases |extra|
  {
    if extra == [] {
      assert routes + extra == routes;
    } else {
      var last := |extra| - 1;
      assert (routes + extra)[..|routes + extra| - 1] == routes + extra[..last];
      BestIgnores(routes, extra[..last], name);
    }
  }

  /** What the aliases add when each of them looks at the original table. */
  function AliasRoutes(routes: seq<Route>, order: seq<Alias>): seq<Route> {
    if order == [] then [] else AliasStep(routes, order[0]) + AliasRoutes(routes, order[1..])
  }

  /** None of these routes is in the way of a name some alias stands for. */
  ghost predicate Unseen(extra: seq<Route>, order: seq<Alias>) {
    forall r, i :: r in extra && 0 <= i < |order| ==> !Under(Normal(order[i].canonical), r.virt)
  }

  lemma UnseenStep(routes: seq<Route>, extra: seq<Route>, order: seq<Alias>)
    requires order != [] && AliasesApart(order) && Unseen(extra, order)
    ensures Unseen(extra + AliasStep(routes, order[0]), order[1..]) && AliasesApart(order[1..])
  {
    var step, rest := AliasStep(routes, order[0]), order[1..];
    assert forall i :: 0 <= i < |rest| ==> rest[i] == order[i + 1];
    forall r, i | r in extra + step && 0 <= i < |rest|
      ensures !Under(Normal(rest[i].canonical), r.virt)
    {
      if r !in extra {
        assert r.virt == Normal(order[0].alias);
      }
    }
  }

  lemma StepUnaffected(routes: seq<Route>, extra: seq<Route>, order: seq<Alias>)
    requires order != [] && Unseen(extra, order)
    ensures AliasStep(routes + extra, order[0]) == AliasStep(routes, order[0])
  {
    BestIgnores(routes, extra, order[0].canonical);
  }

  lemma Assoc<T>(a: seq<T>, b: seq<T>, c: seq<T>)
    ensures (a + b) + c == a + (b + c)
  {
  }

  /** Aliases that stand apart do not see one another. */
  lemma {:induction false} AliasesSeeOriginal(routes: seq<Route>, extra: seq<Route>, order: seq<Alias>)
    requires AliasesApart(order) && Unseen(extra, order)
    ensures WithAliases(routes + extra, order) == routes + (extra + AliasRoutes(routes, order))
    decreases |order|
  {
    if order == [] {
      assert extra + [] == extra;
    } else {
      var step, rest := AliasStep(routes, order[0]), order[1..];
      StepUnaffected(routes, extra, order);
      UnseenStep(routes, extra, order);
      AliasesSeeOriginal(routes, extra + step, rest);
      Assoc(routes, extra, step);
      Assoc(extra, step, AliasRoutes(routes, rest));
    }
  }

  /** What the alias map adds, as a multiset: one summand for each alias. */
  function AliasBag(routes: seq<Route>, order: seq<Alias>): multiset<Route> {
    if order == [] then multiset{} else multiset(AliasStep(routes, order[0])) + AliasBag(routes, order[1..])
  }

  lemma {:induction false} AliasBagIsMultiset(routes: seq<Route>, order: seq<Alias>)
    ensures AliasBag(routes, order) == multiset(AliasRoutes(routes, order))
  {
    if order != [] {
      AliasBagIsMultiset(routes, order[1..]);
    }
  }

  function Less(order: seq<Alias>, j: nat): seq<Alias>
    requires j < |order|
  {
    order[..j] + order[j + 1..]
  }

  lemma LessTail(order: seq<Alias>, j: nat)
    requires 0 < j < |order|
    ensures Less(order, j) != [] && Less(order, j)[0] == order[0] && Less(order, j)[1..] == Less(order[1..], j - 1)
  {
    assert order[1..][..j - 1] == order[..j][1..];
  }

  /** Taking one alias out of the walk takes exactly its route out of what is added. */
  lemma {:induction false} AliasBagWithout(routes: seq<Route>, order: seq<Alias>, j: nat)
    requires j < |order|
    ensures AliasBag(routes, order) == multiset(AliasStep(routes, order[j])) + AliasBag(routes, Less(order, j))
  {
    if j == 0 {
      assert Less(order, 0) == order[1..];
    } else {
      AliasBagWithout(routes, order[1..], j - 1);
      LessTail(order, j);
      Swap(multiset(AliasStep(routes, order[0])), multiset(AliasStep(routes, order[j])), AliasBag(routes, Less(order[1..], j - 1)));
    }
  }

  lemma Swap<T>(a: multiset<T>, b: multiset<T>, c: multiset<T>)
    ensures a + (b + c) == b + (a + c)
  {
  }

  lemma RemoveBoth(a: seq<Alias>, b: seq<Alias>, j: nat)
    requires a != [] && j < |b| && b[j] == a[0] && multiset(a) == multiset(b)
    ensures multiset(a[1..]) == multiset(Less(b, j))
  {
    assert a == [a[0]] + a[1..];
    assert b == b[..j] + [b[j]] + b[j + 1..];
    assert multiset(a[1..]) == multiset(a) - multiset{a[0]};
  }

  lemma {:induction false} AliasBagPermute(routes: seq<Route>, a: seq<Alias>, b: seq<Alias>)
    requires multiset(a) == multiset(b)
    ensures AliasBag(routes, a) == AliasBag(routes, b)
    decreases |a|
  {
    assert |a| == |multiset(a)| == |multiset(b)| == |b|;
    if a == [] {
    } else {
      assert a[0] in multiset(b);
      var j :| 0 <= j < |b| && b[j] == a[0];
      RemoveBoth(a, b, j);
      AliasBagPermute(routes, a[1..], Less(b, j));
      AliasBagWithout(routes, b, j);
    }
  }

  lemma ApartPermutes(a: seq<Alias>, b: seq<Alias>)
    requires multiset(a) == multiset(b) && AliasesApart(a)
    ensures AliasesApart(b)
  {
    forall i, j | 0 <= i < |b| && 0 <= j < |b|
      ensures !Under(Normal(b[i].canonical), Normal(b[j].alias))
    {
      assert b[i] in multiset(a) && b[j] in multiset(a);
      var m :| 0 <= m < |a| && a[m] == b[i];
      var n :| 0 <= n < |a| && a[n] == b[j];
    }
  }

  /** Two walks of one alias map build tables with the same routes, each as often. */
  lemma AliasesIgnoreOrder(routes: seq<Route>, a: seq<Alias>, b: seq<Alias>)
    requires AliasesApart(a) && multiset(a) == multiset(b)
    ensures multiset(WithAliases(routes, a)) == multiset(WithAliases(routes, b))
  {
    ApartPermutes(a, b);
    TableIsSum(routes, a);
    TableIsSum(routes, b);
    AliasBagPermute(routes, a, b);
    AliasBagIsMultiset(routes, a);
    AliasBagIsMultiset(routes, b);
  }

  /** Walked first, one alias is in the way of the name the other stands for: it ends it, and is longer than what matched. */
  predicate Hijacks(routes: seq<Route>, first: Alias, second: Alias) {
    var was := Best(routes, second.canonical);
    && Best(routes, first.canonical).Some?
    && Under(Normal(second.canonical), Normal(first.alias))
    && (was.None? || |Normal(first.alias)| > |was.value.virt|)
  }

  /** Both stand for the same network, under whatever name. */
  predicate SameTarget(routes: seq<Route>, a: Alias, b: Alias) {
    var ra, rb := Best(routes, a.canonical), Best(routes, b.canonical);
    ra.Some? && rb.Some? && ra.value.(virt := "") == rb.value.(virt := "")
  }

  lemma BestOneMore(routes: seq<Route>, r: Route, name: string)
    ensures var was := Best(routes, name);
            Best(routes + [r], name)
            == if Under(Normal(name), r.virt) && (was.None? || |r.virt| > |was.value.virt|) then Some(r) else was
  {
    assert (routes + [r])[..|routes|] == routes;
  }

  lemma SecondStep(routes: seq<Route>, first: Alias, second: Alias)
    ensures AliasStep(routes + AliasStep(routes, first), second)
         == if Hijacks(routes, first, second) then [AliasRoute(Best(routes, first.canonical).value, second.alias)]
            else AliasStep(routes, second)
  {
    if Best(routes, first.canonical).Some? {
      BestOneMore(routes, AliasRoute(Best(routes, first.canonical).value, first.alias), second.canonical);
    } else {
      assert routes + [] == routes;
    }
  }

  /** What two aliases add, in the order they are walked. */
  function AddedByTwo(routes: seq<Route>, first: Alias, second: Alias): multiset<Route> {
    multiset(AliasStep(routes, first)) + multiset(AliasStep(routes + AliasStep(routes, first), second))
  }

  lemma WalkTwo(routes: seq<Route>, first: Alias, second: Alias)
    ensures multiset(WithAliases(routes, [first, second])) == multiset(routes) + AddedByTwo(routes, first, second)
  {
    var one := AliasStep(routes, first);
    var two := AliasStep(routes + one, second);
    assert [first, second][1..] == [second] && [second][1..] == [];
    assert WithAliases(routes, [first, second]) == WithAliases(routes + one, [second]) == routes + one + two;
  }

  lemma NothingHijacked(routes: seq<Route>, a: Alias, b: Alias)
    requires !Hijacks(routes, a, b) && !Hijacks(routes, b, a)
    ensures AddedByTwo(routes, a, b) == AddedByTwo(routes, b, a)
  {
    SecondStep(routes, a, b);
    SecondStep(routes, b, a);
  }

  lemma PairsAlike<T>(x: T, y: T, z: T)
    ensures multiset([x]) + multiset([y]) == multiset([z]) + multiset([x]) <==> y == z
  {
    if y != z {
      assert (multiset([x]) + multiset([y]))[y] > (multiset([z]) + multiset([x]))[y];
    }
  }

  lemma CrossedAlike(ra: Route, rb: Route, a: string, b: string)
    ensures multiset([AliasRoute(ra, a)]) + multiset([AliasRoute(ra, b)])
         == multiset([AliasRoute(rb, b)]) + multiset([AliasRoute(rb, a)])
       <==> AliasRoute(ra, a) == AliasRoute(rb, a)
  {
    var x := AliasRoute(ra, a);
    if x != AliasRoute(rb, a) {
      assert x != AliasRoute(rb, b);
      assert x !in multiset([AliasRoute(rb, b)]) + multiset([AliasRoute(rb, a)]);
    }
  }

  lemma SameUnderAnyName(ra: Route, rb: Route, name: string)
    ensures AliasRoute(ra, name) == AliasRoute(rb, name) <==> ra.(virt := "") == rb.(virt := "")
  {
  }

  lemma FirstHijacks(routes: seq<Route>, a: Alias, b: Alias)
    requires Hijacks(routes, a, b)
    ensures AddedByTwo(routes, a, b) == AddedByTwo(routes, b, a) <==> SameTarget(routes, a, b)
  {
    SecondStep(routes, a, b);
    SecondStep(routes, b, a);
    var ra := Best(routes, a.canonical).value;
    match Best(routes, b.canonical) {
      case None =>
        assert |AddedByTwo(routes, a, b)| == 2 && |AddedByTwo(routes, b, a)| == 1;
      case Some(rb) =>
        SameUnderAnyName(ra, rb, a.alias);
        SameUnderAnyName(ra, rb, b.alias);
        if Hijacks(routes, b, a) {
          CrossedAlike(ra, rb, a.alias, b.alias);
        } else {
          PairsAlike(AliasRoute(ra, a.alias), AliasRoute(ra, b.alias), AliasRoute(rb, b.alias));
        }
    }
  }

  lemma AddedAlike(routes: seq<Route>, a: Alias, b: Alias)
    ensures AddedByTwo(routes, a, b) == AddedByTwo(routes, b, a)
       <==> (!Hijacks(routes, a, b) && !Hijacks(routes, b, a)) || SameTarget(routes, a, b)
  {
    if Hijacks(routes, a, b) {
      FirstHijacks(routes, a, b);
    } else if Hijacks(routes, b, a) {
      FirstHijacks(routes, b, a);
    } else {
      NothingHijacked(routes, a, b);
    }
  }

  /**
   The order of two aliases matters exactly when one of them is in the way of the
   name the other stands for and they stand for different networks.
   */
  lemma TwoAliasesCommute(routes: seq<Route>, a: Alias, b: Alias)
    ensures multiset(WithAliases(routes, [a, b])) == multiset(WithAliases(routes, [b, a]))
       <==> (!Hijacks(routes, a, b) && !Hijacks(routes, b, a)) || SameTarget(routes, a, b)
  {
    WalkTwo(routes, a, b);
    WalkTwo(routes, b, a);
    AddedAlike(routes, a, b);
    SumsAlike(multiset(routes), AddedByTwo(routes, a, b), AddedByTwo(routes, b, a));
  }

  lemma SumsAlike<T>(base: multiset<T>, a: multiset<T>, b: multiset<T>)
    ensures base + a == base + b <==> a == b
  {
    if base + a == base + b {
      assert a == (base + a) - base == (base + b) - base == b;
    }
  }

  /** A table where it does. */
  lemma AliasOrderCanMatter(r: Route)
    requires r.virt == "db.prod.robinet"
    ensures var one, two := Alias("db", "db.prod.robinet"), Alias("x", "db");
            && |WithAliases([r], [one, two])| == 3
            && |WithAliases([r], [two, one])| == 2
  {
    var one, two := Alias("db", "db.prod.robinet"), Alias("x", "db");
    assert Lower("db.prod.robinet") == "db.prod.robinet" && Lower("db") == "db";
    assert Normal("db.prod.robinet") == "db.prod.robinet" && Normal("db") == "db";
    assert Best([r], "db.prod.robinet") == Some(r);
    assert Best([r], "db") == None;
    var d := AliasRoute(r, "db");
    assert [r, d][..1] == [r];
    assert Best([r, d], "db") == Some(d);
    var x := AliasRoute(d, "x");
    assert [one, two][1..] == [two] && [two, one][1..] == [one] && [two][1..] == [] && [one][1..] == [];
    assert [r] + [d] == [r, d] && [r] + [] == [r];
    assert WithAliases([r], [one, two]) == WithAliases([r, d], [two]) == [r, d] + [x];
    assert WithAliases([r], [two, one]) == WithAliases([r], [one]) == [r] + [d];
  }

  /** The same labels under an alias and under the name space it stands for are one upstream question. */
  lemma AliasAsksTheSame(r: Route, alias: string, question: string, labels: string, canonical: string)
    requires Labels(AliasRoute(r, alias), question, labels) && Labels(r, canonical, labels)
    ensures Rewrite(AliasRoute(r, alias), question) == Rewrite(r, canonical)
  {
    RewriteLabels(AliasRoute(r, alias), question, labels);
    RewriteLabels(r, canonical, labels);
  }

  /** A name no alias ends is answered as if there were no aliases. */
  lemma AliasesLeaveOthers(routes: seq<Route>, order: seq<Alias>, question: string)
    requires AliasesApart(order)
    requires forall i :: 0 <= i < |order| ==> !Under(Normal(question), Normal(order[i].alias))
    ensures Best(WithAliases(routes, order), question) == Best(routes, question)
  {
    TableIsSum(routes, order);
    forall r | r in AliasRoutes(routes, order)
      ensures !Under(Normal(question), r.virt)
    {
      var i := AliasOf(routes, order, r);
    }
    BestIgnores(routes, AliasRoutes(routes, order), question);
  }

  lemma TableIsSum(routes: seq<Route>, order: seq<Alias>)
    requires AliasesApart(order)
    ensures WithAliases(routes, order) == routes + AliasRoutes(routes, order)
  {
    assert routes + [] == routes;
    AliasesSeeOriginal(routes, [], order);
    assert [] + AliasRoutes(routes, order) == AliasRoutes(routes, order);
  }

  lemma {:induction false} AliasOf(routes: seq<Route>, order: seq<Alias>, r: Route) returns (i: nat)
    requires r in AliasRoutes(routes, order)
    ensures i < |order| && Best(routes, order[i].canonical).Some?
    ensures r == AliasRoute(Best(routes, order[i].canonical).value, order[i].alias)
  {
    if r in AliasStep(routes, order[0]) {
      i := 0;
    } else {
      i := AliasOf(routes, order[1..], r);
      i := i + 1;
    }
  }

  lemma FoundAlias(routes: seq<Route>, order: seq<Alias>, question: string, r: Route) returns (i: nat)
    requires AliasesApart(order) && Best(WithAliases(routes, order), question) == Some(r) && r !in routes
    ensures i < |order| && Best(routes, order[i].canonical).Some?
    ensures r == AliasRoute(Best(routes, order[i].canonical).value, order[i].alias)
  {
    TableIsSum(routes, order);
    BestIsLongest(WithAliases(routes, order), question);
    i := AliasOf(routes, order, r);
  }

  lemma SameUpstream(m: Route, alias: string, question: string, labels: string)
    requires IsLower(m.virt) && Labels(AliasRoute(m, alias), question, labels)
    ensures Rewrite(AliasRoute(m, alias), question) == Rewrite(m, labels + "." + m.virt + ".")
  {
    LabelsAreLower(AliasRoute(m, alias), question, labels);
    NormalOfDotted(labels + "." + m.virt);
    AliasAsksTheSame(m, alias, question, labels, labels + "." + m.virt + ".");
  }

  /**
   A question whose longest match is an alias is rewritten to the upstream question
   the same labels would get under the name space the alias stands for.
   */
  lemma AliasStandsForCanonical(routes: seq<Route>, order: seq<Alias>, question: string, r: Route, labels: string)
    returns (a: Alias, m: Route)
    requires AliasesApart(order) && forall q :: q in routes ==> IsLower(q.virt)
    requires Best(WithAliases(routes, order), question) == Some(r) && r !in routes && Labels(r, question, labels)
    ensures a in order && Best(routes, a.canonical) == Some(m) && r == AliasRoute(m, a.alias)
    ensures Rewrite(r, question) == Rewrite(m, labels + "." + m.virt + ".")
  {
    var i := FoundAlias(routes, order, question, r);
    a := order[i];
    m := Best(routes, a.canonical).value;
    BestIsLongest(routes, a.canonical);
    SameUpstream(m, a.alias, question, labels);
  }
}
