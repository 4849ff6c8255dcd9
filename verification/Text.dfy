/** The string operations the program uses, over ASCII. */
module Text {

  function LowerChar(c: char): char {
    if 'A' <= c <= 'Z' then (c as int + 32) as char else c
  }

  function Lower(s: string): (r: string)
    ensures |r| == |s| && forall i :: 0 <= i < |s| ==> r[i] == LowerChar(s[i])
  {
    seq(|s|, i requires 0 <= i < |s| => LowerChar(s[i]))
  }

  predicate IsLower(s: string) {
    forall i :: 0 <= i < |s| ==> LowerChar(s[i]) == s[i]
  }

  lemma LowerIdempotent(s: string)
    ensures IsLower(Lower(s))
    ensures IsLower(s) ==> Lower(s) == s
  {
  }

  lemma LowerConcat(a: string, b: string)
    ensures Lower(a + b) == Lower(a) + Lower(b)
  {
  }

  predicate HasSuffix(s: string, suffix: string) {
    |suffix| <= |s| && s[|s| - |suffix|..] == suffix
  }

  function TrimSuffix(s: string, suffix: string): string {
    if HasSuffix(s, suffix) then s[..|s| - |suffix|] else s
  }

  lemma SuffixOfConcat(a: string, suffix: string)
    ensures HasSuffix(a + suffix, suffix) && TrimSuffix(a + suffix, suffix) == a
  {
    assert (a + suffix)[|a|..] == suffix && (a + suffix)[..|a|] == a;
  }

  /** A suffix of a string is what is left when the rest is taken off the front. */
  lemma SuffixSplits(s: string, suffix: string)
    requires HasSuffix(s, suffix)
    ensures s == TrimSuffix(s, suffix) + suffix
  {
  }

  /** Lower case, and without one trailing dot. */
  function Normal(s: string): string {
    TrimSuffix(Lower(s), ".")
  }

  /** Trimming the dot first is the same. */
  lemma NormalEitherWay(s: string)
    ensures Lower(TrimSuffix(s, ".")) == Normal(s)
  {
    if HasSuffix(s, ".") {
      assert s == s[..|s| - 1] + ".";
      assert Lower(s)[|s| - 1..] == ".";
    } else if s != [] {
      assert s[|s| - 1..] == [s[|s| - 1]];
      assert Lower(s)[|s| - 1..] == [LowerChar(s[|s| - 1])];
    }
  }

  lemma NormalLower(s: string)
    ensures IsLower(Normal(s))
  {
  }

  predicate IsSpace(c: char) {
    c == ' ' || 9 <= c as int <= 13
  }

  /** Blanks, tabs, line feeds, vertical tabs, form feeds and carriage returns. */
  lemma SpacesAre(c: char)
    ensures IsSpace(c) <==> c == ' ' || c == '\t' || c == '\n' || c == 11 as char || c == 12 as char || c == '\r'
  {
  }

  function TrimLeft(s: string): (r: string)
    ensures r == [] || !IsSpace(r[0])
  {
    if s != [] && IsSpace(s[0]) then TrimLeft(s[1..]) else s
  }

  function TrimRight(s: string): (r: string)
    ensures r <= s && (r == [] || !IsSpace(r[|r| - 1]))
  {
    if s != [] && IsSpace(s[|s| - 1]) then TrimRight(s[..|s| - 1]) else s
  }

  function TrimSpace(s: string): string {
    TrimRight(TrimLeft(s))
  }

  // ----- Spellings: letter case and white space around a text, character by character -----

  /** The lower-case character itself, or its capital. */
  predicate CaseOf(c: char, lower: char) {
    c == lower || ('a' <= lower <= 'z' && c as int + 32 == lower as int)
  }

  predicate Blank(s: string, from: nat, to: nat)
    requires to <= |s|
  {
    forall k :: from <= k < to ==> IsSpace(s[k])
  }

  /** White space, the text with some of its letters as capitals, and white space. */
  predicate SpelledAt(ref: string, text: string, i: nat) {
    && i + |text| <= |ref|
    && Blank(ref, 0, i) && Blank(ref, i + |text|, |ref|)
    && forall k :: 0 <= k < |text| ==> CaseOf(ref[i + k], text[k])
  }

  ghost predicate Spells(ref: string, text: string) {
    exists i: nat :: SpelledAt(ref, text, i)
  }

  /** A text in lower case that neither begins nor ends with white space. */
  predicate Tight(text: string) {
    text != "" && IsLower(text) && !IsSpace(text[0]) && !IsSpace(text[|text| - 1])
  }

  lemma {:induction false} TrimLeftDrops(s: string, i: nat)
    requires i < |s| && Blank(s, 0, i) && !IsSpace(s[i])
    ensures TrimLeft(s) == s[i..]
  {
    if i > 0 {
      assert forall k :: 0 <= k < i - 1 ==> s[1..][k] == s[k + 1];
      TrimLeftDrops(s[1..], i - 1);
    }
  }

  lemma {:induction false} TrimRightDrops(s: string, j: nat)
    requires 0 < j <= |s| && Blank(s, j, |s|) && !IsSpace(s[j - 1])
    ensures TrimRight(s) == s[..j]
  {
    if j < |s| {
      TrimRightDrops(s[..|s| - 1], j);
    }
  }

  lemma TrimSpelled(ref: string, text: string, i: nat)
    requires Tight(text) && SpelledAt(ref, text, i)
    ensures TrimSpace(ref) == ref[i..i + |text|]
  {
    var n := |text|;
    assert CaseOf(ref[i + 0], text[0]) && CaseOf(ref[i + (n - 1)], text[n - 1]);
    TrimLeftDrops(ref, i);
    assert forall k :: n <= k < |ref[i..]| ==> ref[i..][k] == ref[i + k];
    TrimRightDrops(ref[i..], n);
    assert ref[i..][..n] == ref[i..i + n];
  }

  lemma CaseFolds(s: string, text: string)
    requires |s| == |text| && IsLower(text) && forall k :: 0 <= k < |text| ==> CaseOf(s[k], text[k])
    ensures Lower(s) == text
  {
  }

  /** Trimming and lower-casing undo a spelling. */
  lemma SpellingFolds(ref: string, text: string)
    requires Tight(text) && Spells(ref, text)
    ensures Lower(TrimSpace(ref)) == text
  {
    var i: nat :| SpelledAt(ref, text, i);
    TrimSpelled(ref, text, i);
    CaseFolds(ref[i..i + |text|], text);
  }

  lemma {:induction false} TrimLeftIsSlice(s: string) returns (i: nat)
    ensures i <= |s| && TrimLeft(s) == s[i..] && Blank(s, 0, i)
  {
    if s != [] && IsSpace(s[0]) {
      i := TrimLeftIsSlice(s[1..]);
      assert forall k :: 0 < k < i + 1 ==> s[k] == s[1..][k - 1];
      i := i + 1;
    } else {
      i := 0;
    }
  }

  lemma {:induction false} TrimRightIsSlice(s: string) returns (j: nat)
    ensures j <= |s| && TrimRight(s) == s[..j] && Blank(s, j, |s|)
  {
    if s != [] && IsSpace(s[|s| - 1]) {
      j := TrimRightIsSlice(s[..|s| - 1]);
    } else {
      j := |s|;
    }
  }

  /** Every text is a spelling of what it folds to. */
  lemma FoldingIsSpelled(ref: string)
    ensures Spells(ref, Lower(TrimSpace(ref)))
  {
    var i := TrimLeftIsSlice(ref);
    var rest := ref[i..];
    var n := TrimRightIsSlice(rest);
    var text := Lower(TrimSpace(ref));
    forall k | i + n <= k < |ref|
      ensures IsSpace(ref[k])
    {
      assert ref[k] == rest[k - i];
    }
    assert SpelledAt(ref, text, i);
  }
}
