/** The one string a connector is configured with: written by the owner's machine, read by the connector. */
module Endpoint {
  import opened Wrappers
  import opened Text

  const PORT := "8443"
  /** The prefix a pin is written with, folded: letter case is ignored when it is recognized. */
  const PIN_PREFIX := "sha256:"
  const MARKER := "/v1/enroll/"

  // ----- Characters and cuts -----

  function FirstOf(s: string, c: char): (i: nat)
    ensures i <= |s| && (i < |s| <==> c in s) && (i < |s| ==> s[i] == c)
  {
    if s == [] || s[0] == c then 0 else 1 + FirstOf(s[1..], c)
  }

  lemma {:induction false} FirstOfConcat(a: string, c: char, b: string)
    requires c !in a
    ensures FirstOf(a + [c] + b, c) == |a|
  {
    if a == [] {
      assert (a + [c] + b)[0] == c;
    } else {
      assert (a + [c] + b)[1..] == a[1..] + [c] + b;
      FirstOfConcat(a[1..], c, b);
    }
  }

  /** The position of the last occurrence, or -1. */
  function LastOf(s: string, c: char): (i: int)
    ensures -1 <= i < |s| && (i >= 0 <==> c in s) && (i >= 0 ==> s[i] == c)
  {
    if s == [] then -1 else if s[|s| - 1] == c then |s| - 1 else LastOf(s[..|s| - 1], c)
  }

  lemma {:induction false} LastOfConcat(a: string, c: char, b: string)
    requires c !in b
    ensures LastOf(a + [c] + b, c) == |a|
  {
    var s := a + [c] + b;
    if b == [] {
      assert s[|s| - 1] == c;
    } else {
      assert s[..|s| - 1] == a + [c] + b[..|b| - 1];
      LastOfConcat(a, c, b[..|b| - 1]);
    }
  }

  function Split(s: string, c: char): (parts: seq<string>)
    ensures parts != []
    decreases |s|
  {
    if c !in s then [s]
    else [s[..FirstOf(s, c)]] + Split(s[FirstOf(s, c) + 1..], c)
  }

  lemma SplitAtFirst(a: string, c: char, b: string)
    requires c !in a
    ensures Split(a + [c] + b, c) == [a] + Split(b, c)
  {
    var s := a + [c] + b;
    FirstOfConcat(a, c, b);
    assert s[|a|] == c;
    assert s[..|a|] == a && s[|a| + 1..] == b;
  }

  /** The parts and the separators between them are the whole string. */
  function Total(parts: seq<string>): nat {
    if parts == [] then 0 else |parts[0]| + 1 + Total(parts[1..])
  }

  lemma {:induction false} SplitTotal(s: string, c: char)
    ensures Total(Split(s, c)) == |s| + 1
    decreases |s|
  {
    if c !in s {
    } else {
      var i := FirstOf(s, c);
      SplitTotal(s[i + 1..], c);
      assert Split(s, c)[1..] == Split(s[i + 1..], c);
    }
  }

  function CutLeft(s: string, cut: set<char>): (r: string)
    ensures |r| <= |s|
  {
    if s != [] && s[0] in cut then CutLeft(s[1..], cut) else s
  }

  function CutRight(s: string, cut: set<char>): (r: string)
    ensures r <= s
  {
    if s != [] && s[|s| - 1] in cut then CutRight(s[..|s| - 1], cut) else s
  }

  function Cut(s: string, cut: set<char>): string {
    CutRight(CutLeft(s, cut), cut)
  }

  // ----- Hosts and ports -----

  function JoinHostPort(host: string, port: string): string {
    if ':' in host then "[" + host + "]:" + port else host + ":" + port
  }

  /** Whether a host carries a port of its own, by the rules of net.SplitHostPort. */
  predicate HasPort(s: string) {
    var i := LastOf(s, ':');
    if i < 0 then false
    else if s[0] == '[' then
      var end := FirstOf(s, ']');
      end < |s| && end + 1 == i && '[' !in s[1..] && ']' !in s[end + 1..]
    else ':' !in s[..i] && '[' !in s && ']' !in s
  }

  function WithPort(host: string): string {
    if HasPort(host) then host else JoinHostPort(Cut(host, {'[', ']'}), PORT)
  }

  // ----- Writing -----

  predicate Digit(c: char) {
    '0' <= c <= '9'
  }

  /** The characters a url may hold in its host as they are: of the visible ones all but #, %, /, ?, @, \, ^, `, {, | and }. */
  predicate HostChar(c: char) {
    || ('!' <= c <= '.' && c != '#' && c != '%')
    || '0' <= c <= '>'
    || 'A' <= c <= '['
    || c == ']'
    || c == '_'
    || 'a' <= c <= 'z'
    || c == '~'
  }

  /** The characters a user's name and password may be written with. */
  predicate UserChar(c: char) {
    (HostChar(c) && c !in {'[', ']', '<', '>', '"'}) || c == '%' || c == '@'
  }

  predicate Control(c: char) {
    c as int < 32 || c as int == 127
  }

  predicate AllHost(s: string) {
    forall i :: 0 <= i < |s| ==> HostChar(s[i])
  }

  predicate AllDigits(s: string) {
    forall i :: 0 <= i < |s| ==> Digit(s[i])
  }

  /** What follows a host: nothing, or a colon and digits. */
  predicate OptionalPort(s: string) {
    s == "" || (s[0] == ':' && AllDigits(s[1..]))
  }

  function Before(s: string, c: char): string {
    s[..FirstOf(s, c)]
  }

  /** A host with or without a port, by the rules of url.Parse; what may stand in brackets is given. */
  function ReadHost(host: string, literal: string -> bool): (r: Option<string>)
    ensures r.Some? ==> r.value == host && AllHost(host)
  {
    if !AllHost(host) then None
    else if '[' in host then
      var end := LastOf(host, ']');
      if LastOf(host, '[') > 0 || end < 1 || !OptionalPort(host[end + 1..]) || !literal(host[1..end]) then None
      else Some(host)
    else if ':' in host && !OptionalPort(host[FirstOf(host, ':')..]) then None
    else Some(host)
  }

  /** What names a user is read and dropped. */
  function ReadAuthority(a: string, literal: string -> bool): (r: Option<string>)
    ensures r.Some? ==> AllHost(r.value)
  {
    var at := LastOf(a, '@');
    if at < 0 then ReadHost(a, literal)
    else if forall i :: 0 <= i < at ==> UserChar(a[i]) then ReadHost(a[at + 1..], literal)
    else None
  }

  /** The authority of an http or https url, cut off at its path, query and fragment. */
  function Authority(body: string): string {
    var rest := if "https://" <= body then body[8..] else if "http://" <= body then body[7..] else "";
    Before(Before(rest, '?'), '/')
  }

  /** The host of a url; a url that cannot be read is used as it is. */
  function UrlHost(url: string, literal: string -> bool): (r: string)
    ensures r == url || AllHost(r)
  {
    var body := Before(url, '#');
    if exists i :: 0 <= i < |body| && Control(body[i]) then url
    else
      match ReadAuthority(Authority(body), literal)
      case None => url
      case Some(h) => if h == "" then url else h
  }

  function Optional(part: string): string {
    if part == "" then "" else "/" + part
  }

  function Shorthand(url: string, literal: string -> bool, id: string, token: string, pin: string): string {
    TrimSuffix(UrlHost(url, literal), ":" + PORT) + "/" + id + Optional(token) + Optional(pin)
  }

  // ----- Reading -----

  datatype Parsed = Parsed(base: string, instance: string, token: string, pin: string)

  datatype ParseError = NoInstance | NotAnEndpoint | TooManyParts | TwoPins | BadPin

  predicate Written(part: string) {
    var v := TrimSpace(part);
    |v| >= |PIN_PREFIX| && Lower(v[..|PIN_PREFIX|]) == PIN_PREFIX
  }

  /** A pin says what it is, and anything else is the token. */
  function Classify(parts: seq<string>, pinOk: string -> bool, token: string, pin: string): Result<(string, string), ParseError> {
    if parts == [] then Ok((token, pin))
    else if Written(parts[0]) then
      if pin != "" then Err(TwoPins)
      else if !pinOk(parts[0]) then Err(BadPin)
      else Classify(parts[1..], pinOk, token, parts[0])
    else if token != "" then Err(TooManyParts)
    else Classify(parts[1..], pinOk, parts[0], pin)
  }

  predicate IsUrl(s: string) {
    "http://" <= s || "https://" <= s
  }

  predicate OccursAt(s: string, sub: string, i: nat) {
    i + |sub| <= |s| && s[i..i + |sub|] == sub
  }

  /** The first position a substring occurs at, from a position on. */
  function IndexFrom(s: string, sub: string, i: nat): (r: Option<nat>)
    ensures r.Some? ==> OccursAt(s, sub, r.value)
    decreases |s| - i
  {
    if i > |s| then None
    else if OccursAt(s, sub, i) then Some(i)
    else if i == |s| then None
    else IndexFrom(s, sub, i + 1)
  }

  function ParseUrl(s: string): Result<Parsed, ParseError> {
    match IndexFrom(s, MARKER, 0)
    case None => Ok(Parsed(CutRight(s, {'/'}), "", "", ""))
    case Some(i) =>
      var instance := Cut(s[i + |MARKER|..], {'/'});
      if instance == "" then Err(NoInstance) else Ok(Parsed(s[..i], instance, "", ""))
  }

  function ParseShort(s: string, pinOk: string -> bool): Result<Parsed, ParseError> {
    var parts := Split(Cut(s, {'/'}), '/');
    if |parts| < 2 then Err(NotAnEndpoint)
    else if |parts| > 4 then Err(TooManyParts)
    else
      match Classify(parts[2..], pinOk, "", "")
      case Err(e) => Err(e)
      case Ok(tp) => Ok(Parsed("https://" + WithPort(parts[0]), parts[1], tp.0, tp.1))
  }

  function Parse(raw: string, pinOk: string -> bool): Result<Parsed, ParseError> {
    var s := TrimSpace(raw);
    if s == "" then Ok(Parsed("", "", "", ""))
    else if IsUrl(s) then ParseUrl(s)
    else ParseShort(s, pinOk)
  }

  method ParseEndpoint(raw: string, pinOk: string -> bool) returns (r: Result<Parsed, ParseError>)
    ensures r == Parse(raw, pinOk)
  {
    var s := TrimSpace(raw);
    if s == "" {
      return Ok(Parsed("", "", "", ""));
    }
    if "http://" <= s || "https://" <= s {
      return ParseUrl(s);
    }
    var parts := Split(Cut(s, {'/'}), '/');
    if |parts| < 2 {
      return Err(NotAnEndpoint);
    }
    if |parts| > 4 {
      return Err(TooManyParts);
    }
    var token, pin := "", "";
    for i := 2 to |parts|
      invariant Classify(parts[i..], pinOk, token, pin) == Classify(parts[2..], pinOk, "", "")
    {
      var part := parts[i];
      assert parts[i..][0] == part && parts[i..][1..] == parts[i + 1..];
      if Written(part) {
        if pin != "" {
          return Err(TwoPins);
        }
        if !pinOk(part) {
          return Err(BadPin);
        }
        pin := part;
      } else if token != "" {
        return Err(TooManyParts);
      } else {
        token := part;
      }
    }
    return Ok(Parsed("https://" + WithPort(parts[0]), parts[1], token, pin));
  }

  // ----- The round trip -----

  predicate Free(s: string, cs: set<char>) {
    forall i :: 0 <= i < |s| ==> s[i] !in cs && !IsSpace(s[i])
  }

  /** A host and a port that come apart again where they were joined. */
  predicate Joinable(host: string, port: string) {
    host != "" && port != "" && Free(host, {'/', '[', ']'}) && Free(port, {'/', '[', ']', ':'})
  }

  function Url(host: string, port: string): string {
    "https://" + JoinHostPort(host, port)
  }

  /** What is left of the authority when the default port is dropped. */
  function Bare(host: string): string {
    if ':' in host then "[" + host + "]" else host
  }

  lemma JoinIsBare(host: string, port: string)
    ensures JoinHostPort(host, port) == Bare(host) + ":" + port
  {
  }

  /** Only the default port is dropped, and all of it. */
  lemma DroppedPort(host: string, port: string)
    requires Joinable(host, port)
    ensures TrimSuffix(JoinHostPort(host, port), ":" + PORT)
         == if port == PORT then Bare(host) else JoinHostPort(host, port)
  {
    JoinIsBare(host, port);
    var hp := JoinHostPort(host, port);
    assert hp == Bare(host) + [':'] + port;
    if port == PORT {
      assert hp == Bare(host) + (":" + PORT);
      SuffixOfConcat(Bare(host), ":" + PORT);
    } else if HasSuffix(hp, ":" + PORT) {
      SuffixSplits(hp, ":" + PORT);
      var front := TrimSuffix(hp, ":" + PORT);
      assert hp == front + [':'] + PORT;
      SameAfterLast(Bare(host), port, front, PORT);
    }
  }

  /** What follows the last colon is determined. */
  lemma SameAfterLast(a: string, b: string, x: string, y: string)
    requires ':' !in b && ':' !in y && a + [':'] + b == x + [':'] + y
    ensures b == y
  {
    LastOfConcat(a, ':', b);
    LastOfConcat(x, ':', y);
    var s := a + [':'] + b;
    assert s[|a| + 1..] == b && s[|x| + 1..] == y;
  }

  predicate Lacks(s: string, cs: set<char>) {
    forall i :: 0 <= i < |s| ==> s[i] !in cs
  }

  lemma BracketedEnds(host: string, port: string)
    requires ']' !in host && ':' !in port
    ensures var hp := "[" + host + "]:" + port; LastOf(hp, ':') == |host| + 2 && FirstOf(hp, ']') == |host| + 1
  {
    var hp := "[" + host + "]:" + port;
    assert hp == ("[" + host + "]") + [':'] + port;
    LastOfConcat("[" + host + "]", ':', port);
    assert hp == ("[" + host) + [']'] + (":" + port);
    FirstOfConcat("[" + host, ']', ":" + port);
  }

  /** A host in brackets, which may have colons, and a port. */
  lemma BracketedHasPort(host: string, port: string)
    requires Lacks(host, {'[', ']'}) && Lacks(port, {':', '[', ']'})
    ensures HasPort("[" + host + "]:" + port)
  {
    var hp := "[" + host + "]:" + port;
    BracketedEnds(host, port);
    assert hp[1..] == host + ("]:" + port);
    assert hp[|host| + 2..] == ":" + port;
  }

  /** A host and a port without brackets: one colon. */
  lemma PlainHasPort(host: string, port: string)
    requires Lacks(host, {':', '[', ']'}) && Lacks(port, {':', '[', ']'})
    ensures HasPort(host + ":" + port)
  {
    var hp := host + ":" + port;
    assert hp == host + [':'] + port;
    LastOfConcat(host, ':', port);
    assert hp[..|host|] == host && hp[0] == if host == "" then ':' else host[0];
  }

  /** A host with a port is recognized as one, brackets included. */
  lemma JoinedHasPort(host: string, port: string)
    requires Joinable(host, port)
    ensures HasPort(JoinHostPort(host, port))
  {
    if ':' in host {
      BracketedHasPort(host, port);
    } else {
      PlainHasPort(host, port);
    }
  }

  lemma CutNothing(s: string, cut: set<char>)
    requires s == [] || (s[0] !in cut && s[|s| - 1] !in cut)
    ensures Cut(s, cut) == s
  {
  }

  /** Without a port the default one is added, and brackets come back where they were. */
  lemma BareGetsPort(host: string)
    requires Joinable(host, PORT)
    ensures WithPort(Bare(host)) == JoinHostPort(host, PORT)
  {
    var b := Bare(host);
    if ':' in host {
      assert b == ("[" + host) + [']'] + "";
      FirstOfConcat("[" + host, ']', "");
      assert !HasPort(b);
      assert b[1..] == host + "]";
      assert CutLeft(b, {'[', ']'}) == CutLeft(host + "]", {'[', ']'}) == host + "]";
      assert (host + "]")[..|host|] == host;
      assert CutRight(host + "]", {'[', ']'}) == CutRight(host, {'[', ']'}) == host;
    } else {
      assert LastOf(b, ':') < 0;
      CutNothing(host, {'[', ']'});
    }
  }

  lemma HostSurvives(host: string, port: string)
    requires Joinable(host, port)
    ensures WithPort(TrimSuffix(JoinHostPort(host, port), ":" + PORT)) == JoinHostPort(host, port)
  {
    DroppedPort(host, port);
    if port == PORT {
      BareGetsPort(host);
    } else {
      JoinedHasPort(host, port);
    }
  }

  predicate Ascii(s: string) {
    forall i :: 0 <= i < |s| ==> s[i] as int < 128
  }

  /** A host and an explicit port, whatever they are made of: no path, no brackets of their own, nothing percent-encoded. */
  predicate Plain(host: string, port: string) {
    && host != "" && Ascii(host) && Lacks(host, {'/', '[', ']', '%'})
    && port != "" && Ascii(port) && Lacks(port, {'/', '[', ']', '%', ':'})
  }

  /** The url parser takes them: host characters, an address where there are colons, a numeric port. */
  predicate Readable(host: string, port: string, literal: string -> bool) {
    AllHost(host) && (':' in host ==> literal(host)) && AllDigits(port)
  }

  lemma ReadableIsJoinable(host: string, port: string, literal: string -> bool)
    requires Plain(host, port) && Readable(host, port, literal)
    ensures Joinable(host, port)
  {
  }

  lemma NothingBefore(s: string, c: char)
    requires c !in s
    ensures Before(s, c) == s
  {
  }

  lemma HostCharsOnly(hp: string)
    requires AllHost(hp)
    ensures '#' !in hp && '?' !in hp && '@' !in hp && '/' !in hp
    ensures forall i :: 0 <= i < |hp| ==> !Control(hp[i])
  {
  }

  lemma WholeBody(hp: string)
    requires AllHost(hp)
    ensures var url := "https://" + hp; Before(url, '#') == url && forall i :: 0 <= i < |url| ==> !Control(url[i])
  {
    HostCharsOnly(hp);
    NothingBefore("https://" + hp, '#');
  }

  lemma WholeAuthority(hp: string)
    requires AllHost(hp)
    ensures Authority("https://" + hp) == hp
  {
    HostCharsOnly(hp);
    assert ("https://" + hp)[8..] == hp;
    NothingBefore(hp, '?');
    NothingBefore(hp, '/');
  }

  /** With host characters only, nothing is cut off. */
  lemma HostCharsStay(hp: string, literal: string -> bool)
    requires AllHost(hp) && hp != ""
    ensures UrlHost("https://" + hp, literal) == if ReadHost(hp, literal).Some? then hp else "https://" + hp
  {
    WholeBody(hp);
    WholeAuthority(hp);
    HostCharsOnly(hp);
  }

  lemma OpeningBracket(host: string, port: string)
    requires Plain(host, port)
    ensures LastOf("[" + host + "]:" + port, '[') == 0
  {
    assert "[" + host + "]:" + port == "" + ['['] + (host + "]:" + port);
    LastOfConcat("", '[', host + "]:" + port);
  }

  lemma ClosingBracket(host: string, port: string)
    requires Plain(host, port)
    ensures LastOf("[" + host + "]:" + port, ']') == |host| + 1
  {
    assert "[" + host + "]:" + port == ("[" + host) + [']'] + (":" + port);
    LastOfConcat("[" + host, ']', ":" + port);
  }

  lemma Brackets(host: string, port: string)
    requires Plain(host, port)
    ensures var hp := "[" + host + "]:" + port;
            && LastOf(hp, '[') == 0 && LastOf(hp, ']') == |host| + 1
            && hp[|host| + 2..] == ":" + port && hp[1..|host| + 1] == host
  {
    OpeningBracket(host, port);
    ClosingBracket(host, port);
  }

  lemma ReadBracketed(host: string, port: string, literal: string -> bool)
    requires Plain(host, port) && ':' in host && AllHost("[" + host + "]:" + port)
    ensures ReadHost("[" + host + "]:" + port, literal).Some? <==> literal(host) && AllDigits(port)
  {
    Brackets(host, port);
    assert (":" + port)[1..] == port;
  }

  lemma ColonBetween(host: string, port: string)
    requires ':' !in host
    ensures var hp := host + ":" + port; ':' in hp && FirstOf(hp, ':') == |host| && hp[|host|..] == ":" + port
  {
    var hp := host + ":" + port;
    assert hp == host + [':'] + port;
    FirstOfConcat(host, ':', port);
    assert hp[|host|] == ':';
  }

  lemma NumericPort(port: string)
    ensures OptionalPort(":" + port) <==> AllDigits(port)
  {
    assert (":" + port)[1..] == port;
  }

  lemma ReadUnbracketed(host: string, port: string, literal: string -> bool)
    requires Plain(host, port) && ':' !in host && AllHost(host + ":" + port)
    ensures ReadHost(host + ":" + port, literal).Some? <==> AllDigits(port)
  {
    ColonBetween(host, port);
    NumericPort(port);
    assert '[' !in host + ":" + port;
  }

  lemma JoinedChars(host: string, port: string)
    ensures AllHost(JoinHostPort(host, port)) <==> AllHost(host) && AllHost(port)
  {
    var hp, n := JoinHostPort(host, port), if ':' in host then 1 else 0;
    if AllHost(hp) {
      assert forall i :: 0 <= i < |host| ==> host[i] == hp[n + i];
      assert forall i :: 0 <= i < |port| ==> port[i] == hp[|hp| - |port| + i];
    }
  }

  /** The url's host is the whole of what was joined, exactly when the parser takes it. */
  lemma UrlHostIs(host: string, port: string, literal: string -> bool)
    requires Plain(host, port) && AllHost(JoinHostPort(host, port))
    ensures UrlHost(Url(host, port), literal)
         == if Readable(host, port, literal) then JoinHostPort(host, port) else Url(host, port)
  {
    JoinedChars(host, port);
    HostCharsStay(JoinHostPort(host, port), literal);
    if ':' in host {
      ReadBracketed(host, port, literal);
    } else {
      ReadUnbracketed(host, port, literal);
    }
  }

  /** What can be written into an endpoint: nothing with a slash, a token that is no pin, a pin that is one. */
  predicate Writable(id: string, token: string, pin: string, pinOk: string -> bool) {
    && id != "" && '/' !in id && '/' !in token && '/' !in pin
    && (token != "" ==> !Written(token))
    && (pin != "" ==> Written(pin) && pinOk(pin))
  }

  function Opt(part: string): seq<string> {
    if part == "" then [] else [part]
  }

  /** Each part with a slash in front of it. */
  function Slashed(parts: seq<string>): string {
    if parts == [] then "" else "/" + parts[0] + Slashed(parts[1..])
  }

  lemma SlashedOpt(token: string, pin: string)
    ensures Slashed(Opt(token) + Opt(pin)) == Optional(token) + Optional(pin)
  {
    assert Slashed(Opt(pin)) == Optional(pin) by {
      assert Opt(pin) != [] ==> Opt(pin)[1..] == [];
    }
    if token == "" {
      assert Opt(token) + Opt(pin) == Opt(pin);
      assert Optional(token) + Optional(pin) == Optional(pin);
    } else {
      assert (Opt(token) + Opt(pin))[1..] == Opt(pin);
    }
  }

  ghost predicate SlashFree(parts: seq<string>) {
    forall i :: 0 <= i < |parts| ==> '/' !in parts[i]
  }

  /** Splitting undoes slashing. */
  lemma {:induction false} SplitSlashed(first: string, rest: seq<string>)
    requires '/' !in first && SlashFree(rest)
    ensures Split(first + Slashed(rest), '/') == [first] + rest
    decreases |rest|
  {
    if rest == [] {
      assert first + "" == first;
    } else {
      assert first + Slashed(rest) == first + ['/'] + (rest[0] + Slashed(rest[1..]));
      SplitAtFirst(first, '/', rest[0] + Slashed(rest[1..]));
      SplitSlashed(rest[0], rest[1..]);
      assert [rest[0]] + rest[1..] == rest;
    }
  }

  lemma ClassifyOpt(token: string, pin: string, pinOk: string -> bool)
    requires token != "" ==> !Written(token)
    requires pin != "" ==> Written(pin) && pinOk(pin)
    ensures Classify(Opt(token) + Opt(pin), pinOk, "", "") == Ok((token, pin))
  {
    var rest := Opt(token) + Opt(pin);
    if token == "" {
      assert rest == Opt(pin);
      ClassifyPin(pin, pinOk, "");
    } else {
      assert rest[0] == token && rest[1..] == Opt(pin);
      ClassifyPin(pin, pinOk, token);
    }
  }

  lemma ClassifyPin(pin: string, pinOk: string -> bool, token: string)
    requires pin != "" ==> Written(pin) && pinOk(pin)
    ensures Classify(Opt(pin), pinOk, token, "") == Ok((token, pin))
  {
    if pin != "" {
      assert Opt(pin)[1..] == [];
    }
  }

  lemma NoScheme(scheme: string, short: string, rest: string)
    requires '/' !in scheme && '/' !in short && rest != "" && rest[0] != '/'
    ensures !(scheme + "//" <= short + ['/'] + rest)
  {
    var s := short + ['/'] + rest;
    FirstOfConcat(short, '/', rest);
    assert s[|short| + 1] == rest[0];
    if scheme + "//" <= s {
      SchemeSlashes(scheme, s);
    }
  }

  lemma SchemeSlashes(scheme: string, s: string)
    requires '/' !in scheme && scheme + "//" <= s
    ensures FirstOf(s, '/') == |scheme| && s[|scheme| + 1] == '/'
  {
    assert s[|scheme|] == '/' && s[|scheme| + 1] == '/';
    assert s == scheme + ['/'] + s[|scheme| + 1..];
    FirstOfConcat(scheme, '/', s[|scheme| + 1..]);
  }

  // ----- Both directions -----

  function Composed(short: string, id: string, token: string, pin: string): string {
    short + Slashed([id] + (Opt(token) + Opt(pin)))
  }

  /** What follows the host and its slash. */
  function AfterHost(id: string, token: string, pin: string): string {
    id + (Optional(token) + Optional(pin))
  }

  lemma ComposedIs(short: string, id: string, token: string, pin: string)
    ensures Composed(short, id, token, pin) == short + ['/'] + AfterHost(id, token, pin)
  {
    SlashedOpt(token, pin);
    SlashedCons(id, Opt(token) + Opt(pin));
    Regroup3(short, id, Optional(token) + Optional(pin));
  }

  lemma SlashedCons(part: string, rest: seq<string>)
    ensures Slashed([part] + rest) == "/" + part + Slashed(rest)
  {
    assert ([part] + rest)[1..] == rest;
  }

  lemma Regroup3(a: string, b: string, c: string)
    ensures a + ("/" + b + c) == a + ['/'] + (b + c)
  {
  }

  predicate ShortHost(short: string) {
    short != "" && Free(short, {'/'})
  }

  /** A slash-free host followed by a slash and an instance is no url, and ends at its first slash. */
  lemma ComposedShape(short: string, id: string, token: string, pin: string)
    requires ShortHost(short) && id != "" && '/' !in id
    ensures var out := Composed(short, id, token, pin);
            && !IsUrl(out)
            && FirstOf(out, '/') == |short|
            && |out| == |short| + 1 + |id| + |Optional(token)| + |Optional(pin)|
            && out[0] == short[0]
  {
    var rest := AfterHost(id, token, pin);
    ComposedIs(short, id, token, pin);
    assert rest[0] == id[0];
    NoUrl(short, rest);
    FirstOfConcat(short, '/', rest);
  }

  lemma NoUrl(short: string, rest: string)
    requires '/' !in short && rest != "" && rest[0] != '/'
    ensures !IsUrl(short + ['/'] + rest)
  {
    NoScheme("http:", short, rest);
    NoScheme("https:", short, rest);
    assert "http:" + "//" == "http://" && "https:" + "//" == "https://";
  }

  lemma Regroup(a: string, b: string, c: string, d: string)
    ensures a + "/" + b + c + d == a + ['/'] + (b + (c + d))
  {
  }

  lemma ShorthandIsComposed(url: string, literal: string -> bool, id: string, token: string, pin: string)
    ensures var short := TrimSuffix(UrlHost(url, literal), ":" + PORT);
            Shorthand(url, literal, id, token, pin) == Composed(short, id, token, pin)
  {
    var short := TrimSuffix(UrlHost(url, literal), ":" + PORT);
    Regroup(short, id, Optional(token), Optional(pin));
    ComposedIs(short, id, token, pin);
  }

  lemma ShortIsHost(host: string, port: string)
    requires Joinable(host, port)
    ensures ShortHost(TrimSuffix(JoinHostPort(host, port), ":" + PORT))
  {
    DroppedPort(host, port);
  }

  lemma TrimKeepsFront(s: string)
    requires s != "" && !IsSpace(s[0])
    ensures TrimSpace(s) == TrimRight(s) && TrimSpace(s) != ""
    ensures !IsSpace(s[|s| - 1]) ==> TrimSpace(s) == s
    ensures IsSpace(s[|s| - 1]) ==> |TrimSpace(s)| < |s|
  {
    TrimRightStops(s);
  }

  lemma {:induction false} TrimRightStops(s: string)
    requires s != "" && !IsSpace(s[0])
    ensures TrimRight(s) != ""
    ensures IsSpace(s[|s| - 1]) ==> |TrimRight(s)| < |s|
  {
    if IsSpace(s[|s| - 1]) {
      TrimRightStops(s[..|s| - 1]);
    }
  }

  lemma {:induction false} SlashedEnd(parts: seq<string>)
    requires parts != [] && SlashFree(parts) && forall i :: 0 <= i < |parts| ==> parts[i] != ""
    ensures Slashed(parts) != "" && Slashed(parts)[|Slashed(parts)| - 1] != '/'
  {
    if |parts| == 1 {
      assert Slashed(parts[1..]) == "";
      assert Slashed(parts) == "/" + parts[0];
    } else {
      SlashedEnd(parts[1..]);
    }
  }

  lemma ComposedEnd(short: string, id: string, token: string, pin: string)
    requires id != "" && '/' !in id && '/' !in token && '/' !in pin
    ensures var out := Composed(short, id, token, pin); out != "" && out[|out| - 1] != '/'
  {
    var parts := [id] + (Opt(token) + Opt(pin));
    SlashedEnd(parts);
  }

  lemma FromParts(s: string, parts: seq<string>, pinOk: string -> bool, token: string, pin: string)
    requires Cut(s, {'/'}) == s && Split(s, '/') == parts && 2 <= |parts| <= 4
    requires Classify(parts[2..], pinOk, "", "") == Ok((token, pin))
    ensures ParseShort(s, pinOk) == Ok(Parsed("https://" + WithPort(parts[0]), parts[1], token, pin))
  {
  }

  lemma ComposedUncut(short: string, id: string, token: string, pin: string)
    requires ShortHost(short) && id != "" && '/' !in id && '/' !in token && '/' !in pin
    ensures Cut(Composed(short, id, token, pin), {'/'}) == Composed(short, id, token, pin)
  {
    ComposedEnd(short, id, token, pin);
    assert Composed(short, id, token, pin)[0] == short[0];
    CutNothing(Composed(short, id, token, pin), {'/'});
  }

  lemma ThirdOn(first: string, second: string, rest: seq<string>)
    ensures var parts := [first] + ([second] + rest); parts[0] == first && parts[1] == second && parts[2..] == rest
  {
  }

  lemma ComposedSplits(short: string, id: string, token: string, pin: string)
    requires '/' !in short && '/' !in id && '/' !in token && '/' !in pin
    ensures var parts := Split(Composed(short, id, token, pin), '/');
            2 <= |parts| <= 4 && parts[0] == short && parts[1] == id && parts[2..] == Opt(token) + Opt(pin)
  {
    var tail := Opt(token) + Opt(pin);
    assert |tail| <= 2 && SlashFree([id] + tail);
    SplitSlashed(short, [id] + tail);
    ThirdOn(short, id, tail);
  }

  lemma ShortReadsBack(short: string, id: string, token: string, pin: string, pinOk: string -> bool)
    requires ShortHost(short) && id != "" && '/' !in id && '/' !in token && '/' !in pin
    requires Classify(Opt(token) + Opt(pin), pinOk, "", "") == Ok((token, pin))
    ensures ParseShort(Composed(short, id, token, pin), pinOk) == Ok(Parsed("https://" + WithPort(short), id, token, pin))
  {
    ComposedUncut(short, id, token, pin);
    ComposedSplits(short, id, token, pin);
    FromParts(Composed(short, id, token, pin), Split(Composed(short, id, token, pin), '/'), pinOk, token, pin);
  }

  lemma ParseIsShort(out: string, pinOk: string -> bool)
    requires out != "" && !IsSpace(out[0]) && !IsUrl(out)
    ensures Parse(out, pinOk) == ParseShort(TrimSpace(out), pinOk)
  {
    TrimKeepsFront(out);
    var s := TrimSpace(out);
    assert s <= out;
    assert IsUrl(s) ==> IsUrl(out);
  }

  /** Written without whitespace at its end, an endpoint is read back as it was written. */
  lemma ReadsBack(short: string, id: string, token: string, pin: string, pinOk: string -> bool)
    requires ShortHost(short) && Writable(id, token, pin, pinOk)
    requires var out := Composed(short, id, token, pin); out != "" && !IsSpace(out[|out| - 1])
    ensures Parse(Composed(short, id, token, pin), pinOk) == Ok(Parsed("https://" + WithPort(short), id, token, pin))
  {
    var out := Composed(short, id, token, pin);
    ComposedShape(short, id, token, pin);
    ParseIsShort(out, pinOk);
    TrimKeepsFront(out);
    ClassifyOpt(token, pin, pinOk);
    ShortReadsBack(short, id, token, pin, pinOk);
  }

  lemma {:induction false} ClassifyTotal(parts: seq<string>, pinOk: string -> bool, token: string, pin: string)
    ensures var r := Classify(parts, pinOk, token, pin);
            r.Ok? ==> |Optional(r.value.0)| + |Optional(r.value.1)| <= Total(parts) + |Optional(token)| + |Optional(pin)|
    decreases |parts|
  {
    if parts == [] {
    } else if Written(parts[0]) {
      ClassifyTotal(parts[1..], pinOk, token, parts[0]);
    } else {
      ClassifyTotal(parts[1..], pinOk, parts[0], pin);
    }
  }

  /** The parts of a text, read as an endpoint, are no shorter than what is read. */
  lemma PartsBound(parts: seq<string>, pinOk: string -> bool)
    requires |parts| >= 2
    ensures var r := Classify(parts[2..], pinOk, "", "");
            r.Ok? ==> |parts[0]| + 1 + |parts[1]| + |Optional(r.value.0)| + |Optional(r.value.1)| + 1 <= Total(parts)
  {
    ClassifyTotal(parts[2..], pinOk, "", "");
    assert parts[1..][1..] == parts[2..];
  }

  lemma FirstPart(c: string)
    requires '/' in c
    ensures Split(c, '/')[0] == c[..FirstOf(c, '/')]
  {
  }

  /** What is read from a text is no longer than the text. */
  lemma ReadIsNoLonger(short: string, s: string, pinOk: string -> bool)
    requires s != "" && s[0] != '/' && ('/' in s ==> FirstOf(s, '/') == |short|)
    ensures var r := ParseShort(s, pinOk);
            r.Ok? ==> |short| + 1 + |r.value.instance| + |Optional(r.value.token)| + |Optional(r.value.pin)| <= |s|
  {
    var c := Cut(s, {'/'});
    assert c == CutRight(s, {'/'}) && c <= s;
    var parts := Split(c, '/');
    if |parts| >= 2 {
      assert '/' in c;
      FirstOfPrefix(c, s);
      FirstPart(c);
      SplitTotal(c, '/');
      PartsBound(parts, pinOk);
    }
  }

  lemma {:induction false} NotBefore(s: string, c: char)
    ensures c !in s[..FirstOf(s, c)]
  {
    if s != "" && s[0] != c {
      NotBefore(s[1..], c);
      assert s[..FirstOf(s, c)] == [s[0]] + s[1..][..FirstOf(s[1..], c)];
    }
  }

  lemma TrimmedIsNoLonger(short: string, out: string, s: string, pinOk: string -> bool)
    requires s <= out && s != "" && s[0] != '/' && FirstOf(out, '/') == |short|
    ensures var r := ParseShort(s, pinOk);
            r.Ok? ==> |short| + 1 + |r.value.instance| + |Optional(r.value.token)| + |Optional(r.value.pin)| <= |s|
  {
    if '/' in s {
      FirstOfPrefix(s, out);
    }
    ReadIsNoLonger(short, s, pinOk);
  }

  /** Whitespace at the end is trimmed away, and something of what was written is lost. */
  lemma TrailingSpaceIsLost(short: string, id: string, token: string, pin: string, pinOk: string -> bool, base: string)
    requires ShortHost(short) && Writable(id, token, pin, pinOk)
    requires var out := Composed(short, id, token, pin); out != "" && IsSpace(out[|out| - 1])
    ensures Parse(Composed(short, id, token, pin), pinOk) != Ok(Parsed(base, id, token, pin))
  {
    var out := Composed(short, id, token, pin);
    ComposedShape(short, id, token, pin);
    ParseIsShort(out, pinOk);
    TrimKeepsFront(out);
    TrimmedIsNoLonger(short, out, TrimSpace(out), pinOk);
  }

  lemma FirstOfPrefix(s: string, t: string)
    requires s <= t && '/' in s
    ensures FirstOf(s, '/') == FirstOf(t, '/')
  {
    var i := FirstOf(s, '/');
    NotBefore(s, '/');
    assert t == s[..i] + ['/'] + t[i + 1..];
    FirstOfConcat(s[..i], '/', t[i + 1..]);
  }

  /** What a readable url is written as is read back, exactly unless it ends in whitespace. */
  lemma ReadableRoundTrip(host: string, port: string, literal: string -> bool, id: string, token: string, pin: string, pinOk: string -> bool)
    requires Plain(host, port) && Readable(host, port, literal) && Writable(id, token, pin, pinOk)
    ensures var out := Shorthand(Url(host, port), literal, id, token, pin);
            && out != ""
            && (Parse(out, pinOk) == Ok(Parsed(Url(host, port), id, token, pin)) <==> !IsSpace(out[|out| - 1]))
  {
    ReadableIsJoinable(host, port, literal);
    DigitsAreHost(port);
    JoinedChars(host, port);
    UrlHostIs(host, port, literal);
    var short := TrimSuffix(JoinHostPort(host, port), ":" + PORT);
    ShorthandIsComposed(Url(host, port), literal, id, token, pin);
    ShortIsHost(host, port);
    HostSurvives(host, port);
    ComposedEnd(short, id, token, pin);
    var out := Composed(short, id, token, pin);
    if IsSpace(out[|out| - 1]) {
      TrailingSpaceIsLost(short, id, token, pin, pinOk, Url(host, port));
    } else {
      ReadsBack(short, id, token, pin, pinOk);
    }
  }

  lemma DigitsAreHost(s: string)
    requires AllDigits(s)
    ensures AllHost(s)
  {
  }

  // ----- Urls the parser does not take whole -----

  lemma TrimmedHost(h: string)
    requires AllHost(h)
    ensures AllHost(TrimSuffix(h, ":" + PORT))
  {
  }

  lemma {:induction false} CutHost(h: string, cut: set<char>)
    requires AllHost(h)
    ensures AllHost(CutRight(h, cut)) && AllHost(CutLeft(h, cut))
  {
    if h != [] && h[0] in cut {
      CutHost(h[1..], cut);
    }
  }

  /** Adding the default port and brackets brings no other characters. */
  lemma PortedHost(h: string)
    requires AllHost(h)
    ensures AllHost(WithPort(h))
  {
    CutHost(h, {'[', ']'});
    CutHost(CutLeft(h, {'[', ']'}), {'[', ']'});
    DigitsAreHost(PORT);
    JoinedChars(Cut(h, {'[', ']'}), PORT);
  }

  /** Something the parser drops is not there when the endpoint is read. */
  lemma DroppedIsLost(h: string, hp: string, id: string, token: string, pin: string, pinOk: string -> bool)
    requires AllHost(h) && h != "" && '/' !in h && !AllHost(hp) && Writable(id, token, pin, pinOk)
    ensures Parse(Composed(TrimSuffix(h, ":" + PORT), id, token, pin), pinOk) != Ok(Parsed("https://" + hp, id, token, pin))
  {
    var short := TrimSuffix(h, ":" + PORT);
    TrimmedHost(h);
    if short == "" {
      NoHostIsLost(id, token, pin, pinOk, "https://" + hp);
    } else {
      OtherBase(short, hp, id, token, pin, pinOk);
    }
  }

  /** The first part of what is read, with or without whitespace at the end. */
  lemma FirstPartIs(short: string, out: string, s: string)
    requires short != "" && short[0] != '/' && s <= out && s != "" && FirstOf(out, '/') == |short| && short <= out
    ensures Split(Cut(s, {'/'}), '/')[0] == short || |Split(Cut(s, {'/'}), '/')| == 1
  {
    var c := CutRight(s, {'/'});
    assert s[0] == out[0] == short[0];
    assert Cut(s, {'/'}) == c && c <= s;
    if '/' in c {
      assert c <= out;
      FirstOfPrefix(c, out);
      FirstPart(c);
      assert c[..|short|] == out[..|short|] == short;
    }
  }

  /** What is read as the base is made of host characters. */
  lemma BaseIsPorted(short: string, id: string, token: string, pin: string, pinOk: string -> bool)
    requires ShortHost(short) && id != "" && '/' !in id
    ensures var r := Parse(Composed(short, id, token, pin), pinOk); r.Ok? ==> r.value.base == "https://" + WithPort(short)
  {
    var out := Composed(short, id, token, pin);
    ComposedShape(short, id, token, pin);
    ComposedIs(short, id, token, pin);
    ParseIsShort(out, pinOk);
    TrimKeepsFront(out);
    FirstPartIs(short, out, TrimSpace(out));
  }

  lemma OtherBase(short: string, hp: string, id: string, token: string, pin: string, pinOk: string -> bool)
    requires AllHost(short) && short != "" && !AllHost(hp) && id != "" && '/' !in id
    ensures Parse(Composed(short, id, token, pin), pinOk) != Ok(Parsed("https://" + hp, id, token, pin))
  {
    BaseIsPorted(short, id, token, pin, pinOk);
    PortedHost(short);
    assert ("https://" + WithPort(short))[8..] == WithPort(short) && ("https://" + hp)[8..] == hp;
  }

  lemma TooShort(c: string, pinOk: string -> bool, id: string, token: string, pin: string)
    requires |c| <= |AfterHost(id, token, pin)| && id != ""
    ensures var parts := Split(c, '/');
            |parts| >= 2 ==> parts[1] != id || Classify(parts[2..], pinOk, "", "") != Ok((token, pin))
  {
    SplitTotal(c, '/');
    if |Split(c, '/')| >= 2 {
      PartsBound(Split(c, '/'), pinOk);
    }
  }

  lemma ShortIsLost(s: string, id: string, token: string, pin: string, pinOk: string -> bool, base: string)
    requires s != "" && s[0] == '/' && |s| <= 1 + |AfterHost(id, token, pin)| && id != ""
    ensures ParseShort(s, pinOk) != Ok(Parsed(base, id, token, pin))
  {
    CutLeftShrinks(s);
    TooShort(Cut(s, {'/'}), pinOk, id, token, pin);
  }

  lemma NotAUrl(rest: string)
    ensures !IsUrl("/" + rest)
  {
    assert ("/" + rest)[0] == '/';
  }

  /** Without a host the instance is read in its place. */
  lemma NoHostIsLost(id: string, token: string, pin: string, pinOk: string -> bool, base: string)
    requires id != "" && '/' !in id
    ensures Parse(Composed("", id, token, pin), pinOk) != Ok(Parsed(base, id, token, pin))
  {
    var rest := AfterHost(id, token, pin);
    ComposedIs("", id, token, pin);
    assert Composed("", id, token, pin) == "/" + rest;
    NotAUrl(rest);
    ParseIsShort("/" + rest, pinOk);
    TrimKeepsFront("/" + rest);
    ShortIsLost(TrimSpace("/" + rest), id, token, pin, pinOk, base);
  }

  lemma CutLeftShrinks(s: string)
    requires s != "" && s[0] == '/'
    ensures |Cut(s, {'/'})| < |s|
  {
    assert CutLeft(s, {'/'}) == CutLeft(s[1..], {'/'});
  }

  lemma ReadAsUrl(s: string, url: string, id: string)
    requires id != "" && !OccursAt(s, MARKER, |url|)
    ensures ParseUrl(s) != Ok(Parsed(url, id, "", ""))
  {
  }

  lemma ReadBare(s: string, url: string, id: string, token: string, pin: string)
    requires token != "" || pin != ""
    ensures ParseUrl(s) != Ok(Parsed(url, id, token, pin))
  {
  }

  /** Read as a url, a text with one slash behind the base has no instance there. */
  lemma BehindBase(short: string, id: string, s: string, url: string)
    requires id != "" && '/' !in id && s <= short + ['/'] + id && |short| <= |url|
    ensures ParseUrl(s) != Ok(Parsed(url, id, "", ""))
  {
    MarkerIsElsewhere(short, id, s, |url|);
    ReadAsUrl(s, url, id);
  }

  lemma ParsesAsUrl(out: string, pinOk: string -> bool)
    requires "https://" <= out
    ensures Parse(out, pinOk) == ParseUrl(TrimSpace(out)) && TrimSpace(out) <= out
  {
    UrlStaysUrl(out);
  }

  /** A url written whole is read as a url, and its instance is not the one that was written behind it. */
  lemma WholeUrlIsLost(url: string, id: string, token: string, pin: string, pinOk: string -> bool)
    requires "https://" <= TrimSuffix(url, ":" + PORT) && id != "" && '/' !in id
    ensures Parse(Composed(TrimSuffix(url, ":" + PORT), id, token, pin), pinOk) != Ok(Parsed(url, id, token, pin))
  {
    var short := TrimSuffix(url, ":" + PORT);
    var out := Composed(short, id, token, pin);
    ComposedIs(short, id, token, pin);
    ParsesAsUrl(out, pinOk);
    if token == "" && pin == "" {
      assert AfterHost(id, token, pin) == id;
      BehindBase(short, id, TrimSpace(out), url);
    } else {
      ReadBare(TrimSpace(out), url, id, token, pin);
    }
  }

  lemma UrlStaysUrl(out: string)
    requires "https://" <= out
    ensures TrimSpace(out) != "" && IsUrl(TrimSpace(out)) && TrimSpace(out) <= out
  {
    TrimKeepsFront(out);
    TrimKeepsUnspaced(out, 8);
    assert TrimRight(out)[..8] == out[..8];
  }

  lemma {:induction false} TrimKeepsUnspaced(s: string, n: nat)
    requires 0 < n <= |s| && !IsSpace(s[n - 1])
    ensures |TrimRight(s)| >= n
  {
    if IsSpace(s[|s| - 1]) {
      TrimKeepsUnspaced(s[..|s| - 1], n);
    }
  }

  /** Behind the url there is one slash only. */
  lemma MarkerIsElsewhere(short: string, id: string, s: string, n: nat)
    requires '/' !in id && s <= short + ['/'] + id && |short| <= n
    ensures !OccursAt(s, MARKER, n)
  {
    var out := short + ['/'] + id;
    assert forall k :: 0 <= k < |id| ==> out[|short| + 1 + k] == id[k];
    if OccursAt(s, MARKER, n) {
      MarkerChars(s, n);
    }
  }

  lemma UrlWithoutPort(host: string, port: string)
    requires Plain(host, port)
    ensures "https://" <= TrimSuffix(Url(host, port), ":" + PORT)
  {
    JoinIsBare(host, port);
    var url := Url(host, port);
    assert url == ("https://" + Bare(host)) + [':'] + port;
    if HasSuffix(url, ":" + PORT) {
      SuffixSplits(url, ":" + PORT);
      var front := TrimSuffix(url, ":" + PORT);
      assert url == front + [':'] + PORT;
      SameAfterLast("https://" + Bare(host), port, front, PORT);
      assert |front| == 8 + |Bare(host)|;
    }
  }

  lemma UnreadableIsLost(host: string, port: string, literal: string -> bool, id: string, token: string, pin: string, pinOk: string -> bool)
    requires Plain(host, port) && !Readable(host, port, literal) && Writable(id, token, pin, pinOk)
    ensures var out := Shorthand(Url(host, port), literal, id, token, pin);
            Parse(out, pinOk) != Ok(Parsed(Url(host, port), id, token, pin))
  {
    var url, hp := Url(host, port), JoinHostPort(host, port);
    var h := UrlHost(url, literal);
    ShorthandIsComposed(url, literal, id, token, pin);
    if h == url {
      UrlWithoutPort(host, port);
      WholeUrlIsLost(url, id, token, pin, pinOk);
    } else {
      if AllHost(hp) {
        UrlHostIs(host, port, literal);
      }
      HostHasNoSlash(url, literal);
      DroppedIsLost(h, hp, id, token, pin, pinOk);
    }
  }

  lemma HostHasNoSlash(url: string, literal: string -> bool)
    ensures var h := UrlHost(url, literal); h == url || (h != "" && '/' !in h)
  {
    assert forall s: string :: AllHost(s) ==> '/' !in s;
  }

  /**
   For every host and explicit port a https hub url can be made of, IPv6 addresses
   and the default port included, and every slash-free instance, token and pin: what
   the owner's machine writes is what the connector reads, exactly when the url
   parser takes the host and the port and the text does not end in whitespace.
   */
  lemma EndpointRoundTrip(host: string, port: string, literal: string -> bool, id: string, token: string, pin: string, pinOk: string -> bool)
    requires Plain(host, port) && Writable(id, token, pin, pinOk)
    ensures var out := Shorthand(Url(host, port), literal, id, token, pin);
            && out != ""
            && (Parse(out, pinOk) == Ok(Parsed(Url(host, port), id, token, pin))
                <==> Readable(host, port, literal) && !IsSpace(out[|out| - 1]))
  {
    if Readable(host, port, literal) {
      ReadableRoundTrip(host, port, literal, id, token, pin, pinOk);
    } else {
      UnreadableIsLost(host, port, literal, id, token, pin, pinOk);
      ShorthandIsComposed(Url(host, port), literal, id, token, pin);
      ComposedEnd(TrimSuffix(UrlHost(Url(host, port), literal), ":" + PORT), id, token, pin);
    }
  }

  // ----- The full url -----

  lemma {:induction false} IndexIs(s: string, sub: string, i: nat, n: nat)
    requires i <= n <= |s| && OccursAt(s, sub, n) && forall k: nat :: i <= k < n ==> !OccursAt(s, sub, k)
    ensures IndexFrom(s, sub, i) == Some(n)
    decreases n - i
  {
    if i < n {
      IndexIs(s, sub, i + 1, n);
    }
  }

  predicate IsScheme(scheme: string) {
    scheme == "http://" || scheme == "https://"
  }

  /** The marker does not begin inside the scheme or inside a slash-free authority. */
  lemma NoMarkerBefore(scheme: string, hp: string, rest: string, k: nat)
    requires IsScheme(scheme) && '/' !in hp && |hp| >= 3 && k < |scheme| + |hp|
    ensures !OccursAt(scheme + hp + rest, MARKER, k)
  {
    var s, n := scheme + hp + rest, |scheme|;
    assert s[n - 2] == '/' && s[n - 1] == '/' && s[n + 2] == hp[2];
    assert k < n ==> s[k] == scheme[k];
    assert k >= n ==> s[k] == hp[k - n];
    if OccursAt(s, MARKER, k) {
      MarkerChars(s, k);
    }
  }

  lemma MarkerChars(s: string, k: nat)
    requires OccursAt(s, MARKER, k)
    ensures s[k] == '/' && s[k + 1] == 'v' && s[k + 3] == '/'
  {
    var at := s[k..k + |MARKER|];
    assert at[0] == s[k] && at[1] == s[k + 1] && at[3] == s[k + 3];
  }

  lemma MarkerFollows(front: string, id: string)
    ensures OccursAt(front + (MARKER + id), MARKER, |front|)
  {
    var s, n := front + (MARKER + id), |front|;
    assert s[n..][..|MARKER|] == (MARKER + id)[..|MARKER|] == MARKER;
  }

  lemma FirstMarker(front: string, id: string)
    requires forall k: nat :: k < |front| ==> !OccursAt(front + (MARKER + id), MARKER, k)
    ensures IndexFrom(front + (MARKER + id), MARKER, 0) == Some(|front|)
  {
    MarkerFollows(front, id);
    IndexIs(front + (MARKER + id), MARKER, 0, |front|);
  }

  lemma MarkerIndex(scheme: string, hp: string, id: string)
    requires IsScheme(scheme) && '/' !in hp && |hp| >= 3
    ensures IndexFrom(scheme + hp + (MARKER + id), MARKER, 0) == Some(|scheme + hp|)
  {
    forall k: nat | k < |scheme + hp|
      ensures !OccursAt(scheme + hp + (MARKER + id), MARKER, k)
    {
      NoMarkerBefore(scheme, hp, MARKER + id, k);
    }
    FirstMarker(scheme + hp, id);
  }

  lemma UrlIsIndexed(scheme: string, host: string, port: string, id: string)
    requires IsScheme(scheme) && Joinable(host, port)
    ensures IndexFrom(scheme + JoinHostPort(host, port) + MARKER + id, MARKER, 0) == Some(|scheme + JoinHostPort(host, port)|)
  {
    var hp := JoinHostPort(host, port);
    assert '/' !in hp && |hp| >= 3;
    MarkerIndex(scheme, hp, id);
    assert scheme + hp + MARKER + id == scheme + hp + (MARKER + id);
  }

  lemma IndexedParses(url: string, id: string)
    requires IndexFrom(url + MARKER + id, MARKER, 0) == Some(|url|) && '/' !in id
    ensures ParseUrl(url + MARKER + id) == if id == "" then Err(NoInstance) else Ok(Parsed(url, id, "", ""))
  {
    var s := url + MARKER + id;
    assert s[|url| + |MARKER|..] == id && s[..|url|] == url;
    CutNothing(id, {'/'});
  }

  lemma UrlIsTaken(scheme: string, rest: string)
    requires IsScheme(scheme) && rest != "" && !IsSpace(rest[|rest| - 1])
    ensures TrimSpace(scheme + rest) == scheme + rest && IsUrl(scheme + rest)
  {
    TrimKeepsFront(scheme + rest);
  }

  /**
   The enrollment url the owner's machine prints beside the endpoint is read back too,
   under either scheme; one that names no instance is refused.
   */
  lemma UrlRoundTrip(scheme: string, host: string, port: string, id: string, pinOk: string -> bool)
    requires IsScheme(scheme) && Joinable(host, port) && '/' !in id && (id != "" ==> !IsSpace(id[|id| - 1]))
    ensures var base := scheme + JoinHostPort(host, port);
            Parse(base + "/v1/enroll/" + id, pinOk) == if id == "" then Err(NoInstance) else Ok(Parsed(base, id, "", ""))
  {
    var hp := JoinHostPort(host, port);
    assert scheme + hp + MARKER + id == scheme + (hp + MARKER + id);
    UrlIsTaken(scheme, hp + MARKER + id);
    UrlIsIndexed(scheme, host, port, id);
    IndexedParses(scheme + hp, id);
  }

  lemma {:induction false} NotFoundFrom(s: string, sub: string, i: nat)
    requires forall k: nat :: i <= k ==> !OccursAt(s, sub, k)
    ensures IndexFrom(s, sub, i) == None
    decreases |s| - i
  {
    if i < |s| {
      NotFoundFrom(s, sub, i + 1);
    }
  }

  lemma NoMarkerIn(scheme: string, hp: string, tail: string, k: nat)
    requires IsScheme(scheme) && '/' !in hp && |hp| >= 3 && (tail == "" || tail == "/")
    ensures !OccursAt(scheme + hp + tail, MARKER, k)
  {
    if k < |scheme| + |hp| {
      NoMarkerBefore(scheme, hp, tail, k);
    }
  }

  lemma NoMarkerAtAll(scheme: string, hp: string, tail: string)
    requires IsScheme(scheme) && '/' !in hp && |hp| >= 3 && (tail == "" || tail == "/")
    ensures IndexFrom(scheme + hp + tail, MARKER, 0) == None
  {
    forall k: nat
      ensures !OccursAt(scheme + hp + tail, MARKER, k)
    {
      NoMarkerIn(scheme, hp, tail, k);
    }
    NotFoundFrom(scheme + hp + tail, MARKER, 0);
  }

  lemma LastSlash(base: string, tail: string)
    requires base != "" && base[|base| - 1] != '/' && (tail == "" || tail == "/")
    ensures CutRight(base + tail, {'/'}) == base
  {
    if tail == "/" {
      assert (base + tail)[..|base + tail| - 1] == base;
    } else {
      assert base + tail == base;
    }
  }

  lemma ParsesAlone(s: string, base: string, pinOk: string -> bool)
    requires s != "" && TrimSpace(s) == s && IsUrl(s) && IndexFrom(s, MARKER, 0) == None && CutRight(s, {'/'}) == base
    ensures Parse(s, pinOk) == Ok(Parsed(base, "", "", ""))
  {
  }

  lemma JoinedEnd(host: string, port: string)
    requires Joinable(host, port)
    ensures var hp := JoinHostPort(host, port); |hp| >= 3 && '/' !in hp && !IsSpace(hp[|hp| - 1])
  {
  }

  /** A hub's url alone is its base, without a last slash, and the instance comes from elsewhere. */
  lemma HubUrlAlone(scheme: string, host: string, port: string, tail: string, pinOk: string -> bool)
    requires IsScheme(scheme) && Joinable(host, port) && (tail == "" || tail == "/")
    ensures var base := scheme + JoinHostPort(host, port); Parse(base + tail, pinOk) == Ok(Parsed(base, "", "", ""))
  {
    var hp := JoinHostPort(host, port);
    JoinedEnd(host, port);
    UrlIsTaken(scheme, hp + tail);
    assert scheme + hp + tail == scheme + (hp + tail);
    NoMarkerAtAll(scheme, hp, tail);
    LastSlash(scheme + hp, tail);
    ParsesAlone(scheme + hp + tail, scheme + hp, pinOk);
  }

  // ----- What follows the instance -----

  /** What stands behind the instance is told apart by how it is written, in either order. */
  lemma EitherOrder(token: string, pin: string, pinOk: string -> bool)
    requires token != "" && !Written(token) && pin != "" && Written(pin) && pinOk(pin)
    ensures Classify([pin, token], pinOk, "", "") == Ok((token, pin)) == Classify([token, pin], pinOk, "", "")
  {
    assert [pin, token][1..] == [token] && [token, pin][1..] == [pin];
    ClassifyPin(pin, pinOk, token);
    assert Opt(pin) == [pin] && [token][1..] == [];
    assert Classify([token], pinOk, "", pin) == Classify([], pinOk, token, pin);
  }

  /** Two pins, two tokens, or a pin that is none, are each refused for what they are. */
  lemma TwoOfAKind(x: string, y: string, pinOk: string -> bool)
    ensures Written(x) && pinOk(x) && x != "" && Written(y) ==> Classify([x, y], pinOk, "", "") == Err(TwoPins)
    ensures !Written(x) && x != "" && !Written(y) ==> Classify([x, y], pinOk, "", "") == Err(TooManyParts)
    ensures Written(x) && !pinOk(x) ==> Classify([x, y], pinOk, "", "") == Err(BadPin)
    ensures !Written(x) && Written(y) && !pinOk(y) ==> Classify([x, y], pinOk, "", "") == Err(BadPin)
    ensures Written(x) && !pinOk(x) ==> Classify([x], pinOk, "", "") == Err(BadPin)
  {
    assert [x, y][1..] == [y] && [y][1..] == [] && [x][1..] == [];
  }

  /** Too few parts are no endpoint, and too many are refused. */
  lemma CountsParts(first: string, rest: seq<string>, pinOk: string -> bool)
    requires '/' !in first && SlashFree(rest) && Cut(first + Slashed(rest), {'/'}) == first + Slashed(rest)
    ensures |rest| == 0 ==> ParseShort(first + Slashed(rest), pinOk) == Err(NotAnEndpoint)
    ensures |rest| > 3 ==> ParseShort(first + Slashed(rest), pinOk) == Err(TooManyParts)
  {
    SplitSlashed(first, rest);
  }

  /** The prefix of a pin stands at a place, in any letter case. */
  predicate PinAt(part: string, i: nat) {
    i + 7 <= |part| && Blank(part, 0, i) && CaseFoldsTo(part[i..i + 7], "sha256:")
  }

  /** A pin is recognized by its prefix, in any letter case and behind any white space, and by nothing else. */
  lemma WrittenExactly(part: string)
    ensures Written(part) <==> exists i: nat :: PinAt(part, i)
  {
    if Written(part) {
      WrittenAt(part);
    }
    if i: nat :| PinAt(part, i) {
      AtIsWritten(part, i);
    }
  }

  lemma WrittenAt(part: string)
    requires Written(part)
    ensures exists i: nat :: PinAt(part, i)
  {
    var i := TrimLeftIsSlice(part);
    var v := TrimSpace(part);
    assert v <= part[i..];
    assert part[i..i + 7] == part[i..][..7] == v[..7];
    var low := Lower(v[..7]);
    assert forall k :: 0 <= k < 7 ==> low[k] == LowerChar(v[..7][k]);
    assert PinAt(part, i);
  }

  lemma AtIsWritten(part: string, i: nat)
    requires PinAt(part, i)
    ensures Written(part)
  {
    var p := part[i..i + 7];
    assert p[0] == part[i] && p[6] == part[i + 6];
    assert CaseOf(p[0], 's') && CaseOf(p[6], ':');
    TrimLeftDrops(part, i);
    var rest := part[i..];
    assert rest[6] == ':';
    TrimKeepsUnspaced(rest, 7);
    assert TrimRight(rest)[..7] == rest[..7] == p;
    CaseFolds(p, "sha256:");
  }

  predicate CaseFoldsTo(s: string, text: string) {
    |s| == |text| && forall k :: 0 <= k < |text| ==> CaseOf(s[k], text[k])
  }

  // ----- At the edges -----

  /** The default port is 8443: it is not written, and it is what is read where none is. */
  lemma DefaultPort(host: string, literal: string -> bool, id: string, token: string, pin: string)
    requires Plain(host, "8443") && Readable(host, "8443", literal)
    ensures Shorthand(Url(host, "8443"), literal, id, token, pin) == Bare(host) + "/" + id + Optional(token) + Optional(pin)
    ensures WithPort(Bare(host)) == JoinHostPort(host, "8443")
  {
    ReadableIsJoinable(host, "8443", literal);
    DigitsAreHost("8443");
    JoinedChars(host, "8443");
    UrlHostIs(host, "8443", literal);
    DroppedPort(host, "8443");
    BareGetsPort(host);
  }

  lemma {:induction false} BlankTrims(s: string)
    requires Blank(s, 0, |s|)
    ensures TrimLeft(s) == ""
  {
    if s != "" {
      assert forall k :: 0 <= k < |s| - 1 ==> s[1..][k] == s[k + 1];
      BlankTrims(s[1..]);
    }
  }

  /** Nothing but white space is no endpoint and no mistake either. */
  lemma BlankIsNone(raw: string, pinOk: string -> bool)
    requires Blank(raw, 0, |raw|)
    ensures Parse(raw, pinOk) == Ok(Parsed("", "", "", ""))
  {
    BlankTrims(raw);
  }

  /** The characters of a host and of a user, one by one. */
  lemma CharsAre(c: char)
    ensures HostChar(c) <==>
              'a' <= c <= 'z' || 'A' <= c <= 'Z' || '0' <= c <= '9' || c == '-' || c == '_' || c == '.' || c == '~'
              || c == '!' || c == '$' || c == '&' || c == '\'' || c == '(' || c == ')' || c == '*' || c == '+' || c == ','
              || c == ';' || c == '=' || c == ':' || c == '[' || c == ']' || c == '<' || c == '>' || c == '"'
    ensures UserChar(c) <==>
              'a' <= c <= 'z' || 'A' <= c <= 'Z' || '0' <= c <= '9' || c == '-' || c == '_' || c == '.' || c == '~'
              || c == '!' || c == '$' || c == '&' || c == '\'' || c == '(' || c == ')' || c == '*' || c == '+' || c == ','
              || c == ';' || c == '=' || c == ':' || c == '%' || c == '@'
  {
  }

  lemma {:induction false} FirstInTail(front: string, tail: string, c: char)
    requires c !in front
    ensures FirstOf(front + tail, c) == |front| + FirstOf(tail, c)
  {
    if front == "" {
      assert front + tail == tail;
    } else {
      assert (front + tail)[1..] == front[1..] + tail;
      FirstInTail(front[1..], tail, c);
    }
  }

  lemma BeforeInTail(front: string, tail: string, c: char)
    requires c !in front
    ensures Before(front + tail, c) == front + Before(tail, c)
  {
    FirstInTail(front, tail, c);
  }

  lemma RestIs(hp: string, rest: string)
    requires Lacks(hp, {'/', '?'}) && (rest == "" || rest[0] == '/' || rest[0] == '?')
    ensures Before(Before(hp + rest, '?'), '/') == hp
  {
    BeforeInTail(hp, rest, '?');
    var r := Before(rest, '?');
    assert r == "" || r[0] == '/';
    BeforeInTail(hp, r, '/');
    assert Before(r, '/') == "";
  }

  lemma AuthorityRest(scheme: string, rest: string)
    requires IsScheme(scheme)
    ensures Authority(scheme + rest) == Before(Before(rest, '?'), '/')
  {
    var body := scheme + rest;
    assert body[|scheme|..] == rest;
    if scheme == "http://" {
      assert body[4] == ':' && "https://"[4] == 's';
    }
  }

  /** Everything up to the first path, query or fragment, whichever comes first. */
  lemma AuthorityIs(scheme: string, hp: string, tail: string)
    requires IsScheme(scheme) && Lacks(hp, {'/', '?', '#'})
    requires tail == "" || tail[0] == '/' || tail[0] == '?' || tail[0] == '#'
    ensures Authority(Before(scheme + hp + tail, '#')) == hp
  {
    var k := Before(tail, '#');
    assert k == "" || k[0] == '/' || k[0] == '?';
    assert '#' !in scheme + hp;
    BeforeInTail(scheme + hp, tail, '#');
    assert scheme + hp + k == scheme + (hp + k);
    AuthorityRest(scheme, hp + k);
    RestIs(hp, k);
  }

  /** No control character before the fragment. */
  predicate Printable(body: string) {
    forall i :: 0 <= i < |body| ==> 32 <= body[i] as int && body[i] as int != 127
  }

  lemma UrlHostBy(url: string, literal: string -> bool)
    ensures UrlHost(url, literal)
         == var r := ReadAuthority(Authority(Before(url, '#')), literal);
            if Printable(Before(url, '#')) && r.Some? && r.value != "" then r.value else url
  {
    var body := Before(url, '#');
    if !Printable(body) {
      var i :| 0 <= i < |body| && !(32 <= body[i] as int && body[i] as int != 127);
      assert Control(body[i]);
    }
  }

  lemma ReadUser(user: string, hp: string, literal: string -> bool)
    requires '@' !in hp
    ensures ReadAuthority(user + ['@'] + hp, literal)
         == if forall i :: 0 <= i < |user| ==> UserChar(user[i]) then ReadHost(hp, literal) else None
    ensures ReadAuthority(hp, literal) == ReadHost(hp, literal)
  {
    var a := user + ['@'] + hp;
    LastOfConcat(user, '@', hp);
    assert a[|user| + 1..] == hp;
    assert forall i :: 0 <= i < |user| ==> a[i] == user[i];
    assert LastOf(hp, '@') < 0;
  }

  /**
   The host of a url of either scheme: user, path, query and fragment are dropped, and
   it is what is left if the parser takes it. A url with a control character, or with a
   user no url may hold, is used as it is.
   */
  lemma UrlHostExactly(scheme: string, user: string, hp: string, tail: string, literal: string -> bool)
    requires IsScheme(scheme) && Lacks(user, {'/', '?', '#'}) && Lacks(hp, {'/', '?', '#', '@'}) && hp != ""
    requires tail == "" || tail[0] == '/' || tail[0] == '?' || tail[0] == '#'
    ensures var url := scheme + (user + ['@'] + hp) + tail;
            UrlHost(url, literal)
            == if Printable(Before(url, '#')) && (forall i :: 0 <= i < |user| ==> UserChar(user[i])) && ReadHost(hp, literal).Some?
               then hp else url
    ensures var url := scheme + hp + tail;
            UrlHost(url, literal) == if Printable(Before(url, '#')) && ReadHost(hp, literal).Some? then hp else url
  {
    AuthorityIs(scheme, user + ['@'] + hp, tail);
    AuthorityIs(scheme, hp, tail);
    UrlHostBy(scheme + (user + ['@'] + hp) + tail, literal);
    UrlHostBy(scheme + hp + tail, literal);
    ReadUser(user, hp, literal);
  }

  /** A bracket belongs at the front of a host only, with its like and a numeric port behind an address. */
  lemma BracketsInFront(host: string, literal: string -> bool)
    requires exists i :: 0 < i < |host| && host[i] == '['
    ensures ReadHost(host, literal) == None
  {
    var i :| 0 < i < |host| && host[i] == '[';
    LastAtLeast(host, '[', i);
  }

  lemma {:induction false} LastAtLeast(s: string, c: char, i: nat)
    requires i < |s| && s[i] == c
    ensures LastOf(s, c) >= i
  {
    if i < |s| - 1 && s[|s| - 1] != c {
      LastAtLeast(s[..|s| - 1], c, i);
    }
  }

  lemma NotAfterLast(s: string, c: char)
    ensures c !in s[LastOf(s, c) + 1..]
  {
    var n := LastOf(s, c) + 1;
    if k :| 0 <= k < |s[n..]| && s[n..][k] == c {
      LastAtLeast(s, c, n + k);
    }
  }

  /** One colon, or a host in brackets with a port behind it. */
  ghost predicate IsPair(s: string, host: string, port: string) {
    && Lacks(host, {'[', ']'}) && Lacks(port, {':', '[', ']'})
    && ((':' !in host && s == host + ":" + port) || s == "[" + host + "]:" + port)
  }

  lemma JoinAtColon(s: string, i: nat)
    requires i < |s| && s[i] == ':'
    ensures s == s[..i] + ":" + s[i + 1..]
  {
  }

  lemma JoinAtBracket(s: string, end: nat)
    requires 0 < end && end + 1 < |s| && s[0] == '[' && s[end] == ']' && s[end + 1] == ':'
    ensures s == "[" + s[1..end] + "]:" + s[end + 2..]
  {
  }

  lemma PlainParts(s: string, i: nat)
    requires i < |s| && '[' !in s && ']' !in s && ':' !in s[i + 1..]
    ensures Lacks(s[..i], {'[', ']'}) && Lacks(s[i + 1..], {':', '[', ']'})
  {
    var port := s[i + 1..];
    forall k | 0 <= k < |port|
      ensures port[k] !in {':', '[', ']'}
    {
      assert port[k] == s[i + 1 + k];
    }
  }

  lemma HostInBrackets(s: string, end: nat)
    requires 0 < end <= |s| && '[' !in s[1..] && ']' !in s[..end]
    ensures Lacks(s[1..end], {'[', ']'})
  {
    var host := s[1..end];
    forall k | 0 <= k < |host|
      ensures host[k] !in {'[', ']'}
    {
      assert host[k] == s[1..][k] && host[k] == s[..end][k + 1];
    }
  }

  lemma PortBehindBrackets(s: string, i: nat)
    requires 0 < i < |s| && '[' !in s[1..] && ']' !in s[i..] && ':' !in s[i + 1..]
    ensures Lacks(s[i + 1..], {':', '[', ']'})
  {
    var port := s[i + 1..];
    forall k | 0 <= k < |port|
      ensures port[k] !in {':', '[', ']'}
    {
      assert port[k] == s[1..][i + k] && port[k] == s[i..][k + 1];
    }
  }

  lemma PlainSplits(s: string)
    requires HasPort(s) && s[0] != '['
    ensures IsPair(s, s[..LastOf(s, ':')], s[LastOf(s, ':') + 1..])
  {
    NotAfterLast(s, ':');
    JoinAtColon(s, LastOf(s, ':'));
    PlainParts(s, LastOf(s, ':'));
  }

  lemma BracketedSplits(s: string)
    requires HasPort(s) && s[0] == '['
    ensures IsPair(s, s[1..FirstOf(s, ']')], s[LastOf(s, ':') + 1..])
  {
    NotAfterLast(s, ':');
    NotBefore(s, ']');
    JoinAtBracket(s, FirstOf(s, ']'));
    HostInBrackets(s, FirstOf(s, ']'));
    PortBehindBrackets(s, LastOf(s, ':'));
  }

  /** A host has a port of its own exactly when it is such a pair; anything else is given the default one. */
  lemma HasPortExactly(s: string)
    ensures HasPort(s) <==> exists host, port :: IsPair(s, host, port)
  {
    if HasPort(s) {
      if s[0] == '[' {
        BracketedSplits(s);
      } else {
        PlainSplits(s);
      }
    }
    if host, port :| IsPair(s, host, port) {
      BracketedHasPort(host, port);
      if ':' !in host {
        PlainHasPort(host, port);
      }
    }
  }
}
