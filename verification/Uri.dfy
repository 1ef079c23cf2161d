/** The tokenizer behind the parsers (src/Util.cc, strtok). */
module Tokenizing {

  /** The length of the longest prefix free of the delimiter. */
  function Run(s: string, d: char): (n: nat)
    ensures n <= |s| && d !in s[..n] && (n < |s| ==> s[n] == d)
  {
    if s == "" || s[0] == d then 0 else
    var n := Run(s[1..], d);
    assert s[..n + 1] == [s[0]] + s[1..][..n];
    n + 1
  }

  predicate AreTokens(ts: seq<string>, d: char) {
    forall k :: 0 <= k < |ts| ==> ts[k] != "" && d !in ts[k]
  }

  /** The maximal stretches free of the delimiter. */
  function Tokens(s: string, d: char): (r: seq<string>)
    ensures AreTokens(r, d)
    decreases |s|
  {
    if s == "" then []
    else if s[0] == d then Tokens(s[1..], d)
    else [s[..Run(s, d)]] + Tokens(s[Run(s, d)..], d)
  }

  function Join(ts: seq<string>, d: string): string {
    if ts == [] then "" else if |ts| == 1 then ts[0] else ts[0] + d + Join(ts[1..], d)
  }

  lemma {:induction false} RunOf(t: string, rest: string, d: char)
    requires d !in t && (rest == "" || rest[0] == d)
    ensures Run(t + rest, d) == |t|
  {
    if t == "" {
      assert t + rest == rest;
    } else {
      assert (t + rest)[1..] == t[1..] + rest;
      RunOf(t[1..], rest, d);
    }
  }

  lemma FirstToken(t: string, rest: string, d: char)
    requires t != "" && d !in t && (rest == "" || rest[0] == d)
    ensures Tokens(t + rest, d) == [t] + Tokens(rest, d)
  {
    RunOf(t, rest, d);
    assert (t + rest)[..|t|] == t && (t + rest)[|t|..] == rest;
  }

  lemma {:induction false} SplitOfTail(ts: seq<string>, d: char, tail: string)
    requires AreTokens(ts, d) && (tail == "" || tail == [d])
    ensures Tokens(Join(ts, [d]) + tail, d) == ts
  {
    assert Tokens(tail, d) == [] by { assert tail != "" ==> tail[1..] == ""; }
    if ts == [] {
      assert Join(ts, [d]) + tail == tail;
    } else if |ts| == 1 {
      FirstToken(ts[0], tail, d);
    } else {
      var rest := Join(ts[1..], [d]) + tail;
      SplitOfTail(ts[1..], d, tail);
      assert Join(ts, [d]) + tail == ts[0] + ([d] + rest);
      FirstToken(ts[0], [d] + rest, d);
      assert ([d] + rest)[1..] == rest;
    }
  }

  /** Splitting undoes joining, whether or not there is a delimiter in front or at the end. */
  lemma SplitOfJoin(ts: seq<string>, d: char, leading: bool, trailing: bool)
    requires AreTokens(ts, d)
    ensures Tokens((if leading then [d] else "") + Join(ts, [d]) + (if trailing then [d] else ""), d) == ts
  {
    var tail := if trailing then [d] else "";
    var body := Join(ts, [d]) + tail;
    SplitOfTail(ts, d, tail);
    if leading {
      assert [d] + Join(ts, [d]) + tail == [d] + body;
      assert ([d] + body)[1..] == body;
    } else {
      assert "" + Join(ts, [d]) + tail == body;
    }
  }

  lemma JoinNone(delim: string)
    ensures Join([], delim) == ""
  {
  }

  lemma {:induction false} JoinAppend(ts: seq<string>, t: string, delim: string)
    ensures Join(ts + [t], delim) == Join(ts, delim) + (if ts == [] then "" else delim) + t
  {
    if |ts| >= 1 {
      assert (ts + [t])[1..] == ts[1..] + [t];
      JoinAppend(ts[1..], t, delim);
    }
  }

  lemma {:induction false} TokensAreParts(s: string, d: char)
    ensures forall k, c :: 0 <= k < |Tokens(s, d)| && c in Tokens(s, d)[k] ==> c in s
    decreases |s|
  {
    if s != "" {
      var n := if s[0] == d then 1 else Run(s, d);
      assert s == s[..n] + s[n..];
      TokensAreParts(s[n..], d);
    }
  }

  /** One call of strtok from position i on: it skips delimiters and then runs to the next one or to the end. */
  method NextToken(s: string, i: nat, d: char) returns (token: string, next: nat)
    requires i <= |s|
    ensures i <= next <= |s| && (token != "" ==> i < next)
    ensures Tokens(s[i..], d) == (if token == "" then [] else [token] + Tokens(s[next..], d))
  {
    hide Tokens;
    var start := i;
    while start < |s| && s[start] == d
      invariant i <= start <= |s| && Tokens(s[i..], d) == Tokens(s[start..], d)
    {
      SkipDelimiter(s, start, d);
      start := start + 1;
    }
    next := start;
    while next < |s| && s[next] != d
      invariant start <= next <= |s| && d !in s[start..next]
    {
      next := next + 1;
    }
    token := s[start..next];
    if token == "" {
      assert s[start..] == "";
      NoTokens(d);
    } else {
      assert s[start..] == token + s[next..];
      FirstToken(token, s[next..], d);
    }
  }

  lemma NoTokens(d: char)
    ensures Tokens("", d) == []
  {
  }

  lemma SkipDelimiter(s: string, i: nat, d: char)
    requires i < |s| && s[i] == d
    ensures Tokens(s[i..], d) == Tokens(s[i + 1..], d)
  {
    assert s[i..][1..] == s[i + 1..];
  }

  /** Calls strtok until it finds no more tokens. */
  method Split(s: string, d: char) returns (tokens: seq<string>)
    ensures tokens == Tokens(s, d)
  {
    hide Tokens;
    tokens := [];
    var token, i := NextToken(s, 0, d);
    assert s[0..] == s;
    while token != ""
      invariant i <= |s|
      invariant tokens + (if token == "" then [] else [token] + Tokens(s[i..], d)) == Tokens(s, d)
      decreases |s| - i, token != ""
    {
      tokens := tokens + [token];
      token, i := NextToken(s, i, d);
    }
  }
}

/** White space (src/Util.cc, trimmed). */
module Texts {

  predicate IsLetterOrDigit(c: char) {
    'a' <= c <= 'z' || 'A' <= c <= 'Z' || '0' <= c <= '9'
  }

  /** The characters a path and a query may have. */
  datatype Alphabet = PathChars | QueryChars

  predicate Allowed(c: char, alphabet: Alphabet) {
    IsLetterOrDigit(c) || c in "/:@%-._~!$&'()*+,;=" || c in (if alphabet == PathChars then "[] " else "?")
  }

  /** The characters of pchar in RFC 3986, appendix A: unreserved, percent encoded, sub-delims, ":" and "@". */
  predicate IsPchar(c: char) {
    var unreserved := IsLetterOrDigit(c) || c in "-._~";
    var subDelims := c in "!$&'()*+,;=";
    unreserved || c == '%' || subDelims || c in ":@"
  }

  /** A query has the characters of RFC 3986: query = *( pchar / "/" / "?" ). A path has square brackets and blanks
      besides those of RFC 3986, where its segments are separated by slashes and hold pchar only. */
  lemma AlphabetsOfRfc3986(c: char)
    ensures Allowed(c, QueryChars) <==> IsPchar(c) || c in "/?"
    ensures Allowed(c, PathChars) <==> IsPchar(c) || c in "/[] "
  {
  }

  predicate IsSpace(c: char) {
    c in " \t\n\r" || c == 11 as char || c == 12 as char
  }

  function LeftTrimmed(s: string): string {
    if s != "" && IsSpace(s[0]) then LeftTrimmed(s[1..]) else s
  }

  function RightTrimmed(s: string): string {
    if s != "" && IsSpace(s[|s| - 1]) then RightTrimmed(s[..|s| - 1]) else s
  }

  function Trimmed(s: string): string {
    RightTrimmed(LeftTrimmed(s))
  }

  predicate Blank(s: string) {
    forall k :: 0 <= k < |s| ==> IsSpace(s[k])
  }

  /** Nothing outside the alphabet, but for white space at the end. */
  predicate Clean(s: string, alphabet: Alphabet) {
    Blank(s) || (Allowed(s[0], alphabet) && Clean(s[1..], alphabet))
  }

  predicate Over(s: string, alphabet: Alphabet) {
    forall k :: 0 <= k < |s| ==> Allowed(s[k], alphabet)
  }

  lemma {:induction false} LeftTrimmedIsEmpty(s: string)
    ensures LeftTrimmed(s) == "" <==> Blank(s)
    ensures LeftTrimmed(s) != "" ==> !IsSpace(LeftTrimmed(s)[0])
  {
    if s != "" {
      LeftTrimmedIsEmpty(s[1..]);
    }
  }

  /** A string is over the alphabet once trimmed on the right exactly when it is clean. */
  lemma {:induction false} RightTrimmedIsClean(s: string, alphabet: Alphabet)
    ensures Over(RightTrimmed(s), alphabet) <==> Clean(s, alphabet)
    ensures RightTrimmed(s) == "" <==> Blank(s)
    ensures RightTrimmed(s) != "" ==> RightTrimmed(s)[0] == s[0]
  {
    if s != "" {
      RightTrimmedHead(s);
      RightTrimmedIsClean(s[1..], alphabet);
      OverCons(s[0], RightTrimmed(s[1..]), alphabet);
    }
  }

  lemma OverCons(c: char, s: string, alphabet: Alphabet)
    ensures Over([c] + s, alphabet) <==> Allowed(c, alphabet) && Over(s, alphabet)
  {
    assert ([c] + s)[0] == c && forall k :: 0 <= k < |s| ==> ([c] + s)[k + 1] == s[k];
    if Over([c] + s, alphabet) {
      forall k | 0 <= k < |s| ensures Allowed(s[k], alphabet) {
        assert Allowed(([c] + s)[k + 1], alphabet);
      }
    }
  }

  lemma {:induction false} RightTrimmedHead(s: string)
    requires s != ""
    ensures RightTrimmed(s) == if Blank(s) then "" else [s[0]] + RightTrimmed(s[1..])
  {
    var n := |s| - 1;
    if IsSpace(s[n]) {
      if n > 0 {
        RightTrimmedHead(s[..n]);
        assert s[..n][1..] == s[1..][..n - 1];
        assert Blank(s) <==> Blank(s[..n]);
      }
    } else {
      assert !Blank(s);
      assert s == [s[0]] + s[1..];
    }
  }

  /** The trimmed form is over the alphabet exactly when what follows the white space in front is clean. */
  lemma TrimmedIsClean(s: string, alphabet: Alphabet)
    ensures Over(Trimmed(s), alphabet) <==> Clean(LeftTrimmed(s), alphabet)
    ensures Trimmed(s) == "" <==> Blank(s)
    ensures Trimmed(s) != "" ==> Trimmed(s)[0] == LeftTrimmed(s)[0]
  {
    LeftTrimmedIsEmpty(s);
    RightTrimmedIsClean(LeftTrimmed(s), alphabet);
  }
}

/** Paths of URIs (src/URI.cc, URIPath). */
module UriPaths {
  import opened Tokenizing
  import opened Texts

  predicate AllowedFirst(c: char) {
    IsLetterOrDigit(c) || c in ":%+[/"
  }

  predicate Valid(s: string) {
    var t := Trimmed(s);
    && (t == "" ==> s == "")
    && Over(t, PathChars)
    && (t != "" ==> AllowedFirst(t[0]))
  }

  predicate IsStringAbsolute(s: string) {
    (|s| > 0 && s[0] == '/') || (|s| > 1 && s[1] == ':')
  }

  predicate IsDrive(part: string) {
    |part| >= 2 && part[1] == ':'
  }

  /** The slashes of a part replaced by their percent encoding. */
  function Escaped(part: string): (r: string)
    ensures '/' !in r
    ensures '/' !in part ==> r == part
    ensures part != "" ==> r != ""
  {
    if part == "" then "" else (if part[0] == '/' then "%2F" else [part[0]]) + Escaped(part[1..])
  }

  lemma {:induction false} EscapedCat(a: string, b: string)
    ensures Escaped(a + b) == Escaped(a) + Escaped(b)
  {
    if a == "" {
      assert a + b == b;
    } else {
      assert (a + b)[1..] == a[1..] + b;
      EscapedCat(a[1..], b);
    }
  }

  lemma EscapedSlash()
    ensures Escaped("/") == "%2F"
  {
    assert Escaped("/") == "%2F" + Escaped("");
  }

  /** Pieces with slashes between them become the pieces with the encoding between them. */
  lemma {:induction false} EscapedJoin(ts: seq<string>)
    requires AreTokens(ts, '/')
    ensures Escaped(Join(ts, "/")) == Join(ts, "%2F")
  {
    if |ts| > 1 {
      var rest := Join(ts[1..], "/");
      EscapedJoin(ts[1..]);
      EscapedCat(ts[0] + "/", rest);
      EscapedCat(ts[0], "/");
      EscapedSlash();
      hide Escaped;
      assert Escaped(ts[0]) == ts[0] by { assert '/' !in ts[0]; }
    }
  }

  /** The part that is pushed: a slash in front of the first one is not part of it. */
  function Pushed(part: string, first: bool): string {
    Escaped(if first && part != "" && part[0] == '/' then part[1..] else part)
  }

  datatype Path = Path(parts: seq<string>, isAbsolute: bool, trailingSlash: bool)

  /** What a path prints. */
  function Printed(p: Path, delim: string := "/"): string {
    (if p.isAbsolute && !(p.parts != [] && IsDrive(p.parts[0])) then "/" else "")
    + Join(p.parts, delim) + (if p.trailingSlash then "/" else "")
  }

  /** What a valid string parses to. */
  function Parsed(s: string): Path {
    Path(Tokens(s, '/'), IsStringAbsolute(s), |s| > 1 && s[|s| - 1] == '/')
  }

  class URIPath {
    var path: seq<string>
    var isAbsolute: bool
    var trailingSlash: bool

    function State(): Path
      reads this
    {
      Path(path, isAbsolute, trailingSlash)
    }

    constructor ()
      ensures State() == Path([], false, false)
    {
      path, isAbsolute, trailingSlash := [], false, false;
    }

    method Clear()
      modifies this
      ensures State() == Path([], false, false)
    {
      path, isAbsolute, trailingSlash := [], false, false;
    }

    /** Appends a part; a slash or a drive at the start of the first one makes the path absolute. */
    method PushBack(part: string)
      modifies this
      ensures trailingSlash == old(trailingSlash)
      ensures isAbsolute == (old(isAbsolute) || (old(path) == [] && IsStringAbsolute(part)))
      ensures path == old(path) + if part == "" then [] else [Pushed(part, old(path) == [])]
    {
      if part == "" {
        return;
      }
      var pushed := part;
      if path == [] && part[0] == '/' {
        pushed := part[1..];
        isAbsolute := true;
      } else if path == [] && IsDrive(part) {
        isAbsolute := true;
      }
      if '/' in pushed {
        pushed := Escaped(pushed);
      }
      path := path + [pushed];
    }

    method Str(delim: string) returns (result: string)
      ensures result == Printed(State(), delim)
    {
      hide Join;
      result := if isAbsolute then "/" else "";
      if path != [] && IsDrive(path[0]) {
        result := "";
      }
      ghost var head := result;
      assert head + Join(path[..0], delim) == head by { JoinNone(delim); }
      var firstPart := true;
      for i := 0 to |path|
        invariant firstPart <==> i == 0
        invariant result == head + Join(path[..i], delim)
      {
        JoinAppend(path[..i], path[i], delim);
        assert path[..i + 1] == path[..i] + [path[i]];
        if firstPart {
          firstPart := false;
        } else {
          result := result + delim;
        }
        result := result + path[i];
      }
      assert path[..|path|] == path;
      if trailingSlash {
        result := result + "/";
      }
    }

    method Parse(s: string) returns (ok: bool)
      modifies this
      ensures ok == Valid(s)
      ensures State() == if ok then Parsed(s) else old(State())
    {
      hide Valid, Tokens;
      ok := Valid(s);
      if !ok {
        return;
      }
      Clear();
      var parts := Split(s, '/');
      for i := 0 to |parts|
        invariant path == parts[..i] && parts == Tokens(s, '/')
      {
        PushBack(parts[i]);
        assert parts[..i + 1] == parts[..i] + [parts[i]];
      }
      isAbsolute := IsStringAbsolute(s);
      trailingSlash := |s| > 1 && s[|s| - 1] == '/';
    }
  }

  /** How a string starts tells how its first token does. */
  lemma StartOfTokens(s: string)
    requires s != "" && s[0] != '/'
    ensures Tokens(s, '/') != [] && (IsDrive(Tokens(s, '/')[0]) <==> IsDrive(s))
  {
    var n := Run(s, '/');
    assert Tokens(s, '/')[0] == s[..n];
    if n == 1 && |s| > 1 {
      assert s[1] == '/';
    }
  }

  lemma {:induction false} EndsOfJoin(ts: seq<string>)
    requires AreTokens(ts, '/') && ts != []
    ensures
      var j := Join(ts, "/");
      j != "" && j[0] == ts[0][0] != '/' && j[|j| - 1] != '/' && (IsDrive(j) <==> IsDrive(ts[0]))
  {
    if |ts| > 1 {
      EndsOfJoin(ts[1..]);
    }
  }

  /** Printing a parsed path and parsing that again gives the same path. */
  lemma ReparseGivesTheSame(s: string)
    ensures Parsed(Printed(Parsed(s))) == Parsed(s)
  {
    var p := Parsed(s);
    var slash := p.isAbsolute && !(p.parts != [] && IsDrive(p.parts[0]));
    SplitOfJoin(p.parts, '/', slash, p.trailingSlash);
    if s != "" && s[0] != '/' {
      StartOfTokens(s);
    }
    var j := Join(p.parts, "/");
    var lead, tail := if slash then "/" else "", if p.trailingSlash then "/" else "";
    if p.parts != [] {
      EndsOfJoin(p.parts);
      assert IsStringAbsolute(lead + j + tail) <==> slash || IsDrive(j);
    }
  }

  /** Runs of slashes collapsed into one. */
  function Collapsed(s: string): (r: string)
    ensures s != "" ==> r != ""
  {
    if s == "" then ""
    else if |s| > 1 && s[0] == s[1] == '/' then Collapsed(s[1..])
    else [s[0]] + Collapsed(s[1..])
  }

  lemma {:induction false} CollapsedRun(t: string, rest: string)
    requires '/' !in t
    ensures Collapsed(t + rest) == t + Collapsed(rest)
  {
    if t == "" {
      assert t + rest == rest;
    } else {
      assert (t + rest)[1..] == t[1..] + rest;
      CollapsedRun(t[1..], rest);
    }
  }

  lemma {:induction false} CollapsedSlashes(s: string)
    requires s != "" && Tokens(s, '/') == []
    ensures Collapsed(s) == "/" && s[|s| - 1] == '/'
  {
    if |s| > 1 {
      CollapsedSlashes(s[1..]);
    }
  }

  lemma JoinCons(t: string, ts: seq<string>, tail: string)
    requires ts != []
    ensures t + ("/" + Join(ts, "/") + tail) == "" + Join([t] + ts, "/") + tail
  {
    assert ([t] + ts)[1..] == ts;
    assert Join([t] + ts, "/") == t + "/" + Join(ts, "/");
  }

  /** A slash in front and one behind, where there are. */
  function Ends(j: string, lead: bool, trail: bool): string {
    (if lead then "/" else "") + j + (if trail then "/" else "")
  }

  /** The tokens joined, with a slash in front and one at the end when there are some in the string. */
  function Rejoined(s: string): string
    requires s != ""
  {
    Ends(Join(Tokens(s, '/'), "/"), s[0] == '/', s[|s| - 1] == '/')
  }

  lemma RejoinedSlash(s: string)
    requires |s| > 1 && s[0] == '/'
    ensures Rejoined(s) == if s[1] == '/' then Rejoined(s[1..]) else "/" + Rejoined(s[1..])
  {
    assert Tokens(s, '/') == Tokens(s[1..], '/') && s[1..][|s| - 2] == s[|s| - 1];
    hide Tokens, Join;
    var j, tail := Join(Tokens(s[1..], '/'), "/"), if s[|s| - 1] == '/' then "/" else "";
    assert "" + j + tail == j + tail && "/" + j + tail == "/" + (j + tail);
  }

  lemma TokensOfSlashes(s: string)
    requires s != "" && s[0] == '/'
    ensures Tokens(s, '/') == Tokens(s[1..], '/')
    ensures |s| == 1 ==> Tokens(s, '/') == []
  {
  }

  lemma CollapsedSlash(s: string)
    requires |s| > 1 && s[0] == '/'
    ensures Collapsed(s) == if s[1] == '/' then Collapsed(s[1..]) else "/" + Collapsed(s[1..])
  {
  }

  lemma RejoinedStep(t: string, rest: string)
    requires t != "" && '/' !in t && rest != "" && rest[0] == '/' && Tokens(rest, '/') != []
    ensures Rejoined(t + rest) == t + Rejoined(rest)
  {
    FirstToken(t, rest, '/');
    assert (t + rest)[|t + rest| - 1] == rest[|rest| - 1];
    hide Tokens, Join;
    JoinCons(t, Tokens(rest, '/'), if rest[|rest| - 1] == '/' then "/" else "");
  }

  lemma RejoinedLast(t: string, rest: string)
    requires t != "" && '/' !in t && (rest == "" || rest[0] == '/') && Tokens(rest, '/') == []
    ensures Rejoined(t + rest) == t + Collapsed(rest)
  {
    FirstToken(t, rest, '/');
    if rest != "" {
      CollapsedSlashes(rest);
      assert (t + rest)[|t + rest| - 1] == rest[|rest| - 1];
    } else {
      assert t + rest == t;
    }
  }

  lemma RunPositive(s: string)
    requires s != "" && s[0] != '/'
    ensures Run(s, '/') > 0
  {
  }

  /** Joining the tokens again collapses the slashes. */
  lemma {:induction false} JoinIsCollapsed(s: string)
    requires Tokens(s, '/') != []
    ensures Collapsed(s) == Rejoined(s)
    decreases |s|
  {
    hide Tokens, Collapsed, Rejoined, Run;
    NoTokens('/');
    if s[0] == '/' {
      TokensOfSlashes(s);
      CollapsedSlash(s);
      RejoinedSlash(s);
      JoinIsCollapsed(s[1..]);
    } else {
      RunPositive(s);
      var t, rest := s[..Run(s, '/')], s[Run(s, '/')..];
      assert s == t + rest;
      CollapsedRun(t, rest);
      if Tokens(rest, '/') == [] {
        RejoinedLast(t, rest);
      } else {
        JoinIsCollapsed(rest);
        RejoinedStep(t, rest);
      }
    }
  }

  lemma OneSlash(s: string)
    requires |s| == 1 && Tokens(s, '/') != []
    ensures s[0] != '/'
  {
  }

  lemma PrintedWithoutTokens(s: string)
    requires Tokens(s, '/') == []
    ensures Printed(Parsed(s)) == if |s| > 1 then "//" else s
  {
    if s != "" {
      CollapsedSlashes(s);
      assert s[0] == '/';
      assert |s| == 1 ==> s == "/";
    }
  }

  /** What is in front of the parts and behind them. */
  lemma PrintedEnds(s: string)
    requires Tokens(s, '/') != []
    ensures
      var p, drive := Parsed(s), IsDrive(Tokens(s, '/')[0]);
      (p.trailingSlash <==> s[|s| - 1] == '/') && (p.isAbsolute && !drive <==> s[0] == '/' && !drive)
  {
    if s[0] != '/' {
      StartOfTokens(s);
    }
    if |s| == 1 {
      OneSlash(s);
    }
    hide Tokens;
  }

  lemma PrintedIs(s: string)
    requires Tokens(s, '/') != []
    ensures
      var lead := s[0] == '/' && !IsDrive(Tokens(s, '/')[0]);
      Printed(Parsed(s)) == Ends(Join(Tokens(s, '/'), "/"), lead, s[|s| - 1] == '/')
  {
    PrintedEnds(s);
    hide Tokens, Join, IsDrive, IsStringAbsolute;
  }

  lemma EndsWithoutLead(j: string, trail: bool)
    ensures Ends(j, false, trail) == Ends(j, true, trail)[1..]
  {
    var tail := if trail then "/" else "";
    assert "/" + j + tail == "/" + (j + tail) && "" + j + tail == j + tail;
  }

  /** A path prints as its string with runs of slashes collapsed, without the slash in front of a drive. */
  lemma PrintedIsCollapsed(s: string)
    requires Tokens(s, '/') != []
    ensures Printed(Parsed(s)) ==
            if s[0] == '/' && IsDrive(Tokens(s, '/')[0]) then Collapsed(s)[1..] else Collapsed(s)
  {
    NoTokens('/');
    hide Tokens, Collapsed, Join, IsDrive, Printed, Parsed, Ends;
    JoinIsCollapsed(s);
    PrintedIs(s);
    EndsWithoutLead(Join(Tokens(s, '/'), "/"), s[|s| - 1] == '/');
  }

  lemma {:induction false} CollapsedIsClean(s: string)
    ensures Clean(s, PathChars) ==> Clean(Collapsed(s), PathChars)
    ensures Collapsed(s) == "" <==> s == ""
    ensures s != "" ==> Collapsed(s)[0] == s[0]
    ensures Blank(s) ==> Collapsed(s) == s
  {
    if s != "" {
      CollapsedIsClean(s[1..]);
    }
  }

  lemma {:induction false} CollapsedThenTrimmed(s: string)
    ensures LeftTrimmed(Collapsed(s)) == Collapsed(LeftTrimmed(s))
  {
    if s != "" && IsSpace(s[0]) {
      CollapsedThenTrimmed(s[1..]);
    } else {
      CollapsedIsClean(s);
    }
  }

  /** The slash in front of a drive is dropped, and then a character is in front that a path may not start with. */
  predicate LosesSlash(s: string) {
    && s != "" && s[0] == '/' && Tokens(s, '/') != [] && IsDrive(Tokens(s, '/')[0])
    && !AllowedFirst(Tokens(s, '/')[0][0]) && Tokens(s, '/')[0][0] != ' '
  }

  /** A nonblank clean string over the path's alphabet is valid exactly when it may start as it does. */
  lemma ValidIfClean(s: string)
    requires Clean(LeftTrimmed(s), PathChars) && !Blank(s)
    ensures Valid(s) <==> LeftTrimmed(s) != "" && AllowedFirst(LeftTrimmed(s)[0])
  {
    TrimmedIsClean(s, PathChars);
  }

  lemma SlashesAreValid()
    ensures Valid("/") && Valid("//")
  {
    assert LeftTrimmed("/") == RightTrimmed("/") == "/" && LeftTrimmed("//") == RightTrimmed("//") == "//";
  }

  /** The printed form when the slash in front of a drive is dropped. */
  lemma ValidWithoutSlash(p: string)
    requires Clean("/" + p, PathChars) && IsDrive(p)
    ensures Valid(p) <==> AllowedFirst(p[0]) || p[0] == ' '
  {
    CleanAfterSlash(p);
    Characters(p[0]);
    Characters(p[1]);
    hide Valid, Clean, LeftTrimmed, Allowed, AllowedFirst, IsSpace;
    CleanTwo(p);
    ValidIfClean(p);
  }

  lemma CleanAfterSlash(p: string)
    requires Clean("/" + p, PathChars)
    ensures Clean(p, PathChars)
  {
    assert ("/" + p)[0] == '/' && ("/" + p)[1..] == p;
  }

  lemma Characters(c: char)
    ensures Allowed(c, PathChars) && IsSpace(c) ==> c == ' '
    ensures c == ' ' ==> IsSpace(c) && !AllowedFirst(c)
    ensures c == ':' ==> !IsSpace(c) && AllowedFirst(c)
    ensures AllowedFirst(c) ==> !IsSpace(c)
  {
  }

  lemma CleanTwo(p: string)
    requires |p| >= 2 && Clean(p, PathChars) && !IsSpace(p[1])
    ensures Allowed(p[0], PathChars) && Clean(LeftTrimmed(p), PathChars) && !Blank(p)
    ensures LeftTrimmed(p) == if IsSpace(p[0]) then p[1..] else p
  {
    assert LeftTrimmed(p[1..]) == p[1..];
  }

  /** The printed form when no slash is dropped. */
  lemma ValidCollapsed(s: string)
    requires Valid(s)
    ensures Valid(Collapsed(s)) && (s != "" ==> Clean(LeftTrimmed(s), PathChars))
  {
    if s != "" {
      TrimmedIsClean(s, PathChars);
      LeftTrimmedIsEmpty(s);
      CollapsedThenTrimmed(s);
      CollapsedIsClean(LeftTrimmed(s));
      LeftTrimmedIsEmpty(Collapsed(s));
      ValidIfClean(Collapsed(s));
    }
  }

  /** A valid string's path prints as a valid string, and is the same when that is parsed, unless it loses its slash. */
  lemma ReadBack(s: string)
    requires Valid(s)
    ensures Valid(Printed(Parsed(s))) <==> !LosesSlash(s)
    ensures Parsed(Printed(Parsed(s))) == Parsed(s)
  {
    hide Valid, Printed, Join, Tokens, Collapsed, IsDrive, AllowedFirst;
    ReparseGivesTheSame(s);
    NoTokens('/');
    if Tokens(s, '/') == [] {
      PrintedWithoutTokens(s);
      SlashesAreValid();
      SlashesOnly(s);
    } else {
      PrintedIsCollapsed(s);
      ValidCollapsed(s);
      if s[0] == '/' && IsDrive(Tokens(s, '/')[0]) {
        DroppedSlash(s);
      }
    }
  }

  lemma SlashIsKept(s: string)
    requires s != "" && s[0] == '/'
    ensures LeftTrimmed(s) == s
  {
  }

  lemma DroppedSlash(s: string)
    requires Valid(s) && Tokens(s, '/') != [] && s[0] == '/' && IsDrive(Tokens(s, '/')[0])
    ensures Valid(Collapsed(s)[1..]) <==> !LosesSlash(s)
  {
    NoTokens('/');
    hide Valid, Tokens, Collapsed, AllowedFirst, IsDrive, Clean, LeftTrimmed, Blank;
    CollapsedIsClean(s);
    var p := Collapsed(s)[1..];
    ValidCollapsed(s);
    SlashIsKept(s);
    DropsTo(s);
    assert Collapsed(s) == "/" + p;
    ValidWithoutSlash(p);
  }

  lemma SlashesOnly(s: string)
    requires Tokens(s, '/') == []
    ensures |s| == 1 ==> s == "/"
  {
  }

  lemma DropsTo(s: string)
    requires Tokens(s, '/') != [] && s[0] == '/'
    ensures
      var t, p := Tokens(s, '/')[0], Collapsed(s)[1..];
      p != "" && p[0] == t[0] && (IsDrive(t) ==> IsDrive(p))
  {
    JoinIsCollapsed(s);
    EndsOfJoin(Tokens(s, '/'));
    hide Tokens, Collapsed, Join;
    var j, tail := Join(Tokens(s, '/'), "/"), if s[|s| - 1] == '/' then "/" else "";
    assert ("/" + j + tail)[1..] == j + tail;
  }

  lemma TrimmedExample()
    ensures Trimmed("/=:") == "/=:" && Trimmed("=:") == "=:"
  {
    assert LeftTrimmed("/=:") == "/=:" && RightTrimmed("/=:") == "/=:";
    assert LeftTrimmed("=:") == "=:" && RightTrimmed("=:") == "=:";
  }

  lemma TokensExample()
    ensures Tokens("/=:", '/') == ["=:"]
  {
    FirstToken("=:", "", '/');
    assert "/=:"[1..] == "=:" == "=:" + "";
  }

  /** A path that loses its slash: a slash and a drive written with an equals sign. */
  lemma LosesSlashExample()
    ensures Valid("/=:") && LosesSlash("/=:") && Printed(Parsed("/=:")) == "=:" && !Valid("=:")
  {
    TrimmedExample();
    TokensExample();
    hide Trimmed, Tokens;
  }
}

/** Queries of URIs (src/URI.cc, URIQuery). */
module UriQueries {
  import opened Tokenizing
  import opened Texts

  predicate Valid(s: string) {
    var t := Trimmed(s);
    t == "" || (t[0] == '?' && Over(t[1..], QueryChars))
  }

  /** A key and a value, which is empty when there is none. */
  datatype Entry = Entry(key: string, value: string)

  /** What one stretch between ampersands means: only exactly two tokens around equals signs are a key and a value. */
  function EntryOf(query: string): Entry {
    var values := Tokens(query, '=');
    if |values| == 2 then Entry(values[0], values[1]) else Entry(query, "")
  }

  function EntriesOf(queries: seq<string>): (r: seq<Entry>)
    ensures |r| == |queries| && forall k :: 0 <= k < |r| ==> r[k] == EntryOf(queries[k])
  {
    seq(|queries|, k requires 0 <= k < |queries| => EntryOf(queries[k]))
  }

  function Piece(e: Entry): string {
    if e.value != "" then e.key + "=" + e.value else e.key
  }

  function Pieces(es: seq<Entry>): (r: seq<string>)
    ensures |r| == |es| && forall k :: 0 <= k < |r| ==> r[k] == Piece(es[k])
  {
    seq(|es|, k requires 0 <= k < |es| => Piece(es[k]))
  }

  /** What a valid string parses to. */
  function Parsed(s: string): seq<Entry> {
    if s == "" then [] else EntriesOf(Tokens(s[1..], '&'))
  }

  /** What is printed, entry by entry: a delimiter goes in front of each but while nothing is there yet. */
  function Appended(es: seq<Entry>, delim: string): string {
    if es == [] then "?"
    else
      var r := Appended(es[..|es| - 1], delim);
      (if r != "?" then r + delim else r) + Piece(es[|es| - 1])
  }

  /** What entries with keys print. */
  function Printed(es: seq<Entry>, delim: string := "&"): string {
    if es == [] then "" else "?" + Join(Pieces(es), delim)
  }

  predicate HasKeys(es: seq<Entry>) {
    forall k :: 0 <= k < |es| ==> es[k].key != ""
  }

  class URIQuery {
    var values: seq<Entry>

    constructor ()
      ensures values == []
    {
      values := [];
    }

    method Insert(key: string, value: string)
      modifies this
      ensures values == old(values) + [Entry(key, value)]
    {
      values := values + [Entry(key, value)];
    }

    method Clear()
      modifies this
      ensures values == []
    {
      values := [];
    }

    /** Prints the entries one after the other. */
    method Str(delim: string) returns (result: string)
      ensures result == if values == [] then "" else Appended(values, delim)
    {
      hide Appended;
      if values == [] {
        return "";
      }
      result := "?";
      AppendedNone(delim);
      for i := 0 to |values|
        invariant result == Appended(values[..i], delim)
      {
        if result != "?" {
          result := result + delim;
        }
        if values[i].value != "" {
          result := result + values[i].key + "=" + values[i].value;
        } else {
          result := result + values[i].key;
        }
        AppendedNext(values, i, delim);
      }
      assert values[..|values|] == values;
    }

    method Parse(s: string) returns (ok: bool)
      modifies this
      ensures ok == Valid(s)
      ensures values == if ok then Parsed(s) else old(values)
    {
      hide Valid, Tokens;
      ok := Valid(s);
      if !ok {
        return;
      }
      Clear();
      if s != "" {
        var queries := Split(s[1..], '&');
        for i := 0 to |queries|
          invariant values == EntriesOf(queries[..i])
        {
          var tokens := Split(queries[i], '=');
          if |tokens| == 2 {
            Insert(tokens[0], tokens[1]);
          } else {
            Insert(queries[i], "");
          }
          assert values == EntriesOf(queries[..i + 1]);
        }
        assert queries[..|queries|] == queries;
      }
    }
  }

  lemma AppendedNext(es: seq<Entry>, i: nat, delim: string)
    requires i < |es|
    ensures var r := Appended(es[..i], delim);
      Appended(es[..i + 1], delim) == (if r != "?" then r + delim else r) + Piece(es[i])
  {
    assert es[..i + 1][..i] == es[..i];
  }

  lemma AppendedNone(delim: string)
    ensures Appended([], delim) == "?" && Join(Pieces([]), delim) == ""
  {
  }

  /** The pieces from the first one on that is not empty. */
  function FromFirst(ps: seq<string>): (r: seq<string>)
    ensures r != [] ==> r[0] != ""
  {
    if ps != [] && ps[0] == "" then FromFirst(ps[1..]) else ps
  }

  lemma {:induction false} FromFirstAppend(ps: seq<string>, p: string)
    ensures FromFirst(ps + [p]) == if FromFirst(ps) == [] then FromFirst([p]) else FromFirst(ps) + [p]
  {
    if ps == [] {
      assert ps + [p] == [p];
    } else {
      assert (ps + [p])[1..] == ps[1..] + [p];
      FromFirstAppend(ps[1..], p);
    }
  }

  /** Entries are printed with the delimiter between them, but for empty ones in front, which are not there at all. */
  lemma {:induction false} AppendedIs(es: seq<Entry>, delim: string)
    ensures Appended(es, delim) == "?" + Join(FromFirst(Pieces(es)), delim)
  {
    hide Join, Appended, Piece, FromFirst, Pieces;
    AppendedNone(delim);
    if es == [] {
      NothingFirst();
    } else {
      var n := |es| - 1;
      var ps, p := Pieces(es[..n]), Piece(es[n]);
      AppendedIs(es[..n], delim);
      AppendedNext(es, n, delim);
      PiecesNext(es);
      assert es[..n + 1] == es;
      FromFirstAppend(ps, p);
      JoinAppend(FromFirst(ps), p, delim);
      OnePiece(p, delim);
      JoinNone(delim);
      var j := Join(FromFirst(ps), delim);
      if FromFirst(ps) != [] {
        JoinNotEmpty(FromFirst(ps), delim);
        assert "?" + (j + delim + p) == "?" + j + delim + p;
      } else {
        assert "?" + j == "?";
      }
    }
  }

  lemma PiecesNext(es: seq<Entry>)
    requires es != []
    ensures var n := |es| - 1; Pieces(es) == Pieces(es[..n]) + [Piece(es[n])]
  {
  }

  lemma NothingFirst()
    ensures FromFirst([]) == [] && Pieces([]) == []
  {
  }

  lemma OnePiece(p: string, delim: string)
    ensures Join(FromFirst([p]), delim) == p
  {
  }

  lemma {:induction false} FromFirstIsShorter(ps: seq<string>, delim: string)
    ensures |Join(FromFirst(ps), delim)| <= |Join(ps, delim)|
  {
    if ps != [] {
      FromFirstIsShorter(ps[1..], delim);
    }
  }

  /** All pieces are printed, with the delimiter between them, exactly when the first is not empty or nothing is missed. */
  lemma AppendedIsPrinted(es: seq<Entry>, delim: string)
    ensures Appended(es, delim) == "?" + Join(Pieces(es), delim) <==>
            |es| <= 1 || delim == "" || es[0] != Entry("", "")
  {
    var ps := Pieces(es);
    AppendedIs(es, delim);
    if |es| > 1 && ps[0] == "" {
      FromFirstIsShorter(ps[1..], delim);
      if delim == "" {
        NoDelimiter(ps);
      }
    }
  }

  lemma {:induction false} NoDelimiter(ps: seq<string>)
    ensures Join(FromFirst(ps), "") == Join(ps, "")
  {
    if ps != [] {
      NoDelimiter(ps[1..]);
    }
  }

  lemma JoinNotEmpty(ts: seq<string>, delim: string)
    requires ts != [] && ts[0] != ""
    ensures Join(ts, delim) != ""
  {
  }

  // -------- reading back what is printed --------

  /** An entry's text is read as the same entry. */
  lemma EntryReadBack(query: string)
    requires query != "" && '&' !in query
    ensures Piece(EntryOf(query)) != "" && '&' !in Piece(EntryOf(query))
    ensures EntryOf(Piece(EntryOf(query))) == EntryOf(query)
  {
    var values := Tokens(query, '=');
    if |values| == 2 {
      TokensAreParts(query, '=');
      assert Join(values, "=") == values[0] + "=" + values[1] by { assert values[1..] == [values[1]]; }
      SplitOfJoin(values, '=', false, false);
      assert "" + Join(values, "=") + "" == Piece(EntryOf(query));
    }
  }

  /** Every parsed query prints as a text that parses to the same entries, and so prints the same text again. */
  lemma ReadBack(s: string)
    ensures HasKeys(Parsed(s))
    ensures Parsed(Printed(Parsed(s))) == Parsed(s)
  {
    var es := Parsed(s);
    if es != [] {
      var queries, pieces := Tokens(s[1..], '&'), Pieces(es);
      forall k | 0 <= k < |queries|
        ensures es[k].key != "" && pieces[k] != "" && '&' !in pieces[k] && EntryOf(pieces[k]) == es[k]
      {
        EntryReadBack(queries[k]);
      }
      SplitOfJoin(pieces, '&', false, false);
      assert "" + Join(pieces, "&") + "" == Printed(es)[1..];
      assert EntriesOf(pieces) == es;
    }
  }

  // -------- when the printed form is valid --------

  lemma {:induction false} CleanCat(t: string, rest: string)
    requires Over(t, QueryChars)
    ensures Clean(rest, QueryChars) ==> Clean(t + rest, QueryChars)
  {
    if t == "" {
      assert t + rest == rest;
    } else {
      assert (t + rest)[1..] == t[1..] + rest;
      CleanCat(t[1..], rest);
    }
  }

  lemma {:induction false} CleanSplit(t: string, rest: string)
    requires Clean(t + rest, QueryChars) && !Blank(rest)
    ensures Over(t, QueryChars) && Clean(rest, QueryChars)
  {
    assert !Blank(t + rest) by { assert forall k :: 0 <= k < |rest| ==> rest[k] == (t + rest)[|t| + k]; }
    if t == "" {
      assert t + rest == rest;
    } else {
      assert (t + rest)[1..] == t[1..] + rest;
      CleanSplit(t[1..], rest);
    }
  }

  /** All but the last are over the alphabet, and the last is clean. */
  predicate CleanList(ts: seq<string>) {
    forall k :: 0 <= k < |ts| ==> if k < |ts| - 1 then Over(ts[k], QueryChars) else Clean(ts[k], QueryChars)
  }

  lemma OverIsClean(t: string)
    requires Over(t, QueryChars)
    ensures Clean(t, QueryChars)
  {
    CleanCat(t, "");
    assert t + "" == t;
  }

  lemma TokensCases(u: string, d: char)
    requires u != ""
    ensures u[0] == d ==> Tokens(u, d) == Tokens(u[1..], d)
    ensures u[0] != d ==> 0 < Run(u, d) && Tokens(u, d) == [u[..Run(u, d)]] + Tokens(u[Run(u, d)..], d)
  {
  }

  lemma CleanCases(u: string, d: char)
    requires u != "" && Clean(u, QueryChars) && u[0] == d && (d == '&' || d == '=')
    ensures Clean(u[1..], QueryChars) && !Blank(u)
  {
  }

  lemma CleanListCons(t: string, ts: seq<string>)
    requires CleanList(ts) && Clean(t, QueryChars) && (ts != [] ==> Over(t, QueryChars))
    ensures CleanList([t] + ts)
  {
    hide Clean, Over;
  }

  lemma DelimiterIsNotBlank(u: string, d: char)
    requires u != "" && u[0] == d && (d == '&' || d == '=')
    ensures !Blank(u)
  {
  }

  lemma {:induction false} TokensAreClean(u: string, d: char)
    requires Clean(u, QueryChars) && (d == '&' || d == '=')
    ensures CleanList(Tokens(u, d))
    decreases |u|
  {
    hide Tokens, Clean, CleanList, Blank, Run;
    NoTokens(d);
    NothingIsClean();
    if u == "" {
    } else if u[0] == d {
      TokensCases(u, d);
      CleanCases(u, d);
      TokensAreClean(u[1..], d);
    } else {
      TokensCases(u, d);
      var t, rest := u[..Run(u, d)], u[Run(u, d)..];
      assert u == t + rest;
      if rest == "" {
        assert t == u;
      } else {
        DelimiterIsNotBlank(rest, d);
        CleanSplit(t, rest);
        OverIsClean(t);
        TokensAreClean(rest, d);
      }
      CleanListCons(t, Tokens(rest, d));
    }
  }

  lemma NothingIsClean()
    ensures CleanList([])
  {
  }

  lemma {:induction false} JoinIsClean(ts: seq<string>, d: char)
    requires CleanList(ts) && (d == '&' || d == '=')
    ensures Clean(Join(ts, [d]), QueryChars)
  {
    if |ts| > 1 {
      JoinIsClean(ts[1..], d);
      CleanCat([d], Join(ts[1..], [d]));
      CleanCat(ts[0], [d] + Join(ts[1..], [d]));
      assert Join(ts, [d]) == ts[0] + ([d] + Join(ts[1..], [d]));
    }
  }

  lemma PairIsJoin(values: seq<string>)
    requires |values| == 2
    ensures Join(values, "=") == values[0] + "=" + values[1]
  {
    assert values[1..] == [values[1]];
  }

  lemma PieceIsClean(t: string)
    requires Clean(t, QueryChars)
    ensures Clean(Piece(EntryOf(t)), QueryChars)
  {
    hide Clean;
    var values := Tokens(t, '=');
    if |values| == 2 {
      PairIsJoin(values);
      TokensAreClean(t, '=');
      JoinIsClean(values, '=');
    }
  }

  lemma PieceIsOver(t: string)
    requires Over(t, QueryChars)
    ensures Over(Piece(EntryOf(t)), QueryChars)
  {
    var values := Tokens(t, '=');
    TokensAreParts(t, '=');
    if |values| == 2 {
      forall k | 0 <= k < 2 ensures Over(values[k], QueryChars) {
        forall i | 0 <= i < |values[k]| ensures Allowed(values[k][i], QueryChars) {
          assert values[k][i] in values[k] && values[k][i] in t;
        }
      }
    }
  }

  lemma PrintedIsClean(u: string)
    requires Clean(u, QueryChars)
    ensures Clean(Join(Pieces(EntriesOf(Tokens(u, '&'))), "&"), QueryChars)
  {
    var ts := Tokens(u, '&');
    TokensAreClean(u, '&');
    forall k | 0 <= k < |ts|
      ensures Clean(ts[k], QueryChars) ==> Clean(Piece(EntryOf(ts[k])), QueryChars)
      ensures Over(ts[k], QueryChars) ==> Over(Piece(EntryOf(ts[k])), QueryChars)
    {
      if Clean(ts[k], QueryChars) {
        PieceIsClean(ts[k]);
      }
      if Over(ts[k], QueryChars) {
        PieceIsOver(ts[k]);
      }
    }
    JoinIsClean(Pieces(EntriesOf(ts)), '&');
  }

  /** White space, and then a question mark. */
  predicate BlankThenMark(u: string) {
    u != "" && IsSpace(u[0]) && LeftTrimmed(u) != "" && LeftTrimmed(u)[0] == '?'
  }

  lemma {:induction false} BlankThenMarkStays(u: string, more: string)
    requires LeftTrimmed(u) != "" && LeftTrimmed(u)[0] == '?'
    ensures LeftTrimmed(u + more) != "" && LeftTrimmed(u + more)[0] == '?'
  {
    if IsSpace(u[0]) {
      assert (u + more)[1..] == u[1..] + more;
      BlankThenMarkStays(u[1..], more);
    }
  }

  lemma {:induction false} BlankThenMarkRun(u: string, d: char)
    requires LeftTrimmed(u) != "" && LeftTrimmed(u)[0] == '?' && (d == '&' || d == '=')
    ensures
      var t := u[..Run(u, d)];
      LeftTrimmed(t) != "" && LeftTrimmed(t)[0] == '?'
  {
    var t := u[..Run(u, d)];
    if IsSpace(u[0]) {
      BlankThenMarkRun(u[1..], d);
      assert t[1..] == u[1..][..Run(u[1..], d)];
    }
  }

  lemma FirstIsPrefix(u: string, d: char)
    requires BlankThenMark(u) && (d == '&' || d == '=')
    ensures Tokens(u, d) != [] && BlankThenMark(Tokens(u, d)[0])
  {
    BlankThenMarkRun(u, d);
    assert Tokens(u, d)[0] == u[..Run(u, d)];
  }

  lemma KeyStartsBlank(t: string)
    requires BlankThenMark(t)
    ensures BlankThenMark(Piece(EntryOf(t)))
  {
    hide Tokens, LeftTrimmed, IsSpace;
    var values := Tokens(t, '=');
    if |values| == 2 {
      FirstIsPrefix(t, '=');
      BlankThenMarkStays(values[0], "=" + values[1]);
      assert Piece(EntryOf(t)) == values[0] + ("=" + values[1]);
    }
  }

  lemma BlankIsNotClean(u: string)
    requires BlankThenMark(u)
    ensures !Clean(u, QueryChars)
  {
    LeftTrimmedIsEmpty(u);
    hide LeftTrimmed;
  }

  lemma JoinHead(ts: seq<string>, delim: string)
    requires ts != []
    ensures Join(ts, delim) == ts[0] + (if |ts| == 1 then "" else delim + Join(ts[1..], delim))
  {
  }

  /** White space in front of the question mark is kept in the first key, and then the printed form is refused. */
  lemma BlankIsPrinted(u: string)
    requires BlankThenMark(u)
    ensures Tokens(u, '&') != [] && !Clean(Join(Pieces(EntriesOf(Tokens(u, '&'))), "&"), QueryChars)
  {
    FirstIsPrefix(u, '&');
    var ts := Tokens(u, '&');
    KeyStartsBlank(ts[0]);
    hide Tokens, Join, LeftTrimmed, Clean;
    var pieces := Pieces(EntriesOf(ts));
    JoinHead(pieces, "&");
    BlankThenMarkStays(pieces[0], if |pieces| == 1 then "" else "&" + Join(pieces[1..], "&"));
    BlankIsNotClean(Join(pieces, "&"));
  }

  lemma MarkedIsValid(rest: string)
    ensures Valid("?" + rest) <==> Clean(rest, QueryChars)
  {
    var s := "?" + rest;
    assert s[1..] == rest && !IsSpace(s[0]) && !Blank(s);
    RightTrimmedHead(s);
    RightTrimmedIsClean(rest, QueryChars);
    assert Trimmed(s)[1..] == RightTrimmed(rest);
  }

  /** More than one white space character in front of the question mark. */
  predicate BlankInFront(s: string) {
    |s| >= 2 && IsSpace(s[0]) && IsSpace(s[1]) && !Blank(s)
  }

  /** Which valid strings print as valid strings again: all but those with two blanks or more in front. */
  lemma PrintedIsValid(s: string)
    requires Valid(s)
    ensures Valid(Printed(Parsed(s))) <==> !BlankInFront(s)
  {
    TrimmedIsClean(s, QueryChars);
    LeftTrimmedIsEmpty(s);
    if s == "" {
      assert Trimmed("") == "";
    } else {
      var u := s[1..];
      ValidIsClean(s);
      if BlankInFront(s) {
        BlankIsPrinted(u);
      } else {
        PrintedIsClean(u);
      }
      if Parsed(s) != [] {
        MarkedIsValid(Join(Pieces(Parsed(s)), "&"));
      }
    }
  }

  lemma ValidIsClean(s: string)
    requires Valid(s) && s != ""
    ensures BlankInFront(s) ==> BlankThenMark(s[1..])
    ensures !BlankInFront(s) ==> Clean(s[1..], QueryChars)
  {
    LeftTrimmedIsEmpty(s);
    if !Blank(s) {
      var c := LeftTrimmed(s);
      TrimmedIsClean(s, QueryChars);
      assert c == "?" + c[1..];
      RightTrimmedHead(c);
      RightTrimmedIsClean(c[1..], QueryChars);
      assert Trimmed(s)[1..] == RightTrimmed(c[1..]);
      assert Clean(c[1..], QueryChars) && Clean(c, QueryChars);
    }
  }
}
