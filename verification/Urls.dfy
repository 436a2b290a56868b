/** Scrape URLs: normalisation, the printed form that keys a source row, and the
    extraction of a page's internal links. Parsing and reference resolution
    (section 5.2 of RFC 3986) are library calls, so this module starts from
    parsed, absolute URLs. */
module Urls {
  import opened Text
  import opened Listing
  import opened Options
  import opened Percent

  /** A parsed URL with an authority. `path` is the decoded path; `rawPath` is the encoded
      path as it was written, and empty when that is how `path` would be printed anyway. */
  datatype Url = Url(
    scheme: string,
    user: Option<string>,
    host: string,
    path: string,
    rawPath: string,
    forceQuery: bool,
    rawQuery: string,
    fragment: string)

  // ---- percent-encoding of hosts and paths --------------------------------

  const MARKS: set<char> := {'-', '_', '.', '~'}
  const PATH_MARKS: set<char> := {'$', '&', '+', ',', '/', ':', ';', '=', '@'}
  const LEFT_IN_PATH: set<char> := {'!', '\'', '(', ')', '*', '[', ']', '%'}
  const HOST_MARKS: set<char> := {'!', '$', '&', '\'', '(', ')', '*', '+', ',', ';', '=', ':', '[', ']', '<', '>', '"'}

  predicate IsUnreserved(c: char) {
    'a' <= c <= 'z' || 'A' <= c <= 'Z' || '0' <= c <= '9' || c in MARKS
  }

  predicate KeptInPath(c: char) {
    IsUnreserved(c) || c in PATH_MARKS
  }

  predicate KeptInHost(c: char) {
    IsUnreserved(c) || c in HOST_MARKS
  }

  function EscapePath(path: string): string {
    EscapeWith(KeptInPath, path)
  }

  function EscapeHost(host: string): string {
    EscapeWith(KeptInHost, host)
  }

  /** A character an encoded path may have: more than the printer itself would leave alone. */
  predicate LeftInPath(c: char) {
    KeptInPath(c) || c in LEFT_IN_PATH
  }

  predicate ValidEncoded(raw: string) {
    forall i :: 0 <= i < |raw| ==> LeftInPath(raw[i])
  }

  /** The path a parser gets out of a text: decoded, with the text kept beside it only if
      the printer would write something else. */
  function SetPath(text: string): Option<(string, string)> {
    var p := Unescape(text);
    if p.None? then None else Some((p.value, if EscapePath(p.value) == text then "" else text))
  }

  /** The path as printed: the written form as long as it is valid and still means the
      path, else the path encoded anew. */
  function EscapedPath(u: Url): string {
    if u.rawPath != "" && ValidEncoded(u.rawPath) && Unescape(u.rawPath) == Some(u.path)
    then u.rawPath else EscapePath(u.path)
  }

  ghost predicate Rooted(p: string) {
    p == "" || p[0] == '/'
  }

  /** What the parser guarantees of every URL it returns. */
  ghost predicate WellFormed(u: Url) {
    && Rooted(u.path) && Rooted(u.rawPath)
    && (u.rawPath != "" ==> Unescape(u.rawPath) == Some(u.path) && u.rawPath != EscapePath(u.path))
  }

  lemma EscapeSlash(path: string)
    requires path != "" && path[0] == '/'
    ensures EscapePath(path) != "" && EscapePath(path)[0] == '/'
  {
    assert EscapeChar(KeptInPath, '/') == ['/'];
  }

  lemma RootedText(text: string)
    requires text != "" && text[0] == '/' && Unescape(text).Some?
    ensures Unescape(text).value != "" && Unescape(text).value[0] == '/'
  {
    assert FirstChar(text) == Some(Read('/', 1));
  }

  /** Whatever the rest of a URL is, the path the parser sets is well-formed. */
  lemma ParsedPathWellFormed(u: Url, text: string)
    requires Rooted(text) && SetPath(text).Some?
    ensures var p := SetPath(text).value; WellFormed(u.(path := p.0, rawPath := p.1))
  {
    if text == "" {
      assert Unescape("") == Some("") && EscapePath("") == "";
    } else {
      RootedText(text);
    }
  }

  lemma EscapePathValid(path: string)
    ensures ValidEncoded(EscapePath(path))
  {
    forall i | 0 <= i < |EscapePath(path)| ensures LeftInPath(EscapePath(path)[i]) {
      EscapedChars(KeptInPath, path, i);
    }
  }

  /** The printed path is a valid encoding of the path. */
  lemma EscapedPathFacts(u: Url)
    requires u.path != "" && u.path[0] == '/' && Rooted(u.rawPath)
    ensures var e := EscapedPath(u);
            e != "" && e[0] == '/' && ValidEncoded(e) && Unescape(e) == Some(u.path)
  {
    EscapeSlash(u.path);
    EscapePathValid(u.path);
    UnescapeEscaped(KeptInPath, u.path);
  }

  // ---- ASCII case -------------------------------------------------------

  function LowerChar(c: char): char {
    if 'A' <= c <= 'Z' then c + 'a' - 'A' else c
  }

  function ToLower(s: string): (t: string)
    ensures |t| == |s|
    ensures forall i :: 0 <= i < |s| ==> t[i] == LowerChar(s[i])
  {
    seq(|s|, i requires 0 <= i < |s| => LowerChar(s[i]))
  }

  const DIGITS: set<char> := {'0', '1', '2', '3', '4', '5', '6', '7', '8', '9'}

  function StripPort(host: string): string {
    var t := TrimRight(host, DIGITS);
    if t != "" && t[|t| - 1] == ':' then t[..|t| - 1] else host
  }

  function StripBrackets(h: string): string {
    if |h| >= 2 && h[0] == '[' && h[|h| - 1] == ']' then h[1..|h| - 1] else h
  }

  /** The host without an optional numeric port and without IPv6 brackets. */
  function Hostname(host: string): string {
    StripBrackets(StripPort(host))
  }

  // ---- normalisation ----------------------------------------------------

  function TrimPath(path: string): string {
    var p := if path == "" then "/" else path;
    if |p| > 1 then
      var t := TrimRight(p, {'/'});
      if t == "" then "/" else t
    else p
  }

  function CanonHost(host: string): string {
    ToLower(Trim(host, GO_SPACE))
  }

  /** The URL with another host and path, and without user, query text and fragment. */
  function Bare(u: Url, host: string, path: string): Url {
    u.(user := None, host := host, path := path, rawQuery := "", fragment := "")
  }

  function Normalize(parsed: Option<Url>): Option<Url> {
    if parsed.None? || (parsed.value.scheme != "http" && parsed.value.scheme != "https") then None
    else Some(Bare(parsed.value, CanonHost(parsed.value.host), TrimPath(parsed.value.path)))
  }

  method NormalizeScrapeURL(parsed: Option<Url>) returns (r: Option<Url>)
    ensures r == Normalize(parsed)
  {
    if parsed.None? || (parsed.value.scheme != "http" && parsed.value.scheme != "https") {
      return None;
    }
    var u := parsed.value;
    u := u.(fragment := "");
    u := u.(rawQuery := "");
    u := u.(user := None);
    u := u.(host := ToLower(Trim(u.host, GO_SPACE)));
    if u.path == "" {
      u := u.(path := "/");
    }
    if |u.path| > 1 {
      u := u.(path := TrimRight(u.path, {'/'}));
      if u.path == "" {
        u := u.(path := "/");
      }
    }
    return Some(u);
  }

  ghost predicate IsLower(s: string) {
    forall i :: 0 <= i < |s| ==> !('A' <= s[i] <= 'Z')
  }

  /** The normal form: what every stored source URL and every crawled URL looks like. */
  ghost predicate IsNormal(u: Url) {
    && (u.scheme == "http" || u.scheme == "https")
    && u.user == None && u.rawQuery == "" && u.fragment == ""
    && IsLower(u.host) && IsBare(u.host, GO_SPACE)
    && u.path != "" && u.path[0] == '/' && Rooted(u.rawPath)
    && (u.path == "/" || u.path[|u.path| - 1] != '/')
  }

  lemma LowerIff(s: string)
    ensures IsLower(s) <==> ToLower(s) == s
  {
    if ToLower(s) == s {
      forall i | 0 <= i < |s| ensures !('A' <= s[i] <= 'Z') {
        assert ToLower(s)[i] == LowerChar(s[i]);
      }
    }
  }

  lemma LowerIsLower(s: string)
    ensures IsLower(ToLower(s))
  {
    forall i | 0 <= i < |s| ensures !('A' <= ToLower(s)[i] <= 'Z') {
      assert ToLower(s)[i] == LowerChar(s[i]);
    }
  }

  lemma LowerCharSpace(c: char)
    ensures LowerChar(c) in GO_SPACE <==> c in GO_SPACE
  {
    assert LowerChar(c) in GO_SPACE <==> IsSpace(LowerChar(c));
  }

  lemma LowerBare(s: string)
    ensures IsBare(ToLower(s), GO_SPACE) <==> IsBare(s, GO_SPACE)
  {
    if s != "" {
      LowerCharSpace(s[0]);
      LowerCharSpace(s[|s| - 1]);
    }
  }

  lemma CanonHostFacts(h: string)
    ensures IsLower(CanonHost(h)) && IsBare(CanonHost(h), GO_SPACE)
    ensures CanonHost(h) == h <==> IsLower(h) && IsBare(h, GO_SPACE)
    ensures IsBare(h, GO_SPACE) ==> CanonHost(h) == ToLower(h)
  {
    var t := Trim(h, GO_SPACE);
    TrimIsBare(h, GO_SPACE);
    TrimKeepsBare(h, GO_SPACE);
    LowerBare(t);
    LowerIsLower(t);
    LowerIff(h);
    LowerBare(h);
  }

  lemma TrimPathFacts(path: string)
    requires Rooted(path)
    ensures var p := TrimPath(path); p != "" && p[0] == '/' && (p == "/" || p[|p| - 1] != '/')
    ensures TrimPath(path) == path <==> path != "" && (path == "/" || path[|path| - 1] != '/')
  {
    if |path| > 1 {
      var t := TrimRight(path, {'/'});
      TrimRightCuts(path, {'/'});
      assert t == path <==> path[|path| - 1] != '/';
      assert t == "" || t[0] == path[0];
    }
  }

  lemma BareIff(u: Url, host: string, path: string)
    ensures Bare(u, host, path) == u <==>
            u.user == None && u.rawQuery == "" && u.fragment == "" && host == u.host && path == u.path
  {
  }

  /** Normalisation reaches the normal form and moves nothing that is already in it. */
  lemma NormalFormIff(u: Url)
    requires Rooted(u.path) && Rooted(u.rawPath)
    ensures Normalize(Some(u)) == Some(u) <==> IsNormal(u)
    ensures Normalize(Some(u)).Some? <==> u.scheme == "http" || u.scheme == "https"
    ensures Normalize(Some(u)).Some? ==> IsNormal(Normalize(Some(u)).value)
  {
    CanonHostFacts(u.host);
    TrimPathFacts(u.path);
    BareIff(u, CanonHost(u.host), TrimPath(u.path));
  }

  /** Normalising twice is normalising once. */
  lemma NormalizeIdempotent(u: Url)
    requires WellFormed(u)
    ensures Normalize(Normalize(Some(u))) == Normalize(Some(u))
  {
    NormalFormIff(u);
    if Normalize(Some(u)).Some? { NormalFormIff(Normalize(Some(u)).value); }
  }

  // ---- the printed form -------------------------------------------------

  function Mark(u: Url): string {
    if u.forceQuery then "?" else ""
  }

  function AfterHost(u: Url): string {
    EscapedPath(u) + Mark(u)
  }

  function AfterScheme(u: Url): string {
    "://" + (EscapeHost(u.host) + AfterHost(u))
  }

  /** The text of a URL without user, query text and fragment; a bare "?" is kept. */
  function Print(u: Url): string {
    u.scheme + AfterScheme(u)
  }

  /** The URL a parser gets out of the printed text. */
  function Reparsed(u: Url): Url {
    var e := EscapedPath(u);
    u.(rawPath := if e == EscapePath(u.path) then "" else e)
  }

  lemma {:induction false} KeptStays(kept: char -> bool, s: string)
    requires forall i :: 0 <= i < |s| ==> kept(s[i])
    ensures EscapeWith(kept, s) == s
  {
    if s == "" {
    } else {
      KeptStays(kept, s[1..]);
      assert s == [s[0]] + s[1..];
    }
  }

  /** A plain URL is printed as it stands. */
  lemma PlainUrlPrints(u: Url)
    requires u.rawPath == ""
    requires forall i :: 0 <= i < |u.host| ==>
               var c := u.host[i]; 'a' <= c <= 'z' || '0' <= c <= '9' || c == '-' || c == '.' || c == ':'
    requires forall i :: 0 <= i < |u.path| ==>
               var c := u.path[i];
               'a' <= c <= 'z' || 'A' <= c <= 'Z' || '0' <= c <= '9' || c == '-' || c == '_' || c == '.' || c == '~' || c == '/'
    ensures Print(u) == u.scheme + ("://" + (u.host + (u.path + if u.forceQuery then "?" else "")))
  {
    forall i | 0 <= i < |u.host| ensures KeptInHost(u.host[i]) {
    }
    forall i | 0 <= i < |u.path| ensures KeptInPath(u.path[i]) {
    }
    KeptStays(KeptInHost, u.host);
    KeptStays(KeptInPath, u.path);
  }

  lemma CutUnique(a: string, b: string, c: string, d: string, mark: char)
    requires a + b == c + d
    requires mark !in a && mark !in c
    requires (b == "" || b[0] == mark) && (d == "" || d[0] == mark)
    ensures a == c && b == d
  {
    WordLengthIs(a, b, {mark});
    WordLengthIs(c, d, {mark});
    assert a == (a + b)[..|a|] && c == (c + d)[..|a|];
    assert b == (a + b)[|a|..] && d == (c + d)[|a|..];
  }

  lemma SchemeUnique(s: string, r: string, t: string, q: string)
    requires s + r == t + q
    requires (s == "http" || s == "https") && (t == "http" || t == "https")
    requires r != "" && q != "" && r[0] == ':' && q[0] == ':'
    ensures s == t && r == q
  {
    assert (s + r)[4] == (if s == "http" then r[0] else 's');
    assert (t + q)[4] == (if t == "http" then q[0] else 's');
    assert r == (s + r)[|s|..] && q == (t + q)[|t|..];
  }

  lemma HostHasNoSlash(host: string)
    ensures '/' !in EscapeHost(host)
  {
    var e := EscapeHost(host);
    if '/' in e {
      var i :| 0 <= i < |e| && e[i] == '/';
      EscapedChars(KeptInHost, host, i);
    }
  }

  lemma PathHasNoMark(e: string)
    requires ValidEncoded(e)
    ensures '?' !in e
  {
    assert !LeftInPath('?');
  }

  lemma AfterHostUnique(u: Url, v: Url)
    requires IsNormal(u) && IsNormal(v) && AfterHost(u) == AfterHost(v)
    ensures u.path == v.path && EscapedPath(u) == EscapedPath(v) && u.forceQuery == v.forceQuery
  {
    EscapedPathFacts(u);
    EscapedPathFacts(v);
    PathHasNoMark(EscapedPath(u));
    PathHasNoMark(EscapedPath(v));
    CutUnique(EscapedPath(u), Mark(u), EscapedPath(v), Mark(v), '?');
  }

  lemma AfterSchemeUnique(u: Url, v: Url)
    requires IsNormal(u) && IsNormal(v) && AfterScheme(u) == AfterScheme(v)
    ensures u.host == v.host && AfterHost(u) == AfterHost(v)
  {
    var hu, hv := EscapeHost(u.host) + AfterHost(u), EscapeHost(v.host) + AfterHost(v);
    assert hu == AfterScheme(u)[3..] && hv == AfterScheme(v)[3..];
    EscapedPathFacts(u);
    EscapedPathFacts(v);
    HostHasNoSlash(u.host);
    HostHasNoSlash(v.host);
    CutUnique(EscapeHost(u.host), AfterHost(u), EscapeHost(v.host), AfterHost(v), '/');
    EscapeInjective(KeptInHost, u.host, v.host);
  }

  /** Printing is injective on normal URLs, up to the written form of the path: the key of a
      row determines scheme, host, path, the path's printed form and the bare "?". */
  lemma PrintInjective(u: Url, v: Url)
    requires IsNormal(u) && IsNormal(v)
    requires Print(u) == Print(v)
    ensures u.scheme == v.scheme && u.host == v.host && u.path == v.path && u.forceQuery == v.forceQuery
    ensures EscapedPath(u) == EscapedPath(v) && Reparsed(u) == Reparsed(v)
  {
    SchemeUnique(u.scheme, AfterScheme(u), v.scheme, AfterScheme(v));
    AfterSchemeUnique(u, v);
    AfterHostUnique(u, v);
  }

  // ---- which spellings share a row --------------------------------------

  /** The written form of a path survives normalisation if it is a valid encoding and no
      slash is trimmed off the path it stands for. */
  predicate KeepsSpelling(u: Url) {
    u.rawPath != "" && ValidEncoded(u.rawPath) && TrimPath(u.path) == u.path
  }

  /** What normalisation keeps of the written form. */
  function Spelling(u: Url): string {
    if KeepsSpelling(u) then u.rawPath else ""
  }

  lemma NormalPath(u: Url, n: Url)
    requires WellFormed(u) && Normalize(Some(u)) == Some(n)
    ensures EscapedPath(n) == if KeepsSpelling(u) then u.rawPath else EscapePath(TrimPath(u.path))
  {
  }

  /** Which spellings of a URL address one source row: same scheme, host up to case and
      outer blanks, the same bare question mark, and a path that is the same up to trailing
      slashes once decoded, provided what is kept of its written form is the same too. */
  lemma SameRowIff(u: Url, v: Url)
    requires WellFormed(u) && WellFormed(v)
    requires Normalize(Some(u)).Some? && Normalize(Some(v)).Some?
    ensures Print(Normalize(Some(u)).value) == Print(Normalize(Some(v)).value) <==>
            (u.scheme == v.scheme && CanonHost(u.host) == CanonHost(v.host) && u.forceQuery == v.forceQuery &&
             TrimPath(u.path) == TrimPath(v.path) && Spelling(u) == Spelling(v))
  {
    NormalFormIff(u);
    NormalFormIff(v);
    var nu, nv := Normalize(Some(u)).value, Normalize(Some(v)).value;
    NormalPath(u, nu);
    NormalPath(v, nv);
    if Print(nu) == Print(nv) { PrintInjective(nu, nv); }
  }

  /** A bare "?" survives normalisation, so two spellings without any query text
      can address two rows. */
  lemma BareQuestionMarkSplitsRows(u: Url)
    requires WellFormed(u) && Normalize(Some(u)).Some? && !u.forceQuery
    ensures Print(Normalize(Some(u)).value) != Print(Normalize(Some(u.(forceQuery := true))).value)
  {
    SameRowIff(u, u.(forceQuery := true));
  }

  /** The URL whose path is written with one more slash at the end. */
  function Slashed(u: Url): Url {
    u.(path := u.path + "/", rawPath := if u.rawPath == "" then "" else u.rawPath + "/")
  }

  lemma EscapePathSlash(path: string)
    ensures EscapePath(path + "/") == EscapePath(path) + "/"
  {
    EscapeConcat(KeptInPath, path, "/");
    assert EscapeWith(KeptInPath, "") == "" && EscapePath("/") == "/";
  }

  lemma AppendCancels(s: string, t: string, c: char)
    ensures s + [c] == t + [c] <==> s == t
  {
    assert (s + [c])[..|s|] == s && (t + [c])[..|t|] == t;
  }

  /** Parsing the text of a path with a slash appended gives the slashed URL. */
  lemma SlashedIsParsed(u: Url, text: string)
    requires SetPath(text) == Some((u.path, u.rawPath)) && Rooted(text)
    ensures SetPath(text + "/") == Some((Slashed(u).path, Slashed(u).rawPath))
  {
    UnescapeAppend(text, '/');
    EscapePathSlash(u.path);
    AppendCancels(EscapePath(u.path), text, '/');
    assert Unescape("") == Some("") && EscapePath("") == "";
  }

  lemma SlashedWellFormed(u: Url)
    requires WellFormed(u)
    ensures WellFormed(Slashed(u))
    ensures TrimPath(Slashed(u).path) == TrimPath(u.path) && !KeepsSpelling(Slashed(u))
  {
    EscapePathSlash(u.path);
    AppendCancels(EscapePath(u.path), u.rawPath, '/');
    if u.rawPath != "" { UnescapeAppend(u.rawPath, '/'); RootedText(u.rawPath); }
    var p := u.path + "/";
    TrimRightUnique(u.path, "/", {'/'});
    TrimPathFacts(p);
    assert p[|p| - 1] == '/';
  }

  /** A slash at the end leads to another row exactly when the path has a written form that
      normalisation keeps: trimming the slash makes the path be encoded anew. */
  lemma AppendedSlashIff(u: Url)
    requires WellFormed(u) && Normalize(Some(u)).Some?
    ensures WellFormed(Slashed(u)) && Normalize(Some(Slashed(u))).Some?
    ensures Print(Normalize(Some(Slashed(u))).value) == Print(Normalize(Some(u)).value) <==> !KeepsSpelling(u)
  {
    SlashedWellFormed(u);
    SameRowIff(Slashed(u), u);
  }

  lemma {:induction false} UnescapePlain(s: string)
    requires '%' !in s
    ensures Unescape(s) == Some(s)
  {
    if s == "" {
    } else {
      assert FirstChar(s) == Some(Read(s[0], 1));
      UnescapePlain(s[1..]);
      assert s == [s[0]] + s[1..];
    }
  }

  lemma EscapePathStep(c: char, rest: string)
    ensures EscapePath([c] + rest) == EscapeChar(KeptInPath, c) + EscapePath(rest)
  {
    assert ([c] + rest)[1..] == rest;
  }

  lemma EscapedParentheses()
    ensures EscapeChar(KeptInPath, '(') == "%28" && EscapeChar(KeptInPath, ')') == "%29"
  {
    assert Utf8('(') == [0x28] && Utf8(')') == [0x29];
    assert Triplets([]) == "" && [0x28 as Byte][1..] == [] && [0x29 as Byte][1..] == [];
    assert Triplet(0x28) == "%28" && Triplet(0x29) == "%29";
  }

  lemma ParenthesesEscaped()
    ensures EscapePath("/a(b)") == "/a%28b%29"
  {
    EscapedParentheses();
    EscapePathStep('/', "a(b)");
    EscapePathStep('a', "(b)");
    EscapePathStep('(', "b)");
    EscapePathStep('b', ")");
    EscapePathStep(')', "");
    assert "/a(b)" == ['/'] + "a(b)" && "a(b)" == ['a'] + "(b)" && "(b)" == ['('] + "b)" && "b)" == ['b'] + ")";
  }

  lemma ParenthesesValid()
    ensures ValidEncoded("/a(b)") && TrimPath("/a(b)") == "/a(b)"
  {
    assert LeftInPath('/') && LeftInPath('a') && LeftInPath('b') && LeftInPath('(') && LeftInPath(')');
    TrimPathFacts("/a(b)");
  }

  lemma ParenthesesKept(u: Url)
    requires SetPath("/a(b)") == Some((u.path, u.rawPath))
    ensures u.path == "/a(b)" && u.rawPath == "/a(b)" && WellFormed(u) && KeepsSpelling(u)
  {
    ParenthesesEscaped();
    UnescapePlain("/a(b)");
    ParsedPathWellFormed(u, "/a(b)");
    ParenthesesValid();
  }

  lemma SlashedParentheses(u: Url)
    requires SetPath("/a(b)") == Some((u.path, u.rawPath))
    ensures SetPath("/a(b)/") == Some((Slashed(u).path, Slashed(u).rawPath))
  {
    SlashedIsParsed(u, "/a(b)");
    assert "/a(b)" + "/" == "/a(b)/";
  }

  /** What a URL with a slash appended is printed as: its path encoded anew. */
  lemma SlashedPrints(u: Url)
    requires WellFormed(u) && Normalize(Some(u)).Some?
    ensures Normalize(Some(Slashed(u))).Some?
    ensures EscapedPath(Normalize(Some(Slashed(u))).value) == EscapePath(TrimPath(u.path))
  {
    SlashedWellFormed(u);
    NormalPath(Slashed(u), Normalize(Some(Slashed(u))).value);
  }

  /** Parentheses are such a spelling: "/a(b)" keeps them, "/a(b)/" does not. */
  lemma ParenthesesSplitRows(u: Url)
    requires SetPath("/a(b)") == Some((u.path, u.rawPath)) && Normalize(Some(u)).Some?
    ensures SetPath("/a(b)/") == Some((Slashed(u).path, Slashed(u).rawPath)) && Normalize(Some(Slashed(u))).Some?
    ensures EscapedPath(Normalize(Some(u)).value) == "/a(b)"
    ensures EscapedPath(Normalize(Some(Slashed(u))).value) == "/a%28b%29"
  {
    ParenthesesKept(u);
    NormalPath(u, Normalize(Some(u)).value);
    SlashedParentheses(u);
    SlashedPrints(u);
    ParenthesesEscaped();
  }

  /** Parsing the printed text of a URL gives what `Reparsed` says, which is well-formed
      and is printed the same way. */
  lemma ReparsedIsParsed(u: Url)
    requires u.path != "" && u.path[0] == '/' && Rooted(u.rawPath)
    ensures SetPath(EscapedPath(u)) == Some((Reparsed(u).path, Reparsed(u).rawPath))
    ensures WellFormed(Reparsed(u)) && Print(Reparsed(u)) == Print(u)
  {
    EscapedPathFacts(u);
  }

  /** A key is the key of what it parses to: printing, parsing and normalising again changes
      nothing, so the crawler may start from the stored text. */
  lemma KeyIsStable(u: Url)
    requires WellFormed(u) && Normalize(Some(u)).Some?
    ensures var n := Normalize(Some(u)).value;
            WellFormed(Reparsed(n)) && Normalize(Some(Reparsed(n))) == Some(Reparsed(n)) && Print(Reparsed(n)) == Print(n)
  {
    NormalFormIff(u);
    var n := Normalize(Some(u)).value;
    ReparsedIsParsed(n);
    NormalFormIff(Reparsed(n));
  }

  /** Printing and parsing a URL before it is normalised does not change its key. */
  lemma ReparsedSharesRow(u: Url)
    requires WellFormed(u) && Normalize(Some(u)).Some?
    ensures Normalize(Some(Reparsed(u))).Some?
    ensures Print(Normalize(Some(Reparsed(u))).value) == Print(Normalize(Some(u)).value)
  {
    if u.path == "" {
      assert u.rawPath == "" by { assert Unescape("") == Some("") && EscapePath("") == ""; }
    } else {
      ReparsedIsParsed(u);
      SameRowIff(Reparsed(u), u);
    }
  }

  // ---- host filter ------------------------------------------------------

  lemma {:induction false} TrimRightLower(s: string)
    ensures TrimRight(ToLower(s), DIGITS) == ToLower(TrimRight(s, DIGITS))
  {
    if s == "" {
    } else {
      var n := |s| - 1;
      assert ToLower(s)[..n] == ToLower(s[..n]);
      assert LowerChar(s[n]) in DIGITS <==> s[n] in DIGITS;
      TrimRightLower(s[..n]);
    }
  }

  lemma StripPortLower(host: string)
    ensures StripPort(ToLower(host)) == ToLower(StripPort(host))
  {
    TrimRightLower(host);
    var t := TrimRight(host, DIGITS);
    var tl := ToLower(t);
    if t != "" {
      assert tl[|t| - 1] == LowerChar(t[|t| - 1]);
      assert tl[..|t| - 1] == ToLower(t[..|t| - 1]);
    }
  }

  lemma StripBracketsLower(h: string)
    ensures StripBrackets(ToLower(h)) == ToLower(StripBrackets(h))
  {
    if |h| >= 2 {
      assert ToLower(h)[0] == LowerChar(h[0]);
      assert ToLower(h)[|h| - 1] == LowerChar(h[|h| - 1]);
      assert ToLower(h)[1..|h| - 1] == ToLower(h[1..|h| - 1]);
    }
  }

  predicate AllDigits(s: string) {
    forall i :: 0 <= i < |s| ==> '0' <= s[i] <= '9'
  }

  lemma {:induction false} DigitsGo(s: string, port: string)
    requires AllDigits(port)
    ensures TrimRight(s + port, DIGITS) == TrimRight(s, DIGITS)
  {
    if port == "" {
      assert s + port == s;
    } else {
      var n := |port| - 1;
      assert (s + port)[..|s| + n] == s + port[..n] && (s + port)[|s| + n] == port[n];
      DigitsGo(s, port[..n]);
    }
  }

  /** A port goes, any digits and none; brackets go, with a port or without; a name alone stays. */
  lemma HostnameOf(name: string, port: string)
    requires name != "" && ':' !in name && name[0] != '[' && AllDigits(port)
    ensures Hostname(name) == name
    ensures Hostname(name + (":" + port)) == name
    ensures Hostname("[" + name + "]") == name && Hostname("[" + name + "]" + (":" + port)) == name
  {
    var b := "[" + name + "]";
    PortGoes(name, port);
    PortGoes(b, port);
    var t := TrimRight(name, DIGITS);
    assert t != "" ==> t[|t| - 1] == name[|t| - 1] && name[|t| - 1] in name;
    assert b[|b| - 1] == ']' && TrimRight(b, DIGITS) == b && StripPort(b) == b;
    assert b[1..|b| - 1] == name;
  }

  lemma PortGoes(host: string, port: string)
    requires AllDigits(port)
    ensures StripPort(host + (":" + port)) == host
  {
    Associate(host, ":", port);
    DigitsGo(host + ":", port);
    assert (host + ":")[|host|] == ':' && (host + ":")[..|host|] == host;
  }

  // ---- link extraction --------------------------------------------------

  const SKIPPED_EXTENSIONS: set<string> := {
    ".png", ".jpg", ".jpeg", ".gif", ".webp", ".svg", ".ico", ".bmp", ".tiff",
    ".css", ".js", ".map", ".woff", ".woff2", ".ttf", ".otf",
    ".pdf", ".zip", ".tar", ".gz", ".rar", ".7z",
    ".mp3", ".wav", ".ogg", ".mp4", ".mov", ".avi", ".webm"
  }

  /** The extension of the last path element, dot included. */
  function Ext(path: string): string {
    if path == "" || path[|path| - 1] == '/' then ""
    else if path[|path| - 1] == '.' then "."
    else
      var e := Ext(path[..|path| - 1]);
      if e == "" then "" else e + [path[|path| - 1]]
  }

  predicate ShouldSkipCrawlPath(path: string) {
    ToLower(Ext(Trim(path, GO_SPACE))) in SKIPPED_EXTENSIONS
  }

  lemma {:induction false} ExtIsSuffix(path: string)
    ensures |Ext(path)| <= |path| && Ext(path) == path[|path| - |Ext(path)|..]
  {
    if path == "" || path[|path| - 1] == '/' || path[|path| - 1] == '.' {
    } else {
      ExtIsSuffix(path[..|path| - 1]);
    }
  }

  ghost predicate IsExtension(e: string) {
    e != "" && e[0] == '.' && forall i :: 1 <= i < |e| ==> e[i] != '.' && e[i] != '/'
  }

  lemma {:induction false} ExtOf(stem: string, e: string)
    requires IsExtension(e)
    ensures Ext(stem + e) == e
  {
    var n := |e| - 1;
    if n == 0 {
    } else {
      assert (stem + e)[..|stem| + n] == stem + e[..n];
      ExtOf(stem, e[..n]);
      assert e == e[..n] + [e[n]];
    }
  }

  lemma SkippedAreExtensions(e: string)
    requires e in SKIPPED_EXTENSIONS
    ensures IsExtension(e)
  {
  }

  lemma LowerIsExtension(e: string)
    requires IsExtension(ToLower(e))
    ensures IsExtension(e)
  {
    assert ToLower(e)[0] == LowerChar(e[0]);
    forall i | 1 <= i < |e| ensures e[i] != '.' && e[i] != '/' {
      assert ToLower(e)[i] == LowerChar(e[i]);
    }
  }

  /** A path is not crawled exactly when, outer blanks aside, it ends in one of the listed
      extensions, in whatever case. */
  lemma SkippedIff(path: string)
    ensures var t := Trim(path, GO_SPACE);
            ShouldSkipCrawlPath(path) <==> exists n: nat :: n <= |t| && ToLower(t[n..]) in SKIPPED_EXTENSIONS
  {
    var t := Trim(path, GO_SPACE);
    ExtIsSuffix(t);
    if n: nat :| n <= |t| && ToLower(t[n..]) in SKIPPED_EXTENSIONS {
      SkippedAreExtensions(ToLower(t[n..]));
      LowerIsExtension(t[n..]);
      Halves(t, n);
      ExtOf(t[..n], t[n..]);
    }
  }

  /** One href of a page: dropped before resolution (empty, "#...", mailto:, tel:,
      javascript:, unparsable) or resolved against the page. */
  datatype Href = Dropped | Resolved(absolute: Url)

  /** The crawlable URL an href contributes, if any. */
  function LinkOf(baseHost: string, h: Href): Option<string> {
    if h.Dropped? || ToLower(Hostname(h.absolute.host)) != ToLower(baseHost)
       || ShouldSkipCrawlPath(h.absolute.path) then None
    else
      var n := Normalize(Some(h.absolute));
      if n.None? then None else Some(Print(n.value))
  }

  /** The set of links of a page, however they are gathered. */
  ghost function LinkSet(baseHost: string, hrefs: seq<Href>): set<string> {
    Image(h => LinkOf(baseHost, h), hrefs)
  }

  /** The links of a page in crawl order. */
  function Links(baseHost: string, hrefs: seq<Href>): seq<string> {
    Collected(h => LinkOf(baseHost, h), hrefs)
  }

  lemma LinksListing(baseHost: string, hrefs: seq<Href>)
    ensures Increasing(Links(baseHost, hrefs))
    ensures Elements(Links(baseHost, hrefs)) == LinkSet(baseHost, hrefs)
  {
    CollectedListing(h => LinkOf(baseHost, h), hrefs);
  }

  /** Which texts are links of a page, exactly: the keys of its hrefs that resolve to a web
      URL of the crawled host, whatever the case of its letters, and whose path does not end
      in one of the listed extensions. */
  lemma LinkIff(baseHost: string, hrefs: seq<Href>, s: string)
    ensures s in Links(baseHost, hrefs) <==>
            exists i :: 0 <= i < |hrefs| && IsLinkOf(baseHost, hrefs[i], s)
  {
    var f := (h: Href) => LinkOf(baseHost, h);
    LinksListing(baseHost, hrefs);
    forall i | 0 <= i < |hrefs| ensures f(hrefs[i]) == Some(s) <==> IsLinkOf(baseHost, hrefs[i], s) {
      if hrefs[i].Resolved? { SkippedIff(hrefs[i].absolute.path); }
    }
    assert s in Links(baseHost, hrefs) <==> s in Elements(Links(baseHost, hrefs));
    if i :| 0 <= i < |hrefs| && IsLinkOf(baseHost, hrefs[i], s) {
      assert f(hrefs[i]) == Some(s);
    }
  }

  ghost predicate IsLinkOf(baseHost: string, h: Href, s: string) {
    && h.Resolved? && (h.absolute.scheme == "http" || h.absolute.scheme == "https")
    && ToLower(Hostname(h.absolute.host)) == ToLower(baseHost)
    && (var t := Trim(h.absolute.path, GO_SPACE); forall n: nat :: n <= |t| ==> ToLower(t[n..]) !in SKIPPED_EXTENSIONS)
    && Normalize(Some(h.absolute)).Some? && s == Print(Normalize(Some(h.absolute)).value)
  }

  /** One href of the loop below: the filters, then normalisation. */
  method CrawlableLink(baseHost: string, h: Href) returns (link: Option<string>)
    ensures link == LinkOf(baseHost, h)
  {
    if h.Dropped? || ToLower(Hostname(h.absolute.host)) != ToLower(baseHost) {
      return None;
    }
    if ShouldSkipCrawlPath(h.absolute.path) {
      return None;
    }
    var normalized := NormalizeScrapeURL(Some(h.absolute));
    if normalized.None? {
      return None;
    }
    return Some(Print(normalized.value));
  }

  /** Filter and normalise the hrefs into a set, list the set, sort the list. */
  method ExtractInternalLinks(baseHost: string, hrefs: seq<Href>) returns (links: seq<string>)
    ensures links == Links(baseHost, hrefs)
    ensures Increasing(links) && Elements(links) == LinkSet(baseHost, hrefs)
  {
    ghost var f := (h: Href) => LinkOf(baseHost, h);
    var unique: set<string> := {};
    for k := 0 to |hrefs|
      invariant unique == Image(f, hrefs[..k])
    {
      ImageStep(f, hrefs, k);
      var link := CrawlableLink(baseHost, hrefs[k]);
      if link.Some? {
        unique := unique + {link.value};
      }
    }
    assert hrefs[..|hrefs|] == hrefs;
    links := SortedKeys(unique);
    LinksListing(baseHost, hrefs);
    ListingUnique(links, Links(baseHost, hrefs));
  }

  /** A text that prints a normal URL. */
  ghost predicate IsKey(s: string) {
    exists u :: IsNormal(u) && s == Print(u)
  }

  /** A text that prints a normal URL on the given host. */
  ghost predicate IsInternal(baseHost: string, s: string) {
    exists u :: IsNormal(u) && Hostname(u.host) == baseHost && s == Print(u)
  }

  lemma BlankIsNoMark(c: char)
    requires c in GO_SPACE
    ensures c !in DIGITS && c != ':' && c != '[' && c != ']'
  {
    assert IsSpace(c);
  }

  lemma TrimRightBlank(s: string)
    requires s != "" && s[|s| - 1] in GO_SPACE
    ensures TrimRight(s, DIGITS) == s && Hostname(s) == s
  {
    BlankIsNoMark(s[|s| - 1]);
  }

  lemma LeadingBlankStays(host: string)
    requires host != "" && host[0] in GO_SPACE
    ensures Hostname(host) != "" && Hostname(host)[0] == host[0]
  {
    BlankIsNoMark(host[0]);
    var t := TrimRight(host, DIGITS);
    TrimRightCuts(host, DIGITS);
    var cut := host[|t|..];
    assert cut != "" ==> cut[0] == host[|t|];
    assert t[0] == host[0];
  }

  /** Outer blanks of a host are outer blanks of its name without the port. */
  lemma BareHostname(host: string)
    requires IsBare(Hostname(host), GO_SPACE)
    ensures IsBare(host, GO_SPACE)
  {
    if host != "" {
      if host[0] in GO_SPACE { LeadingBlankStays(host); }
      if host[|host| - 1] in GO_SPACE { TrimRightBlank(host); }
    }
  }

  lemma HostnameLower(host: string)
    ensures Hostname(ToLower(host)) == ToLower(Hostname(host))
  {
    StripPortLower(host);
    StripBracketsLower(StripPort(host));
  }

  lemma LinkIsInternal(baseHost: string, u: Url)
    requires WellFormed(u) && Normalize(Some(u)).Some?
    ensures IsKey(Print(Normalize(Some(u)).value))
    ensures ToLower(Hostname(u.host)) == baseHost && IsBare(baseHost, GO_SPACE) ==>
              IsInternal(baseHost, Print(Normalize(Some(u)).value))
  {
    NormalFormIff(u);
    if ToLower(Hostname(u.host)) == baseHost && IsBare(baseHost, GO_SPACE) {
      LowerBare(Hostname(u.host));
      BareHostname(u.host);
      CanonHostFacts(u.host);
      HostnameLower(u.host);
    }
  }

  /** Every link is normal and, if the name of the crawled host has no outer blank, stays
      on that host. */
  lemma LinksAreInternal(baseHost: string, hrefs: seq<Href>)
    requires ToLower(baseHost) == baseHost
    requires forall i :: 0 <= i < |hrefs| && hrefs[i].Resolved? ==> WellFormed(hrefs[i].absolute)
    ensures forall l :: l in Links(baseHost, hrefs) ==> IsKey(l) && (IsBare(baseHost, GO_SPACE) ==> IsInternal(baseHost, l))
  {
    LinksListing(baseHost, hrefs);
    var f := (h: Href) => LinkOf(baseHost, h);
    forall l | l in Links(baseHost, hrefs) ensures IsKey(l) && (IsBare(baseHost, GO_SPACE) ==> IsInternal(baseHost, l)) {
      assert l in Elements(Links(baseHost, hrefs)) && l in Image(f, hrefs);
      var i :| 0 <= i < |hrefs| && f(hrefs[i]) == Some(l);
      LinkIsInternal(baseHost, hrefs[i].absolute);
    }
  }

  /** A host with the given name that trimming moves to another name. */
  function Blanked(base: string): string
    requires base != ""
  {
    if base[|base| - 1] in GO_SPACE then base else base + ":"
  }

  lemma TrimRightShortens(s: string)
    ensures |StripPort(s)| <= |s| && |Hostname(s)| <= |StripPort(s)|
    ensures s != "" && s[|s| - 1] == ':' ==> |StripPort(s)| == |s| - 1
  {
  }

  lemma TrimmedColon(base: string)
    requires base != "" && base[0] in GO_SPACE
    ensures var c := CanonHost(base + ":"); c != "" && c[|c| - 1] == ':' && |c| <= |base|
  {
    var h := base + ":";
    assert !IsSpace(':') && h[0] == base[0] && h[|h| - 1] == ':';
    TrimKeepsEnd(h, GO_SPACE);
    var t := Trim(h, GO_SPACE);
    assert ToLower(t)[|t| - 1] == LowerChar(':');
  }

  lemma TrailingBlankMoves(base: string)
    requires base != "" && base[|base| - 1] in GO_SPACE
    ensures Hostname(base) == base && |Hostname(CanonHost(base))| < |base|
  {
    TrimRightBlank(base);
    TrimIsBare(base, GO_SPACE);
    TrimKeepsBare(base, GO_SPACE);
    TrimRightShortens(CanonHost(base));
  }

  lemma ColonName(base: string)
    requires base != "" && base[0] != '['
    ensures Hostname(base + ":") == base
  {
    var h := base + ":";
    assert h[|h| - 1] == ':' && h[..|h| - 1] == base;
    assert StripPort(h) == base;
  }

  lemma LeadingBlankMoves(base: string)
    requires base != "" && base[0] in GO_SPACE
    ensures Hostname(base + ":") == base && |Hostname(CanonHost(base + ":"))| < |base|
  {
    BlankIsNoMark(base[0]);
    ColonName(base);
    TrimmedColon(base);
    TrimRightShortens(CanonHost(base + ":"));
  }

  lemma BlankedFacts(base: string)
    requires !IsBare(base, GO_SPACE)
    ensures Hostname(Blanked(base)) == base && |Hostname(CanonHost(Blanked(base)))| < |base|
  {
    if base[|base| - 1] in GO_SPACE {
      TrailingBlankMoves(base);
    } else {
      LeadingBlankMoves(base);
    }
  }

  lemma LinkLeaves(baseHost: string, u: Url)
    requires u == Url("http", None, u.host, "/", "", false, "", "")
    requires ToLower(baseHost) == baseHost == Hostname(u.host)
    requires Hostname(CanonHost(u.host)) != baseHost
    ensures LinkOf(baseHost, Resolved(u)).Some? && !IsInternal(baseHost, LinkOf(baseHost, Resolved(u)).value)
  {
    SlashIsCrawled();
    SlashLink(baseHost, u);
    SlashIsNormal(u);
    var n := u.(host := CanonHost(u.host));
    if IsInternal(baseHost, Print(n)) {
      var v :| IsNormal(v) && Hostname(v.host) == baseHost && Print(n) == Print(v);
      PrintInjective(n, v);
    }
  }

  lemma SlashIsNormal(u: Url)
    requires u == Url("http", None, u.host, "/", "", false, "", "")
    ensures var n := u.(host := CanonHost(u.host)); IsNormal(n) && Normalize(Some(u)) == Some(n)
  {
    CanonHostFacts(u.host);
    TrimPathFacts("/");
  }

  lemma SlashLink(baseHost: string, u: Url)
    requires u == Url("http", None, u.host, "/", "", false, "", "")
    requires ToLower(Hostname(u.host)) == ToLower(baseHost) && !ShouldSkipCrawlPath("/")
    ensures LinkOf(baseHost, Resolved(u)) == Some(Print(u.(host := CanonHost(u.host))))
  {
    SlashIsNormal(u);
  }

  lemma SlashIsCrawled()
    ensures !ShouldSkipCrawlPath("/")
  {
    assert !IsSpace('/');
    TrimKeepsBare("/", GO_SPACE);
    NoExtension("/");
    NoExtensionIsCrawled();
  }

  lemma NoExtension(path: string)
    requires path != "" && path[|path| - 1] == '/'
    ensures Ext(path) == ""
  {
  }

  lemma NoExtensionIsCrawled()
    ensures ToLower("") !in SKIPPED_EXTENSIONS
  {
    forall e | e in SKIPPED_EXTENSIONS ensures e != "" {
    }
  }

  /** The links of a page stay on the crawled host, whatever the page, exactly when the
      host's name has no blank at either end: the filter compares names before the host is
      trimmed. */
  lemma LinksStayInsideIff(baseHost: string)
    requires ToLower(baseHost) == baseHost
    ensures IsBare(baseHost, GO_SPACE) <==>
            forall h: Href :: (h.Resolved? ==> WellFormed(h.absolute)) && LinkOf(baseHost, h).Some? ==>
              IsInternal(baseHost, LinkOf(baseHost, h).value)
  {
    forall h: Href | IsBare(baseHost, GO_SPACE) && (h.Resolved? ==> WellFormed(h.absolute)) && LinkOf(baseHost, h).Some?
      ensures IsInternal(baseHost, LinkOf(baseHost, h).value)
    {
      LinkIsInternal(baseHost, h.absolute);
    }
    if !IsBare(baseHost, GO_SPACE) {
      var u := Url("http", None, Blanked(baseHost), "/", "", false, "", "");
      BlankedFacts(baseHost);
      LinkLeaves(baseHost, u);
      var h := Resolved(u);
      assert h.Resolved? && WellFormed(h.absolute) && LinkOf(baseHost, h).Some?;
    }
  }
}
