/** Strings as the Go standard library and the widget's script handle them:
    trimming, splitting on blanks, joining and byte order. The set of blanks is
    a parameter, because Go and JavaScript disagree about a few of them. */
module Text {

  /** Go's unicode.IsSpace. */
  predicate IsSpace(c: char) {
    || '\t' <= c <= '\r' || c == ' ' || c == '\U{0085}' || c == '\U{00A0}' || c == '\U{1680}'
    || '\U{2000}' <= c <= '\U{200A}' || c == '\U{2028}' || c == '\U{2029}' || c == '\U{202F}'
    || c == '\U{205F}' || c == '\U{3000}'
  }

  const GO_SPACE: set<char> := set c: char | IsSpace(c)

  predicate AllIn(s: string, cut: set<char>) {
    forall i :: 0 <= i < |s| ==> s[i] in cut
  }

  predicate NoneIn(s: string, cut: set<char>) {
    forall i :: 0 <= i < |s| ==> s[i] !in cut
  }

  predicate IsWord(w: string, cut: set<char>) {
    w != "" && NoneIn(w, cut)
  }

  predicate AllWords(ws: seq<string>, cut: set<char>) {
    forall i :: 0 <= i < |ws| ==> IsWord(ws[i], cut)
  }

  function TrimLeft(s: string, cut: set<char>): (t: string)
    ensures |t| <= |s| && t == s[|s| - |t|..]
  {
    if s != "" && s[0] in cut then TrimLeft(s[1..], cut) else s
  }

  function TrimRight(s: string, cut: set<char>): (t: string)
    ensures t <= s
  {
    if s != "" && s[|s| - 1] in cut then TrimRight(s[..|s| - 1], cut) else s
  }

  lemma {:induction false} TrimLeftCuts(s: string, cut: set<char>)
    ensures var t := TrimLeft(s, cut);
            && (t == "" || t[0] !in cut)
            && AllIn(s[..|s| - |t|], cut)
  {
    if s != "" && s[0] in cut {
      TrimLeftCuts(s[1..], cut);
      var t := TrimLeft(s, cut);
      assert s[..|s| - |t|] == [s[0]] + s[1..][..|s| - 1 - |t|];
    }
  }

  lemma {:induction false} TrimRightCuts(s: string, cut: set<char>)
    ensures var t := TrimRight(s, cut);
            && (t == "" || t[|t| - 1] !in cut)
            && AllIn(s[|t|..], cut)
  {
    if s != "" && s[|s| - 1] in cut {
      TrimRightCuts(s[..|s| - 1], cut);
      var t := TrimRight(s, cut);
      assert s[|t|..] == s[..|s| - 1][|t|..] + [s[|s| - 1]];
    }
  }

  function Trim(s: string, cut: set<char>): string {
    TrimRight(TrimLeft(s, cut), cut)
  }

  /** Nothing to trim at either end. */
  ghost predicate IsBare(s: string, cut: set<char>) {
    s == "" || (s[0] !in cut && s[|s| - 1] !in cut)
  }

  lemma TrimKeepsBare(s: string, cut: set<char>)
    ensures IsBare(s, cut) ==> Trim(s, cut) == s
  {
  }

  lemma {:induction false} TrimRightIsBare(l: string, cut: set<char>)
    requires l != "" ==> l[0] !in cut
    ensures IsBare(TrimRight(l, cut), cut)
  {
    if l != "" && l[|l| - 1] in cut {
      TrimRightIsBare(l[..|l| - 1], cut);
    }
  }

  lemma TrimIsBare(s: string, cut: set<char>)
    ensures IsBare(Trim(s, cut), cut)
  {
    TrimLeftCuts(s, cut);
    TrimRightIsBare(TrimLeft(s, cut), cut);
  }

  lemma TrimRightStays(l: string, cut: set<char>)
    requires l != "" && l[|l| - 1] !in cut
    ensures TrimRight(l, cut) == l
  {
  }

  lemma TrimLeftShortens(s: string, cut: set<char>)
    requires s != "" && s[0] in cut
    ensures |TrimLeft(s, cut)| < |s|
  {
  }

  lemma {:induction false} TrimLeftKeepsEnd(s: string, cut: set<char>)
    requires s != "" && s[|s| - 1] !in cut
    ensures var t := TrimLeft(s, cut); t != "" && t[|t| - 1] == s[|s| - 1]
  {
    if s[0] in cut {
      TrimLeftKeepsEnd(s[1..], cut);
    }
  }

  lemma TrimKeepsEnd(s: string, cut: set<char>)
    requires s != "" && s[0] in cut && s[|s| - 1] !in cut
    ensures var t := Trim(s, cut); t != "" && |t| < |s| && t[|t| - 1] == s[|s| - 1]
  {
    TrimLeftKeepsEnd(s, cut);
    TrimLeftShortens(s, cut);
    TrimRightStays(TrimLeft(s, cut), cut);
  }

  /** Trimming is determined by its result: any blanks around a trimmed core. */
  lemma {:induction false} TrimLeftUnique(blanks: string, s: string, cut: set<char>)
    requires AllIn(blanks, cut)
    ensures TrimLeft(blanks + s, cut) == TrimLeft(s, cut)
  {
    if blanks == "" {
      assert blanks + s == s;
    } else {
      assert (blanks + s)[1..] == blanks[1..] + s;
      TrimLeftUnique(blanks[1..], s, cut);
    }
  }

  lemma {:induction false} TrimRightUnique(s: string, blanks: string, cut: set<char>)
    requires AllIn(blanks, cut)
    ensures TrimRight(s + blanks, cut) == TrimRight(s, cut)
  {
    if blanks == "" {
      assert s + blanks == s;
    } else {
      var n := |blanks| - 1;
      assert (s + blanks)[..|s| + n] == s + blanks[..n];
      TrimRightUnique(s, blanks[..n], cut);
    }
  }

  // ---- splitting on blanks and joining ----------------------------------

  /** The length of the leading run of non-blanks. */
  function WordLength(s: string, cut: set<char>): (n: nat)
    ensures n <= |s|
  {
    if s == "" || s[0] in cut then 0 else 1 + WordLength(s[1..], cut)
  }

  function Fields(s: string, cut: set<char>): seq<string>
    decreases |s|
  {
    if s == "" then []
    else if s[0] in cut then Fields(s[1..], cut)
    else
      var n := WordLength(s, cut);
      [s[..n]] + Fields(s[n..], cut)
  }

  function Join(ws: seq<string>, sep: string): string {
    if ws == [] then ""
    else if |ws| == 1 then ws[0]
    else ws[0] + sep + Join(ws[1..], sep)
  }

  function Concat(ss: seq<string>): string {
    if ss == [] then "" else ss[0] + Concat(ss[1..])
  }

  lemma {:induction false} ConcatAppend(a: seq<string>, b: seq<string>)
    ensures Concat(a + b) == Concat(a) + Concat(b)
  {
    if a == [] {
      assert a + b == b;
    } else {
      assert (a + b)[1..] == a[1..] + b;
      ConcatAppend(a[1..], b);
    }
  }

  lemma {:induction false} WordLengthIs(w: string, rest: string, cut: set<char>)
    requires NoneIn(w, cut) && (rest == "" || rest[0] in cut)
    ensures WordLength(w + rest, cut) == |w|
  {
    if w == "" {
      assert w + rest == rest;
    } else {
      assert (w + rest)[0] == w[0] && (w + rest)[1..] == w[1..] + rest;
      WordLengthIs(w[1..], rest, cut);
    }
  }

  lemma {:induction false} WordLengthStops(s: string, cut: set<char>)
    ensures NoneIn(s[..WordLength(s, cut)], cut)
    ensures var rest := s[WordLength(s, cut)..]; rest == "" || rest[0] in cut
  {
    if s != "" && s[0] !in cut {
      WordLengthStops(s[1..], cut);
      var n := WordLength(s[1..], cut);
      assert s[..n + 1] == [s[0]] + s[1..][..n] && s[n + 1..] == s[1..][n..];
    }
  }

  lemma {:induction false} FieldsOfBlanks(blanks: string, s: string, cut: set<char>)
    requires AllIn(blanks, cut)
    ensures Fields(blanks + s, cut) == Fields(s, cut)
  {
    if blanks == "" {
      assert blanks + s == s;
    } else {
      assert (blanks + s)[0] == blanks[0] && (blanks + s)[1..] == blanks[1..] + s;
      FieldsOfBlanks(blanks[1..], s, cut);
    }
  }

  /** One step of Fields: a word, and whatever follows the word. */
  lemma FieldsOfHead(w: string, rest: string, cut: set<char>)
    requires IsWord(w, cut) && (rest == "" || rest[0] in cut)
    ensures Fields(w + rest, cut) == [w] + Fields(rest, cut)
  {
    var t := w + rest;
    assert t[0] == w[0];
    WordLengthIs(w, rest, cut);
    assert t[..|w|] == w && t[|w|..] == rest;
  }

  lemma FieldsStep(blanks: string, w: string, rest: string, cut: set<char>)
    requires AllIn(blanks, cut)
    requires IsWord(w, cut) && (rest == "" || rest[0] in cut)
    ensures Fields(blanks + (w + rest), cut) == [w] + Fields(rest, cut)
  {
    FieldsOfBlanks(blanks, w + rest, cut);
    FieldsOfHead(w, rest, cut);
  }

  /** Every text is blank, or blanks, a word and a rest that starts with a blank. */
  lemma {:induction false} FieldsCases(s: string, cut: set<char>) returns (blanks: string, w: string, rest: string)
    ensures AllIn(blanks, cut) && s == blanks + (w + rest)
    ensures w == "" ==> rest == "" && Fields(s, cut) == []
    ensures w != "" ==> IsWord(w, cut) && (rest == "" || rest[0] in cut)
    ensures w != "" ==> Fields(s, cut) == [w] + Fields(rest, cut)
  {
    if s == "" {
      blanks, w, rest := "", "", "";
    } else if s[0] in cut {
      blanks, w, rest := FieldsCases(s[1..], cut);
      blanks := [s[0]] + blanks;
    } else {
      var n := WordLength(s, cut);
      WordLengthStops(s, cut);
      blanks, w, rest := "", s[..n], s[n..];
    }
  }

  lemma Associate<T>(x: seq<T>, y: seq<T>, z: seq<T>)
    ensures x + (y + z) == (x + y) + z
  {
  }

  lemma Halves<T>(s: seq<T>, n: nat)
    requires n <= |s|
    ensures s == s[..n] + s[n..]
  {
  }

  lemma {:induction false} FieldsAreWords(s: string, cut: set<char>)
    ensures AllWords(Fields(s, cut), cut)
    decreases |s|
  {
    var _, w, rest := FieldsCases(s, cut);
    if w == "" {
    } else {
      FieldsAreWords(rest, cut);
    }
  }

  lemma FieldsOfWord(w: string, cut: set<char>)
    requires IsWord(w, cut)
    ensures Fields(w, cut) == [w]
  {
    FieldsStep("", w, "", cut);
    assert "" + (w + "") == w;
  }

  lemma FieldsStepConcat(blanks: string, w: string, rest: string, b: string, cut: set<char>)
    requires AllIn(blanks, cut) && IsWord(w, cut)
    requires rest == "" || rest[0] in cut
    requires b == "" || b[0] in cut
    ensures Fields((blanks + (w + rest)) + b, cut) == [w] + Fields(rest + b, cut)
  {
    Associate(blanks, w + rest, b);
    Associate(w, rest, b);
    FieldsStep(blanks, w, rest + b, cut);
  }

  /** Fields splits at a blank: what stands left and right of it is split apart. */
  lemma {:induction false} FieldsConcat(a: string, b: string, cut: set<char>)
    requires b == "" || b[0] in cut
    ensures Fields(a + b, cut) == Fields(a, cut) + Fields(b, cut)
    decreases |a|
  {
    var blanks, w, rest := FieldsCases(a, cut);
    if w == "" {
      assert a == blanks;
      FieldsOfBlanks(blanks, b, cut);
    } else {
      FieldsConcat(rest, b, cut);
      FieldsStepConcat(blanks, w, rest, b, cut);
      Associate([w], Fields(rest, cut), Fields(b, cut));
    }
  }

  lemma FieldsOfTrimRight(s: string, cut: set<char>)
    ensures Fields(TrimRight(s, cut), cut) == Fields(s, cut)
  {
    var t := TrimRight(s, cut);
    TrimRightCuts(s, cut);
    var blanks := s[|t|..];
    Halves(s, |t|);
    assert t == s[..|t|];
    FieldsConcat(t, blanks, cut);
    FieldsOfBlanks(blanks, "", cut);
    assert blanks + "" == blanks && Fields("", cut) == [];
    assert Fields(t, cut) + [] == Fields(t, cut);
  }

  /** Outer blanks carry no words. */
  lemma FieldsOfTrim(s: string, cut: set<char>)
    ensures Fields(Trim(s, cut), cut) == Fields(s, cut)
  {
    var l := TrimLeft(s, cut);
    TrimLeftCuts(s, cut);
    Halves(s, |s| - |l|);
    FieldsOfBlanks(s[..|s| - |l|], l, cut);
    FieldsOfTrimRight(l, cut);
  }

  lemma FieldsOfSeparated(w: string, sep: string, tail: string, cut: set<char>)
    requires IsWord(w, cut) && sep != "" && AllIn(sep, cut)
    ensures Fields(w + sep + tail, cut) == [w] + Fields(tail, cut)
  {
    Associate(w, sep, tail);
    FieldsStep("", w, sep + tail, cut);
    assert "" + (w + (sep + tail)) == w + (sep + tail);
    FieldsOfBlanks(sep, tail, cut);
  }

  /** Joining words with one blank and splitting again is the identity. */
  lemma {:induction false} FieldsOfJoin(ws: seq<string>, sep: string, cut: set<char>)
    requires AllWords(ws, cut)
    requires sep != "" && AllIn(sep, cut)
    ensures Fields(Join(ws, sep), cut) == ws
  {
    if ws == [] {
    } else if |ws| == 1 {
      FieldsOfWord(ws[0], cut);
    } else {
      FieldsOfSeparated(ws[0], sep, Join(ws[1..], sep), cut);
      FieldsOfJoin(ws[1..], sep, cut);
    }
  }

  /** A text has no words exactly when trimming leaves nothing. */
  lemma NoFieldsIffBlank(s: string, cut: set<char>)
    ensures Fields(s, cut) == [] <==> Trim(s, cut) == ""
  {
    NoFieldsIffLeftBlank(s, cut);
    TrimLeftCuts(s, cut);
    TrimRightKeepsHead(TrimLeft(s, cut), cut);
  }

  lemma {:induction false} NoFieldsIffLeftBlank(s: string, cut: set<char>)
    ensures Fields(s, cut) == [] <==> TrimLeft(s, cut) == ""
  {
    if s != "" && s[0] in cut { NoFieldsIffLeftBlank(s[1..], cut); }
  }

  lemma {:induction false} TrimRightKeepsHead(s: string, cut: set<char>)
    requires s == "" || s[0] !in cut
    ensures TrimRight(s, cut) == "" <==> s == ""
  {
    if s != "" && s[|s| - 1] in cut { TrimRightKeepsHead(s[..|s| - 1], cut); }
  }

  /** Trimming twice is trimming once. */
  lemma TrimTwice(s: string, cut: set<char>)
    ensures Trim(Trim(s, cut), cut) == Trim(s, cut)
  {
    var left := TrimLeft(s, cut);
    TrimLeftCuts(s, cut);
    TrimRightCuts(left, cut);
    if left != "" && TrimRight(left, cut) != "" { assert TrimRight(left, cut)[0] == left[0]; }
  }

  // ---- byte order -------------------------------------------------------

  predicate Less(a: string, b: string) {
    b != "" && (a == "" || a[0] < b[0] || (a[0] == b[0] && Less(a[1..], b[1..])))
  }

  /** The order is lexicographic: two texts agree up to some position, and there the smaller
      one ends or has the smaller character. */
  lemma LessIff(a: string, b: string)
    ensures Less(a, b) <==>
            exists n: nat :: n <= |a| && n < |b| && a[..n] == b[..n] && (n == |a| || a[n] < b[n])
  {
    if Less(a, b) {
      var n := FirstDifference(a, b);
      assert n <= |a| && n < |b| && a[..n] == b[..n] && (n == |a| || a[n] < b[n]);
    }
    if n: nat :| n <= |a| && n < |b| && a[..n] == b[..n] && (n == |a| || a[n] < b[n]) {
      LessAt(a, b, n);
    }
  }

  lemma {:induction false} FirstDifference(a: string, b: string) returns (n: nat)
    requires Less(a, b)
    ensures n <= |a| && n < |b| && a[..n] == b[..n] && (n == |a| || a[n] < b[n])
  {
    if a == "" || a[0] < b[0] {
      n := 0;
    } else {
      n := FirstDifference(a[1..], b[1..]);
      assert a[..n + 1] == [a[0]] + a[1..][..n] && b[..n + 1] == [b[0]] + b[1..][..n];
      n := n + 1;
    }
  }

  lemma {:induction false} LessAt(a: string, b: string, n: nat)
    requires n <= |a| && n < |b| && a[..n] == b[..n] && (n == |a| || a[n] < b[n])
    ensures Less(a, b)
  {
    if n == 0 {
    } else {
      assert a[..n][0] == b[..n][0];
      assert a[1..][..n - 1] == a[..n][1..] && b[1..][..n - 1] == b[..n][1..];
      LessAt(a[1..], b[1..], n - 1);
    }
  }

  lemma {:induction false} LessTransitive(a: string, b: string, c: string)
    requires Less(a, b) && Less(b, c)
    ensures Less(a, c)
  {
    if a != "" && a[0] == b[0] && b[0] == c[0] {
      LessTransitive(a[1..], b[1..], c[1..]);
    }
  }

  lemma {:induction false} LessTotal(a: string, b: string)
    ensures Less(a, b) || a == b || Less(b, a)
  {
    if a != "" && b != "" && a[0] == b[0] {
      LessTotal(a[1..], b[1..]);
      assert a == [a[0]] + a[1..] && b == [b[0]] + b[1..];
    }
  }

  lemma {:induction false} LessIrreflexive(a: string)
    ensures !Less(a, a)
  {
    if a == "" {
    } else {
      LessIrreflexive(a[1..]);
    }
  }
}
