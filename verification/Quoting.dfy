/** Quoted values and the `key=value` tail of a log line, with the parser that reads it
    back. Which characters Go calls printable is a parameter. */
module Quoting {
  import opened Options
  import opened Text

  /** The characters that force a value into quotes. */
  const SPECIAL: set<char> := {' ', '\t', '\r', '\n', '=', '"'}

  // ---- hexadecimal ------------------------------------------------------

  function Digit(d: nat): char
    requires d < 16
  {
    if d < 10 then '0' + d as char else 'a' + (d - 10) as char
  }

  function DigitValue(c: char): Option<nat> {
    if '0' <= c <= '9' then Some((c - '0') as nat)
    else if 'a' <= c <= 'f' then Some((c - 'a') as nat + 10)
    else None
  }

  function Pow16(width: nat): nat {
    if width == 0 then 1 else 16 * Pow16(width - 1)
  }

  function Hex(n: nat, width: nat): (s: string)
    ensures |s| == width
  {
    if width == 0 then "" else Hex(n / 16, width - 1) + [Digit(n % 16)]
  }

  function Unhex(s: string): Option<nat> {
    if s == "" then Some(0)
    else
      var high, low := Unhex(s[..|s| - 1]), DigitValue(s[|s| - 1]);
      if high.Some? && low.Some? then Some(16 * high.value + low.value) else None
  }

  lemma DigitBack(d: nat)
    requires d < 16
    ensures DigitValue(Digit(d)) == Some(d)
  {
  }

  lemma SplitDigit(n: nat, p: nat)
    requires n < 16 * p
    ensures n / 16 < p && n % 16 < 16 && 16 * (n / 16) + n % 16 == n
  {
  }

  lemma UnhexAppend(high: string, n: nat, d: nat)
    requires Unhex(high) == Some(n) && d < 16
    ensures Unhex(high + [Digit(d)]) == Some(16 * n + d)
  {
    DigitBack(d);
    assert (high + [Digit(d)])[..|high|] == high;
  }

  lemma HexStep(n: nat, width: nat, high: nat, low: nat)
    requires width > 0 && high == n / 16 && low == n % 16
    ensures Hex(n, width) == Hex(high, width - 1) + [Digit(low)]
  {
  }

  lemma {:induction false} UnhexHex(n: nat, width: nat)
    requires n < Pow16(width)
    ensures Unhex(Hex(n, width)) == Some(n)
  {
    if width == 0 {
    } else {
      var high, low := n / 16, n % 16;
      SplitDigit(n, Pow16(width - 1));
      HexStep(n, width, high, low);
      UnhexHex(high, width - 1);
      UnhexAppend(Hex(high, width - 1), high, low);
    }
  }

  // ---- strconv.Quote ----------------------------------------------------

  /** The letter of a short escape. */
  function ShortLetter(c: char): Option<char> {
    match c as int
    case 7 => Some('a')
    case 8 => Some('b')
    case 9 => Some('t')
    case 10 => Some('n')
    case 11 => Some('v')
    case 12 => Some('f')
    case 13 => Some('r')
    case _ => None
  }

  function EscapeChar(printable: char -> bool, c: char): string {
    if c == '"' || c == '\\' then ['\\', c]
    else if printable(c) then [c]
    else if ShortLetter(c).Some? then ['\\', ShortLetter(c).value]
    else if c < ' ' || c as int == 0x7f then ['\\', 'x'] + Hex(c as int, 2)
    else if c as int < 0x10000 then ['\\', 'u'] + Hex(c as int, 4)
    else ['\\', 'U'] + Hex(c as int, 8)
  }

  function EscapeText(printable: char -> bool, v: string): string {
    if v == "" then "" else EscapeChar(printable, v[0]) + EscapeText(printable, v[1..])
  }

  function QuoteIfNeeded(printable: char -> bool, v: string): string {
    if v == "" then "\"\""
    else if NoneIn(v, SPECIAL) then v
    else "\"" + EscapeText(printable, v) + "\""
  }

  // ---- reading it back --------------------------------------------------

  datatype Read<T> = Read(value: T, rest: string)

  function LetterMeans(letter: char): Option<char> {
    match letter
    case 'a' => Some(7 as char)
    case 'b' => Some(8 as char)
    case 't' => Some('\t')
    case 'n' => Some('\n')
    case 'v' => Some(11 as char)
    case 'f' => Some(12 as char)
    case 'r' => Some('\r')
    case '"' => Some('"')
    case '\\' => Some('\\')
    case _ => None
  }

  function HexWidth(letter: char): nat {
    match letter
    case 'x' => 2
    case 'u' => 4
    case 'U' => 8
    case _ => 0
  }

  function ReadHex(s: string, width: nat): (r: Option<Read<char>>)
    ensures r.Some? ==> |s| >= width && r.value.rest == s[width..]
  {
    if width == 0 || |s| < width then None
    else
      match Unhex(s[..width])
      case None => None
      case Some(n) =>
        if n < 0xD800 || 0xE000 <= n < 0x110000 then Some(Read(n as char, s[width..])) else None
  }

  function ReadChar(s: string): (r: Option<Read<char>>)
    requires s != ""
    ensures r.Some? ==> |r.value.rest| < |s|
  {
    if s[0] != '\\' then Some(Read(s[0], s[1..]))
    else if |s| < 2 then None
    else if LetterMeans(s[1]).Some? then Some(Read(LetterMeans(s[1]).value, s[2..]))
    else ReadHex(s[2..], HexWidth(s[1]))
  }

  /** The text up to the closing quote, and what follows it. */
  function ReadQuoted(s: string): (r: Option<Read<string>>)
    ensures r.Some? ==> |r.value.rest| < |s|
    decreases |s|
  {
    if s == "" then None
    else if s[0] == '"' then Some(Read("", s[1..]))
    else
      match ReadChar(s)
      case None => None
      case Some(c) =>
        match ReadQuoted(c.rest)
        case None => None
        case Some(tail) => Some(Read([c.value] + tail.value, tail.rest))
  }

  function ReadValue(s: string): (r: Option<Read<string>>)
    ensures r.Some? ==> |r.value.rest| <= |s|
  {
    if s != "" && s[0] == '"' then ReadQuoted(s[1..])
    else
      var n := WordLength(s, {' '});
      Some(Read(s[..n], s[n..]))
  }

  lemma ReadHexBack(c: char, width: nat, rest: string)
    requires width > 0 && c as int < Pow16(width)
    ensures ReadHex(Hex(c as int, width) + rest, width) == Some(Read(c, rest))
  {
    UnhexHex(c as int, width);
    var s := Hex(c as int, width) + rest;
    assert s[..width] == Hex(c as int, width) && s[width..] == rest;
  }

  lemma ReadShort(letter: char, rest: string)
    requires LetterMeans(letter).Some?
    ensures ReadChar(['\\', letter] + rest) == Some(Read(LetterMeans(letter).value, rest))
  {
    var s := ['\\', letter] + rest;
    assert s[2..] == rest;
  }

  lemma ReadLong(letter: char, c: char, width: nat, rest: string)
    requires LetterMeans(letter).None? && HexWidth(letter) == width > 0 && c as int < Pow16(width)
    ensures ReadChar(['\\', letter] + Hex(c as int, width) + rest) == Some(Read(c, rest))
  {
    var s := ['\\', letter] + Hex(c as int, width) + rest;
    assert s[2..] == Hex(c as int, width) + rest;
    ReadHexBack(c, width, rest);
  }

  lemma ShortMeans(c: char)
    requires ShortLetter(c).Some?
    ensures LetterMeans(ShortLetter(c).value) == Some(c)
  {
  }

  lemma Widths()
    ensures Pow16(2) == 0x100 && Pow16(4) == 0x10000 && Pow16(8) == 0x100000000
  {
    assert Pow16(4) == 0x10000;
    assert Pow16(6) == 0x1000000;
  }

  lemma ReadCharBack(printable: char -> bool, c: char, rest: string)
    ensures ReadChar(EscapeChar(printable, c) + rest) == Some(Read(c, rest))
  {
    Widths();
    if c == '"' || c == '\\' {
      ReadShort(c, rest);
    } else if printable(c) {
      assert ([c] + rest)[1..] == rest;
    } else if ShortLetter(c).Some? {
      ShortMeans(c);
      ReadShort(ShortLetter(c).value, rest);
    } else if c < ' ' || c as int == 0x7f {
      ReadLong('x', c, 2, rest);
    } else if c as int < 0x10000 {
      ReadLong('u', c, 4, rest);
    } else {
      ReadLong('U', c, 8, rest);
    }
  }

  lemma EscapeOpens(printable: char -> bool, c: char)
    ensures EscapeChar(printable, c) != "" && EscapeChar(printable, c)[0] != '"'
  {
  }

  lemma {:induction false} ReadQuotedBack(printable: char -> bool, v: string, rest: string)
    ensures ReadQuoted(EscapeText(printable, v) + ("\"" + rest)) == Some(Read(v, rest))
  {
    if v == "" {
      assert EscapeText(printable, v) + ("\"" + rest) == "\"" + rest;
    } else {
      var head, tail := EscapeChar(printable, v[0]), EscapeText(printable, v[1..]);
      EscapeOpens(printable, v[0]);
      ReadCharBack(printable, v[0], tail + ("\"" + rest));
      Associate(head, tail, "\"" + rest);
      ReadQuotedBack(printable, v[1..], rest);
      assert v == [v[0]] + v[1..];
    }
  }

  lemma ReadBareBack(v: string, rest: string)
    requires v != "" && NoneIn(v, SPECIAL) && (rest == "" || rest[0] == ' ')
    ensures ReadValue(v + rest) == Some(Read(v, rest))
  {
    assert (v + rest)[0] == v[0] && v[0] !in SPECIAL;
    WordLengthIs(v, rest, {' '});
    assert (v + rest)[..|v|] == v && (v + rest)[|v|..] == rest;
  }

  lemma Regroup<T>(a: seq<T>, b: seq<T>, c: seq<T>, d: seq<T>)
    ensures (a + b + c) + d == a + (b + (c + d))
  {
  }

  lemma ReadOpened(t: string)
    ensures ReadValue("\"" + t) == ReadQuoted(t)
  {
    assert ("\"" + t)[1..] == t;
  }

  /** A printed value reads back as itself, whatever it contains, if a blank or the end follows. */
  lemma ReadValueBack(printable: char -> bool, v: string, rest: string)
    requires rest == "" || rest[0] == ' '
    ensures ReadValue(QuoteIfNeeded(printable, v) + rest) == Some(Read(v, rest))
  {
    if v != "" && NoneIn(v, SPECIAL) {
      ReadBareBack(v, rest);
    } else {
      var body := EscapeText(printable, v);
      ReadQuotedBack(printable, v, rest);
      ReadOpened(body + ("\"" + rest));
      Regroup("\"", body, "\"", rest);
      assert QuoteIfNeeded(printable, v) == "\"" + body + "\"";
    }
  }

  // ---- the tail of a line -----------------------------------------------

  datatype Pair = Pair(key: string, value: string)

  function PrintPair(printable: char -> bool, p: Pair): string {
    p.key + "=" + QuoteIfNeeded(printable, p.value)
  }

  function Parts(printable: char -> bool, ps: seq<Pair>): (parts: seq<string>)
    ensures |parts| == |ps|
  {
    if ps == [] then [] else [PrintPair(printable, ps[0])] + Parts(printable, ps[1..])
  }

  function PrintTail(printable: char -> bool, ps: seq<Pair>): string {
    Join(Parts(printable, ps), " ")
  }

  function ReadTail(s: string): Option<seq<Pair>>
    decreases |s|
  {
    var n := WordLength(s, {'='});
    if n == |s| then None
    else
      match ReadValue(s[n + 1..])
      case None => None
      case Some(v) =>
        if v.rest == "" then Some([Pair(s[..n], v.value)])
        else if v.rest[0] != ' ' then None
        else
          match ReadTail(v.rest[1..])
          case None => None
          case Some(ps) => Some([Pair(s[..n], v.value)] + ps)
  }

  lemma KeyEnds(key: string, t: string)
    requires NoneIn(key, {'='})
    ensures var s := key + ("=" + t);
            WordLength(s, {'='}) == |key| < |s| && s[..|key|] == key && s[|key| + 1..] == t
  {
    WordLengthIs(key, "=" + t, {'='});
  }

  /** What the reader makes of one printed pair. */
  lemma ReadOne(printable: char -> bool, p: Pair, rest: string)
    requires NoneIn(p.key, {'='}) && (rest == "" || rest[0] == ' ')
    ensures var s := PrintPair(printable, p) + rest; var n := WordLength(s, {'='});
            n < |s| && s[..n] == p.key && ReadValue(s[n + 1..]) == Some(Read(p.value, rest))
  {
    var shown := QuoteIfNeeded(printable, p.value);
    Regroup(p.key, "=", shown, rest);
    KeyEnds(p.key, shown + rest);
    ReadValueBack(printable, p.value, rest);
  }

  lemma PrintTailStep(printable: char -> bool, ps: seq<Pair>)
    requires |ps| > 1
    ensures PrintTail(printable, ps) == PrintPair(printable, ps[0]) + (" " + PrintTail(printable, ps[1..]))
  {
    assert Parts(printable, ps)[1..] == Parts(printable, ps[1..]);
    Associate(PrintPair(printable, ps[0]), " ", PrintTail(printable, ps[1..]));
  }

  lemma ReadTailLast(printable: char -> bool, p: Pair)
    requires NoneIn(p.key, {'='})
    ensures ReadTail(PrintPair(printable, p)) == Some([p])
  {
    ReadOne(printable, p, "");
    assert PrintPair(printable, p) + "" == PrintPair(printable, p);
  }

  lemma ReadTailMore(printable: char -> bool, p: Pair, later: string, ps: seq<Pair>)
    requires NoneIn(p.key, {'='}) && ReadTail(later) == Some(ps)
    ensures ReadTail(PrintPair(printable, p) + (" " + later)) == Some([p] + ps)
  {
    ReadOne(printable, p, " " + later);
    assert (" " + later)[1..] == later;
  }

  predicate CleanKeys(ps: seq<Pair>) {
    forall i :: 0 <= i < |ps| ==> NoneIn(ps[i].key, {'='})
  }

  lemma {:induction false} ReadTailBack(printable: char -> bool, ps: seq<Pair>)
    requires ps != [] && CleanKeys(ps)
    ensures ReadTail(PrintTail(printable, ps)) == Some(ps)
  {
    assert ps == [ps[0]] + ps[1..];
    if |ps| == 1 {
      ReadTailLast(printable, ps[0]);
      assert PrintTail(printable, ps) == PrintPair(printable, ps[0]) && ps == [ps[0]];
    } else {
      PrintTailStep(printable, ps);
      ReadTailBack(printable, ps[1..]);
      ReadTailMore(printable, ps[0], PrintTail(printable, ps[1..]), ps[1..]);
    }
  }

  lemma {:induction false} ReadKeysAreClean(s: string, ps: seq<Pair>)
    requires ReadTail(s) == Some(ps)
    ensures CleanKeys(ps)
    decreases |s|
  {
    var n := WordLength(s, {'='});
    WordLengthStops(s, {'='});
    var v := ReadValue(s[n + 1..]).value;
    if v.rest == "" {
    } else {
      var rest := ReadTail(v.rest[1..]).value;
      ReadKeysAreClean(v.rest[1..], rest);
      assert ps == [Pair(s[..n], v.value)] + rest;
    }
  }

  /** A printed tail reads back as its pairs exactly when no key contains an equals sign:
      values may contain anything, keys even blanks and quotes. */
  lemma TailReadsBackIff(printable: char -> bool, ps: seq<Pair>)
    requires ps != []
    ensures ReadTail(PrintTail(printable, ps)) == Some(ps) <==> CleanKeys(ps)
  {
    if CleanKeys(ps) {
      ReadTailBack(printable, ps);
    } else if ReadTail(PrintTail(printable, ps)) == Some(ps) {
      ReadKeysAreClean(PrintTail(printable, ps), ps);
    }
  }

  /** A value is quoted exactly if it is empty or has a blank, a line break, a tab, an equals
      sign or a quote. */
  lemma QuotedIff(printable: char -> bool, v: string)
    ensures QuoteIfNeeded(printable, v) != v <==>
            v == "" || ' ' in v || '\t' in v || '\r' in v || '\n' in v || '=' in v || '"' in v
  {
    if v != "" && !NoneIn(v, SPECIAL) {
      var i :| 0 <= i < |v| && v[i] in SPECIAL;
      if QuoteIfNeeded(printable, v) == v {
        QuotedIsLonger(printable, v);
      }
    }
  }

  lemma {:induction false} EscapeIsNotShorter(printable: char -> bool, v: string)
    ensures |EscapeText(printable, v)| >= |v|
  {
    if v == "" {
    } else {
      EscapeIsNotShorter(printable, v[1..]);
    }
  }

  lemma QuotedIsLonger(printable: char -> bool, v: string)
    ensures |"\"" + EscapeText(printable, v) + "\""| > |v|
  {
    EscapeIsNotShorter(printable, v);
  }

  lemma {:induction false} HexHasNoBreak(n: nat, width: nat)
    ensures '\n' !in Hex(n, width)
  {
    if width == 0 {
    } else {
      HexHasNoBreak(n / 16, width - 1);
      assert Digit(n % 16) != '\n';
    }
  }

  lemma EscapedCharHasNoBreak(printable: char -> bool, c: char)
    requires !printable('\n')
    ensures '\n' !in EscapeChar(printable, c)
  {
    HexHasNoBreak(c as int, 2);
    HexHasNoBreak(c as int, 4);
    HexHasNoBreak(c as int, 8);
  }

  lemma {:induction false} EscapedHasNoBreak(printable: char -> bool, v: string)
    requires !printable('\n')
    ensures '\n' !in EscapeText(printable, v)
  {
    if v == "" {
    } else {
      EscapedCharHasNoBreak(printable, v[0]);
      EscapedHasNoBreak(printable, v[1..]);
    }
  }

  /** A record is one line: whatever the values contain, a tail has no line break if no key
      has one. */
  lemma {:induction false} TailIsOneLine(printable: char -> bool, ps: seq<Pair>)
    requires !printable('\n') && forall i :: 0 <= i < |ps| ==> '\n' !in ps[i].key
    ensures '\n' !in PrintTail(printable, ps)
  {
    if ps == [] {
    } else {
      PairIsOneLine(printable, ps[0]);
      if |ps| > 1 {
        PrintTailStep(printable, ps);
        TailIsOneLine(printable, ps[1..]);
      }
    }
  }

  lemma PairIsOneLine(printable: char -> bool, p: Pair)
    requires !printable('\n') && '\n' !in p.key
    ensures '\n' !in PrintPair(printable, p)
  {
    EscapedHasNoBreak(printable, p.value);
    if p.value != "" && NoneIn(p.value, SPECIAL) {
      assert '\n' in SPECIAL;
    }
  }

  lemma TailNotEmpty(printable: char -> bool, ps: seq<Pair>)
    requires ps != []
    ensures PrintTail(printable, ps) != ""
  {
    assert |PrintPair(printable, ps[0])| > 0;
    if |ps| > 1 { PrintTailStep(printable, ps); }
  }

  /** For any reader: lists without an equals sign in their keys never share a text. */
  lemma PrintTailInjective(printable: char -> bool, ps: seq<Pair>, qs: seq<Pair>)
    requires CleanKeys(ps) && CleanKeys(qs) && PrintTail(printable, ps) == PrintTail(printable, qs)
    ensures ps == qs
  {
    if ps != [] { TailNotEmpty(printable, ps); }
    if qs != [] { TailNotEmpty(printable, qs); }
    if ps != [] && qs != [] {
      ReadTailBack(printable, ps);
      ReadTailBack(printable, qs);
    }
  }

  lemma PlainPair(printable: char -> bool, key: string, value: string)
    requires value == "b" || value == "d"
    ensures PrintPair(printable, Pair(key, value)) == key + "=" + value
  {
  }

  /** And no reader can tell all lists apart: with an equals sign in a key, two of them
      print the same text. */
  lemma AmbiguousTail(printable: char -> bool)
    ensures PrintTail(printable, [Pair("a=b c", "d")]) == PrintTail(printable, [Pair("a", "b"), Pair("c", "d")])
  {
    var two := [Pair("a", "b"), Pair("c", "d")];
    PlainPair(printable, "a=b c", "d");
    PlainPair(printable, "a", "b");
    PlainPair(printable, "c", "d");
    PrintTailStep(printable, two);
    assert two[1..] == [Pair("c", "d")];
    assert PrintTail(printable, [Pair("a=b c", "d")]) == "a=b c=d";
    assert PrintTail(printable, [Pair("c", "d")]) == "c=d";
  }
}
