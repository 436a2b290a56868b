/** Percent-encoding as the Go standard library does it: a text is encoded byte by byte in
    UTF-8, with capital hexadecimal digits, but for a set of characters left as they are;
    decoding takes digits in either case. A text is a sequence of Unicode characters, so
    what would decode to invalid UTF-8 does not decode here. */
module Percent {
  import opened Options
  import opened Text

  // ---- bytes ------------------------------------------------------------

  function Capital(d: nat): char
    requires d < 16
  {
    if d < 10 then '0' + d as char else 'A' + (d - 10) as char
  }

  function Nibble(c: char): Option<nat> {
    if '0' <= c <= '9' then Some((c - '0') as nat)
    else if 'A' <= c <= 'F' then Some((c - 'A') as nat + 10)
    else if 'a' <= c <= 'f' then Some((c - 'a') as nat + 10)
    else None
  }

  type Byte = b: nat | b < 256

  function Triplet(b: Byte): string {
    ['%', Capital(b / 16), Capital(b % 16)]
  }

  function Triplets(bs: seq<Byte>): string {
    if bs == [] then "" else Triplet(bs[0]) + Triplets(bs[1..])
  }

  /** The byte a text starts with, if it starts with a well-formed triplet. */
  function FirstByte(s: string): Option<Byte> {
    if |s| < 3 || s[0] != '%' then None
    else
      var high, low := Nibble(s[1]), Nibble(s[2]);
      if high.Some? && low.Some? then ByteOf(high.value, low.value) else None
  }

  function ByteOf(high: nat, low: nat): Option<Byte> {
    if high < 16 && low < 16 then Some(16 * high + low) else None
  }

  /** The first n bytes of a text that starts with that many triplets. */
  function FirstBytes(s: string, n: nat): (bs: Option<seq<Byte>>)
    ensures bs.Some? ==> |bs.value| == n && 3 * n <= |s|
  {
    if n == 0 then Some([])
    else
      match FirstByte(s)
      case None => None
      case Some(b) =>
        match FirstBytes(s[3..], n - 1)
        case None => None
        case Some(bs) => Some([b] + bs)
  }

  // ---- UTF-8 ------------------------------------------------------------

  function Utf8(c: char): seq<Byte> {
    var n := c as int;
    if n < 0x80 then [n]
    else if n < 0x800 then [0xC0 + n / 64, 0x80 + n % 64]
    else if n < 0x10000 then [0xE0 + n / 4096, 0x80 + n / 64 % 64, 0x80 + n % 64]
    else [0xF0 + n / 262144, 0x80 + n / 4096 % 64, 0x80 + n / 64 % 64, 0x80 + n % 64]
  }

  /** How many bytes a leading byte announces. */
  function Width(lead: Byte): nat {
    if lead < 0x80 then 1
    else if lead < 0xC0 then 0
    else if lead < 0xE0 then 2
    else if lead < 0xF0 then 3
    else if lead < 0xF8 then 4
    else 0
  }

  function Joined(lead: int, next: int): int {
    64 * lead + next - 0x80
  }

  /** The number that bytes of the announced width carry. */
  function Carried(bs: seq<Byte>): int {
    match |bs|
    case 1 => bs[0]
    case 2 => Joined((bs[0] as int) - 0xC0, bs[1])
    case 3 => Joined(Joined((bs[0] as int) - 0xE0, bs[1]), bs[2])
    case 4 => Joined(Joined(Joined((bs[0] as int) - 0xF0, bs[1]), bs[2]), bs[3])
    case _ => -1
  }

  /** The character of a byte sequence; none if it is not the encoding of one. */
  function Decoded(bs: seq<Byte>): Option<char> {
    var n := Carried(bs);
    if 0 <= n < 0xD800 || 0xE000 <= n < 0x110000 then
      if Utf8(n as char) == bs then Some(n as char) else None
    else None
  }

  lemma JoinedSplits(n: nat)
    ensures Joined(n / 64, 0x80 + n % 64) == n
  {
  }

  lemma Quotients(n: nat)
    ensures n / 4096 == n / 64 / 64 && n / 262144 == n / 64 / 64 / 64
    ensures n / 4096 % 64 == n / 64 / 64 % 64
  {
  }

  lemma CarriedUtf8(c: char)
    ensures Carried(Utf8(c)) == c as int
  {
    var n := c as int;
    Quotients(n);
    JoinedSplits(n);
    JoinedSplits(n / 64);
    JoinedSplits(n / 64 / 64);
  }

  lemma Utf8Width(c: char)
    ensures Utf8(c) != [] && Width(Utf8(c)[0]) == |Utf8(c)|
  {
  }

  // ---- encoding and decoding --------------------------------------------

  function EscapeChar(kept: char -> bool, c: char): string {
    if kept(c) then [c] else Triplets(Utf8(c))
  }

  function EscapeWith(kept: char -> bool, s: string): string {
    if s == "" then "" else EscapeChar(kept, s[0]) + EscapeWith(kept, s[1..])
  }

  datatype Read = Read(c: char, length: nat)

  /** The first character of an encoded text, and how much of the text it takes. */
  function FirstChar(s: string): (r: Option<Read>)
    requires s != ""
    ensures r.Some? ==> 0 < r.value.length <= |s|
  {
    if s[0] != '%' then Some(Read(s[0], 1))
    else
      match FirstByte(s)
      case None => None
      case Some(lead) =>
        match FirstBytes(s, Width(lead))
        case None => None
        case Some(bs) =>
          match Decoded(bs)
          case None => None
          case Some(c) => if bs == [] then None else Some(Read(c, 3 * |bs|))
  }

  function Unescape(s: string): Option<string>
    decreases |s|
  {
    if s == "" then Some("")
    else
      match FirstChar(s)
      case None => None
      case Some(r) =>
        match Unescape(s[r.length..])
        case None => None
        case Some(rest) => Some([r.c] + rest)
  }

  lemma NibbleCapital(d: nat)
    requires d < 16
    ensures Nibble(Capital(d)) == Some(d)
  {
  }

  lemma FirstByteOfTriplet(b: Byte, rest: string)
    ensures FirstByte(Triplet(b) + rest) == Some(b) && (Triplet(b) + rest)[3..] == rest
  {
    NibbleCapital(b / 16);
    NibbleCapital(b % 16);
  }

  lemma {:induction false} FirstBytesOfTriplets(bs: seq<Byte>, rest: string)
    ensures |Triplets(bs)| == 3 * |bs|
    ensures FirstBytes(Triplets(bs) + rest, |bs|) == Some(bs)
  {
    if bs == [] {
    } else {
      Associate(Triplet(bs[0]), Triplets(bs[1..]), rest);
      FirstByteOfTriplet(bs[0], Triplets(bs[1..]) + rest);
      FirstBytesOfTriplets(bs[1..], rest);
      assert bs == [bs[0]] + bs[1..];
    }
  }

  lemma TripletsOpen(bs: seq<Byte>, rest: string)
    requires bs != []
    ensures FirstByte(Triplets(bs) + rest) == Some(bs[0]) && (Triplets(bs) + rest)[0] == '%'
  {
    Associate(Triplet(bs[0]), Triplets(bs[1..]), rest);
    FirstByteOfTriplet(bs[0], Triplets(bs[1..]) + rest);
  }

  lemma FirstCharOfEscaped(kept: char -> bool, c: char, rest: string)
    requires !kept('%')
    ensures EscapeChar(kept, c) != ""
    ensures FirstChar(EscapeChar(kept, c) + rest) == Some(Read(c, |EscapeChar(kept, c)|))
  {
    if kept(c) {
    } else {
      var bs := Utf8(c);
      Utf8Width(c);
      CarriedUtf8(c);
      TripletsOpen(bs, rest);
      FirstBytesOfTriplets(bs, rest);
    }
  }

  lemma UnescapeStep(c: char, head: string, tail: string)
    requires head != "" && FirstChar(head + tail) == Some(Read(c, |head|))
    ensures Unescape(head + tail) == match Unescape(tail) case None => None case Some(rest) => Some([c] + rest)
  {
    assert (head + tail)[|head|..] == tail;
  }

  /** Decoding undoes encoding, whatever characters are kept, as long as '%' is not. */
  lemma {:induction false} UnescapeEscaped(kept: char -> bool, s: string)
    requires !kept('%')
    ensures Unescape(EscapeWith(kept, s)) == Some(s)
  {
    if s == "" {
      assert EscapeWith(kept, s) == "";
    } else {
      var head, tail := EscapeChar(kept, s[0]), EscapeWith(kept, s[1..]);
      FirstCharOfEscaped(kept, s[0], tail);
      UnescapeStep(s[0], head, tail);
      UnescapeEscaped(kept, s[1..]);
      assert s == [s[0]] + s[1..];
    }
  }

  /** So encoding is injective. */
  lemma EscapeInjective(kept: char -> bool, s: string, t: string)
    requires !kept('%') && EscapeWith(kept, s) == EscapeWith(kept, t)
    ensures s == t
  {
    UnescapeEscaped(kept, s);
    UnescapeEscaped(kept, t);
  }

  predicate IsHexDigit(c: char) {
    '0' <= c <= '9' || 'A' <= c <= 'F'
  }

  lemma {:induction false} TripletsChars(bs: seq<Byte>, i: nat)
    requires i < |Triplets(bs)|
    ensures Triplets(bs)[i] == '%' || IsHexDigit(Triplets(bs)[i])
  {
    if i < 3 {
    } else {
      assert Triplets(bs)[i] == Triplets(bs[1..])[i - 3];
      TripletsChars(bs[1..], i - 3);
    }
  }

  /** An encoded text has kept characters, '%' and capital hexadecimal digits only. */
  lemma {:induction false} EscapedChars(kept: char -> bool, s: string, i: nat)
    requires i < |EscapeWith(kept, s)|
    ensures var c := EscapeWith(kept, s)[i]; kept(c) || c == '%' || IsHexDigit(c)
  {
    var head := EscapeChar(kept, s[0]);
    if i < |head| {
      if !kept(s[0]) { TripletsChars(Utf8(s[0]), i); }
    } else {
      EscapedChars(kept, s[1..], i - |head|);
    }
  }

  lemma {:induction false} EscapeConcat(kept: char -> bool, s: string, t: string)
    ensures EscapeWith(kept, s + t) == EscapeWith(kept, s) + EscapeWith(kept, t)
  {
    if s == "" {
      assert s + t == t;
    } else {
      assert (s + t)[1..] == s[1..] + t;
      EscapeConcat(kept, s[1..], t);
      Associate(EscapeChar(kept, s[0]), EscapeWith(kept, s[1..]), EscapeWith(kept, t));
    }
  }

  /** A character that stands for itself decodes on its own, at the end of any text. */
  lemma {:induction false} UnescapeAppend(s: string, c: char)
    requires c != '%' && Nibble(c).None?
    ensures Unescape(s + [c]) == match Unescape(s) case None => None case Some(p) => Some(p + [c])
    decreases |s|
  {
    if s == "" {
      assert s + [c] == [c] && [c][1..] == "";
      assert Unescape("") == Some("") && [c] + "" == [c];
    } else {
      FirstCharAppend(s, c);
      var r := FirstChar(s);
      if r.Some? {
        var n := r.value.length;
        assert (s + [c])[n..] == s[n..] + [c];
        UnescapeAppend(s[n..], c);
        var rest := Unescape(s[n..]);
        if rest.Some? { Associate([r.value.c], rest.value, [c]); }
      }
    }
  }

  lemma {:induction false} FirstBytesAppend(s: string, c: char, n: nat)
    requires Nibble(c).None?
    ensures FirstBytes(s + [c], n) == FirstBytes(s, n)
  {
    if n == 0 {
    } else if |s| < 3 {
      assert FirstByte(s + [c]).None?;
    } else {
      assert (s + [c])[3..] == s[3..] + [c];
      FirstBytesAppend(s[3..], c, n - 1);
    }
  }

  lemma FirstCharAppend(s: string, c: char)
    requires s != "" && Nibble(c).None?
    ensures FirstChar(s + [c]) == FirstChar(s)
  {
    if s[0] == '%' {
      assert FirstByte(s + [c]) == FirstByte(s);
      if FirstByte(s).Some? { FirstBytesAppend(s, c, Width(FirstByte(s).value)); }
    }
  }
}
