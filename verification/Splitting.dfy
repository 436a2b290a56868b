/** Splitting a text at a separator, and why it can be done piece by piece. */
module Splitting {
  import opened Text

  function Glue(c: char, parts: seq<string>): seq<string>
    requires parts != []
  {
    [[c] + parts[0]] + parts[1..]
  }

  /** JavaScript's split at a non-empty separator: leftmost, non-overlapping. */
  function Split(s: string, sep: string): (parts: seq<string>)
    requires sep != ""
    ensures parts != []
    decreases |s|
  {
    if |s| < |sep| then [s]
    else if sep <= s then [""] + Split(s[|sep|..], sep)
    else Glue(s[0], Split(s[1..], sep))
  }

  function Init<T>(parts: seq<T>): seq<T>
    requires parts != []
  {
    parts[..|parts| - 1]
  }

  function Last<T>(parts: seq<T>): T
    requires parts != []
  {
    parts[|parts| - 1]
  }

  lemma {:induction false} SplitSingle(s: string, sep: string)
    requires sep != "" && |Split(s, sep)| == 1
    ensures Split(s, sep) == [s]
    decreases |s|
  {
    if |s| >= |sep| {
      SplitSingle(s[1..], sep);
      assert s == [s[0]] + s[1..];
    }
  }

  /** Splitting goes on where it stopped: only the last piece is affected by what follows. */
  lemma {:induction false} SplitConcat(x: string, y: string, sep: string)
    requires sep != ""
    ensures Split(x + y, sep) == Init(Split(x, sep)) + Split(Last(Split(x, sep)) + y, sep)
    decreases |x|
  {
    var parts := Split(x, sep);
    if |parts| == 1 {
      SplitSingle(x, sep);
    } else if sep <= x {
      var rest := x[|sep|..];
      assert (x + y)[|sep|..] == rest + y && sep <= x + y;
      SplitConcat(rest, y, sep);
      InitLastCons("", Split(rest, sep), Split(Last(Split(rest, sep)) + y, sep));
    } else {
      assert (x + y)[0] == x[0] && (x + y)[1..] == x[1..] + y;
      assert (x + y)[..|sep|] == x[..|sep|] && !(sep <= x + y);
      SplitConcat(x[1..], y, sep);
      InitLastGlue(x[0], Split(x[1..], sep), Split(Last(Split(x[1..], sep)) + y, sep));
    }
  }

  lemma InitLastCons(p: string, parts: seq<string>, tail: seq<string>)
    requires parts != []
    ensures Last([p] + parts) == Last(parts)
    ensures [p] + (Init(parts) + tail) == Init([p] + parts) + tail
  {
  }

  lemma InitLastGlue(c: char, parts: seq<string>, tail: seq<string>)
    requires |parts| > 1
    ensures Last(Glue(c, parts)) == Last(parts)
    ensures Glue(c, Init(parts) + tail) == Init(Glue(c, parts)) + tail
  {
  }

  /** A piece without the separator's first character, then the separator. */
  lemma {:induction false} SplitFrame(piece: string, sep: string, rest: string)
    requires sep != "" && sep[0] !in piece
    ensures Split(piece + (sep + rest), sep) == [piece] + Split(rest, sep)
    decreases |piece|
  {
    var s := piece + (sep + rest);
    if piece == "" {
      assert s == sep + rest && s[|sep|..] == rest;
    } else {
      assert s[0] == piece[0] && s[1..] == piece[1..] + (sep + rest);
      assert piece[0] in piece;
      SplitFrame(piece[1..], sep, rest);
      assert piece == [piece[0]] + piece[1..];
    }
  }

  /** A piece that neither has a doubled character nor ends with it, then the doubled one. */
  lemma {:induction false} SplitDouble(piece: string, c: char, rest: string)
    requires forall i :: 0 <= i < |piece| && piece[i] == c ==> i + 1 < |piece| && piece[i + 1] != c
    ensures Split(piece + ([c, c] + rest), [c, c]) == [piece] + Split(rest, [c, c])
    decreases |piece|
  {
    var s := piece + ([c, c] + rest);
    if piece == "" {
      assert s == [c, c] + rest && s[2..] == rest;
    } else {
      var tail := piece[1..];
      assert s[0] == piece[0] && s[1..] == tail + ([c, c] + rest);
      assert |piece| > 1 ==> s[1] == piece[1];
      forall i | 0 <= i < |tail| && tail[i] == c ensures i + 1 < |tail| && tail[i + 1] != c {
        assert piece[i + 1] == c;
      }
      SplitDouble(tail, c, rest);
      assert piece == [piece[0]] + tail;
    }
  }

  /** Lines joined by a character that none of them has split at it into the lines. */
  lemma {:induction false} SplitJoined(lines: seq<string>, c: char)
    requires lines != [] && forall k :: 0 <= k < |lines| ==> c !in lines[k]
    ensures Split(Join(lines, [c]), [c]) == lines
  {
    if |lines| == 1 {
      assert forall i :: 0 <= i < |lines[0]| ==> lines[0][i] in lines[0];
      SplitNone(lines[0], [c]);
    } else {
      SplitJoined(lines[1..], c);
      Associate(lines[0], [c], Join(lines[1..], [c]));
      SplitFrame(lines[0], [c], Join(lines[1..], [c]));
      assert lines == [lines[0]] + lines[1..];
    }
  }

  /** Joining non-empty such lines never doubles the character, nor puts it at the end. */
  lemma {:induction false} JoinedIsSingle(lines: seq<string>, c: char, i: nat)
    requires lines != [] && forall k :: 0 <= k < |lines| ==> c !in lines[k] && lines[k] != ""
    requires i < |Join(lines, [c])| && Join(lines, [c])[i] == c
    ensures i + 1 < |Join(lines, [c])| && Join(lines, [c])[i + 1] != c
    decreases |lines|
  {
    var s := Join(lines, [c]);
    assert forall k :: 0 <= k < |lines[0]| ==> lines[0][k] in lines[0];
    if |lines| == 1 {
    } else {
      var head, tail := lines[0], Join(lines[1..], [c]);
      assert s == head + [c] + tail;
      JoinedStarts(lines[1..], c);
      if i == |head| {
        assert s[i + 1] == tail[0];
      } else if i > |head| {
        assert tail[i - |head| - 1] == s[i];
        JoinedIsSingle(lines[1..], c, i - |head| - 1);
      }
    }
  }

  lemma JoinedStarts(lines: seq<string>, c: char)
    requires lines != [] && c !in lines[0] && lines[0] != ""
    ensures Join(lines, [c]) != "" && Join(lines, [c])[0] != c
  {
    assert lines[0][0] in lines[0];
    assert Join(lines, [c])[0] == lines[0][0];
  }

  /** A text in which the separator does not start. */
  lemma {:induction false} SplitNone(s: string, sep: string)
    requires sep != ""
    requires forall i :: 0 <= i <= |s| - |sep| ==> s[i] != sep[0] || s[i..i + |sep|] != sep
    ensures Split(s, sep) == [s]
    decreases |s|
  {
    if |s| >= |sep| {
      assert s[0..0 + |sep|] == s[..|sep|];
      forall i | 0 <= i <= |s[1..]| - |sep| ensures s[1..][i] != sep[0] || s[1..][i..i + |sep|] != sep {
        assert s[1..][i..i + |sep|] == s[i + 1..i + 1 + |sep|];
      }
      SplitNone(s[1..], sep);
      assert s == [s[0]] + s[1..];
    }
  }
}
