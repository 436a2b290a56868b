/** Overlapping word windows over a page text. */
module Chunks {
  import opened Text

  // ---- the defaulting of the two sizes ----------------------------------

  function SizeOf(chunkSize: int): (size: nat)
    ensures size > 0
  {
    if chunkSize <= 0 then 500 else chunkSize
  }

  function StepOf(chunkSize: int, overlap: int): (step: nat)
    ensures 0 < step <= SizeOf(chunkSize)
  {
    var size := SizeOf(chunkSize);
    var o := if overlap < 0 || overlap >= size then 75 else overlap;
    if size - o <= 0 then size else size - o
  }

  // ---- windows ----------------------------------------------------------

  function WindowsFrom(words: seq<string>, start: nat, size: nat, step: nat): seq<seq<string>>
    requires 0 < step <= size && start <= |words|
    decreases |words| - start
  {
    if start + size >= |words| then [words[start..]]
    else [words[start..start + size]] + WindowsFrom(words, start + step, size, step)
  }

  function Windows(words: seq<string>, size: nat, step: nat): seq<seq<string>>
    requires 0 < step <= size
  {
    WindowsFrom(words, 0, size, step)
  }

  function JoinAll(ws: seq<seq<string>>): seq<string> {
    seq(|ws|, i requires 0 <= i < |ws| => Join(ws[i], " "))
  }

  function ChunkWords(words: seq<string>, chunkSize: int, overlap: int): seq<string> {
    if words == [] then [] else JoinAll(Windows(words, SizeOf(chunkSize), StepOf(chunkSize, overlap)))
  }

  /** The windows of a text; a text without words has none. */
  function ChunksOf(raw: string, chunkSize: int, overlap: int): seq<string> {
    ChunkWords(Fields(raw, GO_SPACE), chunkSize, overlap)
  }

  method SplitWords(raw: string) returns (words: seq<string>)
    ensures words == Fields(raw, GO_SPACE)
  {
    FieldsOfTrim(raw, GO_SPACE);
    words := Fields(Trim(raw, GO_SPACE), GO_SPACE);
  }

  method ChunkText(raw: string, chunkSize0: int, overlap0: int) returns (out: seq<string>)
    ensures out == ChunksOf(raw, chunkSize0, overlap0)
  {
    var chunkSize, overlap := chunkSize0, overlap0;
    var words := SplitWords(raw);
    if |words| == 0 {
      return [];
    }
    if chunkSize <= 0 {
      chunkSize := 500;
    }
    if overlap < 0 || overlap >= chunkSize {
      overlap := 75;
    }
    var step := chunkSize - overlap;
    if step <= 0 {
      step := chunkSize;
    }
    SizesAgree(chunkSize0, overlap0, chunkSize, overlap, step);
    out := CutWindows(words, chunkSize, step);
  }

  lemma SizesAgree(chunkSize0: int, overlap0: int, chunkSize: int, overlap: int, step: int)
    requires chunkSize == if chunkSize0 <= 0 then 500 else chunkSize0
    requires overlap == if overlap0 < 0 || overlap0 >= chunkSize then 75 else overlap0
    requires step == if chunkSize - overlap <= 0 then chunkSize else chunkSize - overlap
    ensures chunkSize == SizeOf(chunkSize0) && step == StepOf(chunkSize0, overlap0)
  {
  }

  /** The loop of ChunkText over the words. */
  method CutWindows(words: seq<string>, chunkSize: nat, step: nat) returns (out: seq<string>)
    requires 0 < step <= chunkSize && words != []
    ensures out == JoinAll(Windows(words, chunkSize, step))
  {
    out := [];
    ghost var all := Windows(words, chunkSize, step);
    ghost var done: seq<seq<string>> := [];
    var start := 0;
    while start < |words|
      invariant 0 <= start < |words|
      invariant out == JoinAll(done)
      invariant done + WindowsFrom(words, start, chunkSize, step) == all
    {
      var end := start + chunkSize;
      if end > |words| {
        end := |words|;
      }
      JoinAllAppend(done, words[start..end]);
      out := out + [Join(words[start..end], " ")];
      ghost var window := [words[start..end]];
      if end == |words| {
        assert words[start..] == words[start..end];
        done := done + window;
        break;
      }
      Associate(done, window, WindowsFrom(words, start + step, chunkSize, step));
      done := done + window;
      start := start + step;
    }
  }

  lemma JoinAllAppend(ws: seq<seq<string>>, w: seq<string>)
    ensures JoinAll(ws + [w]) == JoinAll(ws) + [Join(w, " ")]
  {
  }

  // ---- nothing is lost --------------------------------------------------

  /** The first window whole, and of every later one what follows the overlap. */
  function Recover(ws: seq<seq<string>>, overlap: nat): seq<string> {
    if ws == [] then []
    else if |ws| == 1 then ws[0]
    else ws[0] + RecoverLater(ws[1..], overlap)
  }

  function RecoverLater(ws: seq<seq<string>>, overlap: nat): seq<string> {
    if ws == [] then []
    else (if overlap <= |ws[0]| then ws[0][overlap..] else []) + RecoverLater(ws[1..], overlap)
  }

  lemma RecoverStep(w: seq<string>, later: seq<seq<string>>, o: nat)
    requires o <= |w| && later != []
    ensures Recover([w] + later, o) == w + RecoverLater(later, o)
    ensures RecoverLater([w] + later, o) == w[o..] + RecoverLater(later, o)
  {
    assert ([w] + later)[1..] == later;
  }

  lemma WindowSplits(words: seq<string>, start: nat, size: nat, o: nat)
    requires o <= size && start + size <= |words|
    ensures words[start..] == words[start..start + size] + words[start + size..]
    ensures words[start + o..] == words[start..start + size][o..] + words[start + size..]
  {
  }

  lemma OneWindow(w: seq<string>, o: nat)
    ensures Recover([w], o) == w && RecoverLater([w], o) == if o <= |w| then w[o..] else []
  {
    assert [w][1..] == [] && RecoverLater([], o) == [];
  }

  lemma {:induction false} WindowsConcat(words: seq<string>, start: nat, size: nat, step: nat)
    requires 0 < step <= size && start <= |words|
    ensures var ws, o := WindowsFrom(words, start, size, step), size - step;
            && ws != [] && Recover(ws, o) == words[start..]
            && (start + o <= |words| ==> RecoverLater(ws, o) == words[start + o..])
    decreases |words| - start
  {
    var ws, o := WindowsFrom(words, start, size, step), size - step;
    if start + size >= |words| {
      assert ws == [words[start..]];
      OneWindow(words[start..], o);
    } else {
      WindowsConcat(words, start + step, size, step);
      WindowSplits(words, start, size, o);
      RecoverStep(words[start..start + size], WindowsFrom(words, start + step, size, step), o);
    }
  }

  lemma {:induction false} WindowSizes(words: seq<string>, start: nat, size: nat, step: nat)
    requires 0 < step <= size && start <= |words|
    ensures var ws, o := WindowsFrom(words, start, size, step), size - step;
            && ws != [] && |ws[0]| == (if |words| - start < size then |words| - start else size)
            && (forall i :: 0 <= i < |ws| ==> |ws[i]| <= size)
            && (forall i :: 1 <= i < |ws| ==> |ws[i]| > o)
            && (|ws| - 1) * step <= |words| - start
    decreases |words| - start
  {
    if start + size >= |words| {
    } else {
      WindowSizes(words, start + step, size, step);
      CountStep(|WindowsFrom(words, start + step, size, step)|, |words| - start - step, step);
    }
  }

  /** Dropping the overlap and concatenating gives back exactly the words; every
      later window adds a word, and no window is longer than the size. */
  lemma WindowsRecover(words: seq<string>, start: nat, size: nat, step: nat)
    requires 0 < step <= size && start <= |words|
    ensures var ws, o := WindowsFrom(words, start, size, step), size - step;
            && ws != []
            && Recover(ws, o) == words[start..]
            && (forall i :: 0 <= i < |ws| ==> |ws[i]| <= size)
            && (forall i :: 1 <= i < |ws| ==> |ws[i]| > o)
            && |ws[0]| == (if |words| - start < size then |words| - start else size)
            && (|ws| - 1) * step <= |words| - start
            && (start + o <= |words| ==> words[start + o..] == RecoverLater(ws, o))
  {
    WindowsConcat(words, start, size, step);
    WindowSizes(words, start, size, step);
  }

  lemma CountStep(k: nat, n: nat, step: nat)
    requires (k - 1) * step <= n
    ensures k * step <= n + step
  {
  }

  lemma CountBound(k: nat, n: nat, step: nat)
    requires 0 < step && (k - 1) * step <= n
    ensures k <= n / step + 1
  {
    var q := n / step;
    assert n == q * step + n % step;
    if k - 1 > q {
      MulMonotone(q + 1, k - 1, step);
      assert false;
    }
  }

  lemma MulMonotone(a: nat, b: nat, c: nat)
    requires a <= b
    ensures a * c <= b * c
  {
  }

  function SplitAll(out: seq<string>): (ws: seq<seq<string>>)
    ensures |ws| == |out|
    ensures forall i :: 0 <= i < |out| ==> ws[i] == Fields(out[i], GO_SPACE)
  {
    seq(|out|, i requires 0 <= i < |out| => Fields(out[i], GO_SPACE))
  }

  lemma {:induction false} WindowsAreWords(words: seq<string>, start: nat, size: nat, step: nat)
    requires 0 < step <= size && start <= |words| && AllWords(words, GO_SPACE)
    ensures forall w :: w in WindowsFrom(words, start, size, step) ==> AllWords(w, GO_SPACE)
    decreases |words| - start
  {
    if start + size >= |words| {
    } else {
      WindowsAreWords(words, start + step, size, step);
    }
  }

  lemma SplitOfJoin(ws: seq<seq<string>>)
    requires forall w :: w in ws ==> AllWords(w, GO_SPACE)
    ensures SplitAll(JoinAll(ws)) == ws
  {
    assert IsSpace(' ');
    forall i | 0 <= i < |ws| ensures SplitAll(JoinAll(ws))[i] == ws[i] {
      FieldsOfJoin(ws[i], " ", GO_SPACE);
    }
  }

  /** Splitting the windows of a text gives back the word windows. */
  lemma SplitChunks(raw: string, chunkSize: int, overlap: int)
    requires Fields(raw, GO_SPACE) != []
    ensures SplitAll(ChunksOf(raw, chunkSize, overlap)) ==
            Windows(Fields(raw, GO_SPACE), SizeOf(chunkSize), StepOf(chunkSize, overlap))
  {
    var words := Fields(raw, GO_SPACE);
    var size, step := SizeOf(chunkSize), StepOf(chunkSize, overlap);
    FieldsAreWords(raw, GO_SPACE);
    WindowsAreWords(words, 0, size, step);
    SplitOfJoin(Windows(words, size, step));
  }

  /** What a recoverable cutting of words into windows is. */
  ghost predicate LosesNothing(ws: seq<seq<string>>, words: seq<string>, size: nat, step: nat)
    requires 0 < step <= size
  {
    && Recover(ws, size - step) == words
    && (forall i :: 0 <= i < |ws| ==> 0 < |ws[i]| <= size)
    && (forall i :: 1 <= i < |ws| ==> |ws[i]| > size - step)
    && |ws| <= |words| / step + 1
  }

  lemma WindowsLoseNothing(words: seq<string>, size: nat, step: nat)
    requires 0 < step <= size && words != []
    ensures LosesNothing(Windows(words, size, step), words, size, step)
  {
    WindowsRecover(words, 0, size, step);
    assert words[0..] == words;
    CountBound(|Windows(words, size, step)|, |words|, step);
  }

  /** The windows lose nothing, for every text and every pair of integer sizes. */
  lemma ChunksLoseNothing(raw: string, chunkSize: int, overlap: int) returns (ws: seq<seq<string>>)
    ensures ws == SplitAll(ChunksOf(raw, chunkSize, overlap))
    ensures LosesNothing(ws, Fields(raw, GO_SPACE), SizeOf(chunkSize), StepOf(chunkSize, overlap))
    ensures ws == [] <==> Trim(raw, GO_SPACE) == ""
  {
    NoFieldsIffBlank(raw, GO_SPACE);
    if Fields(raw, GO_SPACE) == [] {
      ws := [];
    } else {
      SplitChunks(raw, chunkSize, overlap);
      ws := Windows(Fields(raw, GO_SPACE), SizeOf(chunkSize), StepOf(chunkSize, overlap));
      WindowsLoseNothing(Fields(raw, GO_SPACE), SizeOf(chunkSize), StepOf(chunkSize, overlap));
    }
  }

  /** The sizes in use: a size that is not positive counts as 500, an overlap that does not
      fit counts as 75, and as none if 75 do not fit either; sizes that fit are taken. */
  lemma DefaultSizes(raw: string, chunkSize: int, overlap: int)
    ensures chunkSize <= 0 ==> ChunksOf(raw, chunkSize, overlap) == ChunksOf(raw, 500, overlap)
    ensures 75 < chunkSize && (overlap < 0 || overlap >= chunkSize) ==>
              ChunksOf(raw, chunkSize, overlap) == ChunksOf(raw, chunkSize, 75)
    ensures 0 < chunkSize <= 75 && (overlap < 0 || overlap >= chunkSize) ==>
              ChunksOf(raw, chunkSize, overlap) == ChunksOf(raw, chunkSize, 0)
    ensures 0 <= overlap < chunkSize ==>
              SizeOf(chunkSize) == chunkSize && StepOf(chunkSize, overlap) == chunkSize - overlap
  {
    if chunkSize <= 0 {
      SameSizes(raw, chunkSize, overlap, 500, overlap);
    } else if overlap < 0 || overlap >= chunkSize {
      SameSizes(raw, chunkSize, overlap, chunkSize, if 75 < chunkSize then 75 else 0);
    }
  }

  lemma SameSizes(raw: string, a: int, b: int, c: int, d: int)
    requires SizeOf(a) == SizeOf(c) && StepOf(a, b) == StepOf(c, d)
    ensures ChunksOf(raw, a, b) == ChunksOf(raw, c, d)
  {
  }

  /** No window is blank, so every window is worth a vector. */
  lemma ChunksAreNotBlank(raw: string, chunkSize: int, overlap: int, i: nat)
    requires i < |ChunksOf(raw, chunkSize, overlap)|
    ensures Trim(ChunksOf(raw, chunkSize, overlap)[i], GO_SPACE) != ""
  {
    var ws := ChunksLoseNothing(raw, chunkSize, overlap);
    var out := ChunksOf(raw, chunkSize, overlap);
    assert ws[i] == Fields(out[i], GO_SPACE);
    NoFieldsIffBlank(out[i], GO_SPACE);
  }
}
