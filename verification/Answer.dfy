/** The server's side of the answer stream: an answer is cut into groups of words, one
    event per group, and closed by an event that names the session. */
module Answer {
  import opened Text
  import opened Options
  import opened Stream

  datatype Event = Token(text: string) | Done(sessionID: string)

  /** The word groups from a position on; every group but the last keeps its blank. */
  function GroupsFrom(words: seq<string>, start: nat, n: nat): seq<string>
    requires 0 < n && start <= |words|
    decreases |words| - start
  {
    if start == |words| then []
    else if start + n >= |words| then [Join(words[start..], " ")]
    else [Join(words[start..start + n], " ") + " "] + GroupsFrom(words, start + n, n)
  }

  function GroupSize(wordsPerChunk: int): nat {
    if wordsPerChunk <= 0 then 4 else wordsPerChunk
  }

  function AnswerChunks(answer: string, wordsPerChunk: int): seq<string> {
    var text := Trim(answer, GO_SPACE);
    if text == "" then [""]
    else
      var words := Fields(text, GO_SPACE);
      if |words| <= GroupSize(wordsPerChunk) then [text] else GroupsFrom(words, 0, GroupSize(wordsPerChunk))
  }

  method SplitAnswerChunks(answer: string, wordsPerChunk: int) returns (chunks: seq<string>)
    ensures chunks == AnswerChunks(answer, wordsPerChunk)
  {
    var text := Trim(answer, GO_SPACE);
    if text == "" {
      return [""];
    }
    var n := wordsPerChunk;
    if n <= 0 {
      n := 4;
    }
    var words := Fields(text, GO_SPACE);
    if |words| <= n {
      return [text];
    }
    chunks := GroupWords(words, n);
  }

  /** The loop of SplitAnswerChunks. */
  method GroupWords(words: seq<string>, n: nat) returns (chunks: seq<string>)
    requires 0 < n
    ensures chunks == GroupsFrom(words, 0, n)
  {
    chunks := [];
    ghost var all := GroupsFrom(words, 0, n);
    var start := 0;
    while start < |words|
      invariant 0 <= start <= |words|
      invariant chunks + GroupsFrom(words, start, n) == all
    {
      var end := start + n;
      if end > |words| {
        end := |words|;
      }
      var chunk := Join(words[start..end], " ");
      if end < |words| {
        chunk := chunk + " ";
      } else {
        assert words[start..] == words[start..end];
      }
      Associate(chunks, [chunk], GroupsFrom(words, end, n));
      chunks := chunks + [chunk];
      start := end;
    }
  }

  lemma {:induction false} JoinSplit(a: seq<string>, b: seq<string>)
    requires a != [] && b != []
    ensures Join(a, " ") + " " + Join(b, " ") == Join(a + b, " ")
  {
    if |a| == 1 {
      assert (a + b)[1..] == b;
    } else {
      assert (a + b)[1..] == a[1..] + b;
      JoinSplit(a[1..], b);
      Regroup(a[0], " ", Join(a[1..], " "), Join(b, " "));
    }
  }

  lemma Regroup(w: string, s: string, x: string, y: string)
    ensures ((w + s) + x) + s + y == (w + s) + (x + s + y)
  {
  }

  lemma {:induction false} GroupsConcat(words: seq<string>, start: nat, n: nat)
    requires 0 < n && start <= |words|
    ensures Concat(GroupsFrom(words, start, n)) == Join(words[start..], " ")
    decreases |words| - start
  {
    var groups := GroupsFrom(words, start, n);
    if start == |words| {
    } else if start + n >= |words| {
      assert Concat(groups) == groups[0] + Concat(groups[1..]);
    } else {
      GroupsConcat(words, start + n, n);
      assert groups[1..] == GroupsFrom(words, start + n, n);
      assert words[start..] == words[start..start + n] + words[start + n..];
      JoinSplit(words[start..start + n], words[start + n..]);
    }
  }

  /** The groups carry the whole answer: concatenated they have exactly its words, and
      they are the trimmed answer itself when it is short enough not to be cut. */
  lemma ChunksCarryAnswer(answer: string, wordsPerChunk: int)
    ensures Fields(Concat(AnswerChunks(answer, wordsPerChunk)), GO_SPACE) == Fields(answer, GO_SPACE)
    ensures |Fields(answer, GO_SPACE)| <= GroupSize(wordsPerChunk) ==>
              AnswerChunks(answer, wordsPerChunk) == [Trim(answer, GO_SPACE)]
    ensures |Fields(answer, GO_SPACE)| > GroupSize(wordsPerChunk) ==>
              Concat(AnswerChunks(answer, wordsPerChunk)) == Join(Fields(answer, GO_SPACE), " ")
  {
    var text := Trim(answer, GO_SPACE);
    FieldsOfTrim(answer, GO_SPACE);
    NoFieldsIffBlank(answer, GO_SPACE);
    var words := Fields(answer, GO_SPACE);
    if |words| <= GroupSize(wordsPerChunk) {
      ConcatOne(text);
    } else {
      GroupsConcat(words, 0, GroupSize(wordsPerChunk));
      assert words[0..] == words;
      FieldsAreWords(answer, GO_SPACE);
      assert IsSpace(' ');
      FieldsOfJoin(words, " ", GO_SPACE);
    }
  }

  lemma FieldsOfGroup(ws: seq<string>)
    requires AllWords(ws, GO_SPACE)
    ensures Fields(Join(ws, " "), GO_SPACE) == ws && Fields(Join(ws, " ") + " ", GO_SPACE) == ws
  {
    assert IsSpace(' ');
    FieldsOfJoin(ws, " ", GO_SPACE);
    FieldsConcat(Join(ws, " "), " ", GO_SPACE);
    FieldsOfBlanks(" ", "", GO_SPACE);
    assert " " + "" == " ";
  }

  /** A group has words, not too many, and if it is not the last just as many as asked for
      and a blank behind them. */
  ghost predicate GroupOk(group: string, n: nat, last: bool) {
    && 0 < |Fields(group, GO_SPACE)| <= n
    && (!last ==> |Fields(group, GO_SPACE)| == n && group != "" && group[|group| - 1..] == " ")
  }

  lemma LastGroup(ws: seq<string>, n: nat)
    requires AllWords(ws, GO_SPACE) && 0 < |ws| <= n
    ensures GroupOk(Join(ws, " "), n, true)
  {
    FieldsOfGroup(ws);
  }

  lemma FullGroup(ws: seq<string>, n: nat)
    requires AllWords(ws, GO_SPACE) && 0 < |ws| == n
    ensures GroupOk(Join(ws, " ") + " ", n, false)
  {
    FieldsOfGroup(ws);
  }

  lemma SliceOfWords(words: seq<string>, from: nat, end: nat)
    requires from <= end <= |words| && AllWords(words, GO_SPACE)
    ensures AllWords(words[from..end], GO_SPACE)
  {
  }

  /** The first group and the later ones. */
  lemma GroupsStep(words: seq<string>, start: nat, n: nat) returns (first: string, later: seq<string>)
    requires 0 < n && start + n < |words| && AllWords(words, GO_SPACE)
    ensures later == GroupsFrom(words, start + n, n) && later != []
    ensures GroupsFrom(words, start, n) == [first] + later && GroupOk(first, n, false)
  {
    first, later := Join(words[start..start + n], " ") + " ", GroupsFrom(words, start + n, n);
    SliceOfWords(words, start, start + n);
    FullGroup(words[start..start + n], n);
  }

  lemma OnlyGroup(words: seq<string>, start: nat, n: nat) returns (group: string)
    requires 0 < n && start < |words| <= start + n && AllWords(words, GO_SPACE)
    ensures GroupsFrom(words, start, n) == [group] && GroupOk(group, n, true)
  {
    group := Join(words[start..], " ");
    SliceOfWords(words, start, |words|);
    assert words[start..|words|] == words[start..];
    LastGroup(words[start..], n);
  }

  ghost predicate GroupsOk(groups: seq<string>, n: nat) {
    forall i :: 0 <= i < |groups| ==> GroupOk(groups[i], n, i + 1 == |groups|)
  }

  lemma GroupsOkStep(first: string, later: seq<string>, n: nat)
    requires GroupOk(first, n, false) && later != [] && GroupsOk(later, n)
    ensures GroupsOk([first] + later, n)
  {
    forall i | 0 <= i < 1 + |later| ensures GroupOk(([first] + later)[i], n, i + 1 == 1 + |later|) {
      if i > 0 { assert ([first] + later)[i] == later[i - 1]; }
    }
  }

  lemma {:induction false} GroupSizes(words: seq<string>, start: nat, n: nat)
    requires 0 < n && start < |words| && AllWords(words, GO_SPACE)
    ensures GroupsOk(GroupsFrom(words, start, n), n)
    decreases |words| - start
  {
    if start + n >= |words| {
      var group := OnlyGroup(words, start, n);
    } else {
      var first, later := GroupsStep(words, start, n);
      GroupSizes(words, start + n, n);
      GroupsOkStep(first, later, n);
    }
  }

  /** No chunk but that of a blank answer is blank, none has more words than asked for (four
      if nothing sensible is), and only the last one can have fewer; the others end with the
      blank that separates them from the next. */
  lemma ChunkSizes(answer: string, wordsPerChunk: int, i: nat)
    requires i < |AnswerChunks(answer, wordsPerChunk)|
    ensures var chunks, n := AnswerChunks(answer, wordsPerChunk), (if wordsPerChunk <= 0 then 4 else wordsPerChunk);
            && |Fields(chunks[i], GO_SPACE)| <= n
            && (Fields(answer, GO_SPACE) != [] ==> 0 < |Fields(chunks[i], GO_SPACE)|)
            && (i + 1 < |chunks| ==>
                  |Fields(chunks[i], GO_SPACE)| == n && chunks[i] != "" && chunks[i][|chunks[i]| - 1..] == " ")
  {
    FieldsOfTrim(answer, GO_SPACE);
    NoFieldsIffBlank(answer, GO_SPACE);
    FieldsAreWords(answer, GO_SPACE);
    var words := Fields(answer, GO_SPACE);
    if |words| > GroupSize(wordsPerChunk) {
      GroupSizes(words, 0, GroupSize(wordsPerChunk));
      assert GroupOk(AnswerChunks(answer, wordsPerChunk)[i], GroupSize(wordsPerChunk), i + 1 == |AnswerChunks(answer, wordsPerChunk)|);
    }
  }

  lemma ConcatOne(s: string)
    ensures Concat([s]) == s
  {
    assert Concat([s]) == s + Concat([s][1..]);
  }

  // ---- the response -----------------------------------------------------

  function TokensOf(chunks: seq<string>): seq<Event> {
    if chunks == [] then [] else [Token(chunks[0])] + TokensOf(chunks[1..])
  }

  function ResponseEvents(sessionID: string, answer: string): seq<Event> {
    TokensOf(AnswerChunks(answer, 4)) + [Done(sessionID)]
  }

  /** One frame after the other, flushed as it is written. */
  method StreamWidgetResponse(encode: Event -> string, sessionID: string, answer: string) returns (out: string)
    ensures out == Printed(encode, ResponseEvents(sessionID, answer))
  {
    out := "";
    var chunks := SplitAnswerChunks(answer, 4);
    for i := 0 to |chunks|
      invariant out == Printed(encode, TokensOf(chunks[..i]))
    {
      assert chunks[..i + 1] == chunks[..i] + [chunks[i]];
      TokensAppend(chunks[..i], chunks[i]);
      PrintedAppend(encode, TokensOf(chunks[..i]), Token(chunks[i]));
      out := WriteSSEEvent(out, encode(Token(chunks[i])));
    }
    assert chunks[..|chunks|] == chunks;
    PrintedAppend(encode, TokensOf(chunks), Done(sessionID));
    out := WriteSSEEvent(out, encode(Done(sessionID)));
  }

  method WriteSSEEvent(out0: string, json: string) returns (out: string)
    ensures out == out0 + Frame(json)
  {
    out := out0 + ("data: " + json + "\n\n");
  }

  lemma {:induction false} TokensAppend(chunks: seq<string>, chunk: string)
    ensures TokensOf(chunks + [chunk]) == TokensOf(chunks) + [Token(chunk)]
  {
    if chunks == [] {
      assert chunks + [chunk] == [chunk];
      assert [chunk][1..] == [];
    } else {
      assert (chunks + [chunk])[1..] == chunks[1..] + [chunk];
      TokensAppend(chunks[1..], chunk);
    }
  }

  lemma {:induction false} PrintedAppend(encode: Event -> string, events: seq<Event>, e: Event)
    ensures Printed(encode, events + [e]) == Printed(encode, events) + Frame(encode(e))
  {
    if events == [] {
      assert events + [e] == [e] && [e][1..] == [];
    } else {
      assert (events + [e])[1..] == events[1..] + [e];
      PrintedAppend(encode, events[1..], e);
      Associate(Frame(encode(events[0])), Printed(encode, events[1..]), Frame(encode(e)));
    }
  }

  lemma {:induction false} TokensAt(chunks: seq<string>, i: nat)
    requires i < |chunks|
    ensures |TokensOf(chunks)| == |chunks| && TokensOf(chunks)[i] == Token(chunks[i])
  {
    if |chunks| > 1 {
      TokensAt(chunks[1..], if i == 0 then 0 else i - 1);
    } else {
      assert chunks[1..] == [];
    }
  }

  /** Every event of a response but the last is a token of at most four words, of exactly
      four unless it is the last token. */
  lemma ResponseTokens(sessionID: string, answer: string, i: nat)
    requires i + 1 < |ResponseEvents(sessionID, answer)|
    ensures var events := ResponseEvents(sessionID, answer);
            && events[i].Token? && |Fields(events[i].text, GO_SPACE)| <= 4
            && (i + 2 < |events| ==> |Fields(events[i].text, GO_SPACE)| == 4)
  {
    var chunks := AnswerChunks(answer, 4);
    if chunks != [] { TokensAt(chunks, if i < |chunks| then i else 0); }
    ChunkSizes(answer, 4, i);
  }

  function TokenText(events: seq<Event>): string {
    if events == [] then ""
    else (if events[0].Token? then events[0].text else "") + TokenText(events[1..])
  }

  lemma {:induction false} TokenTextOfTokens(chunks: seq<string>, e: Event)
    requires e.Done?
    ensures TokenText(TokensOf(chunks) + [e]) == Concat(chunks)
  {
    if chunks == [] {
      assert TokensOf(chunks) + [e] == [e] && [e][1..] == [];
    } else {
      assert (TokensOf(chunks) + [e])[1..] == TokensOf(chunks[1..]) + [e];
      TokenTextOfTokens(chunks[1..], e);
    }
  }

  lemma ReceivesBeginning(encode: Event -> string, parse: string -> Option<Event>, events: seq<Event>, n: nat)
    requires Lawful(encode, parse) && n <= |Printed(encode, events)|
    ensures Delivered(parse, Printed(encode, events)[..n]) <= events
    ensures Delivered(parse, Printed(encode, events)) == events
  {
    TruncatedStream(encode, parse, events, n);
    StreamRoundTrip(encode, parse, events);
  }

  /** Server to widget: wherever the network cuts the stream, and even when it stops
      early, the widget's events are a beginning of the printed ones; a whole stream
      ends with the session, and its tokens carry the words of the answer. */
  lemma WidgetReceivesAnswer(encode: Event -> string, parse: string -> Option<Event>, sessionID: string, answer: string, n: nat)
    requires Lawful(encode, parse)
    requires n <= |Printed(encode, ResponseEvents(sessionID, answer))|
    ensures var events, text := ResponseEvents(sessionID, answer), Printed(encode, ResponseEvents(sessionID, answer));
            && Delivered(parse, text[..n]) <= events
            && Delivered(parse, text) == events
            && events[|events| - 1] == Done(sessionID)
            && Fields(TokenText(events), GO_SPACE) == Fields(answer, GO_SPACE)
  {
    ReceivesBeginning(encode, parse, ResponseEvents(sessionID, answer), n);
    TokenTextOfTokens(AnswerChunks(answer, 4), Done(sessionID));
    ChunksCarryAnswer(answer, 4);
  }
}
