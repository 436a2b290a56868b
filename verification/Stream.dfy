/** The answer stream: the server prints one frame per event, the widget parses the
    frames from reads cut anywhere. A subset of Server-sent events, section 9.2 of
    the WHATWG HTML Living Standard, except that an unterminated last block is
    dispatched too. */
module Stream {
  import opened Text
  import opened Splitting
  import opened Options

  /** The blanks of JavaScript's trim and \s. */
  predicate IsJsSpace(c: char) {
    || '\t' <= c <= '\r' || c == ' ' || c == '\U{00A0}' || c == '\U{1680}' || '\U{2000}' <= c <= '\U{200A}'
    || c == '\U{2028}' || c == '\U{2029}' || c == '\U{202F}' || c == '\U{205F}' || c == '\U{3000}' || c == '\U{FEFF}'
  }

  const JS_SPACE: set<char> := set c: char | IsJsSpace(c)

  // ---- the parser -------------------------------------------------------

  function TryParse<E>(parse: string -> Option<E>, payload: string): seq<E> {
    if payload == "" then [] else
      match parse(payload)
      case None => []
      case Some(e) => [e]
  }

  function LineEvents<E>(parse: string -> Option<E>, line: string): seq<E> {
    if "data: " <= line then TryParse(parse, Trim(line[6..], JS_SPACE)) else []
  }

  function EventsOfLines<E>(parse: string -> Option<E>, lines: seq<string>): seq<E> {
    if lines == [] then [] else LineEvents(parse, lines[0]) + EventsOfLines(parse, lines[1..])
  }

  function EventsOfBlocks<E>(parse: string -> Option<E>, blocks: seq<string>): seq<E> {
    if blocks == [] then []
    else EventsOfLines(parse, Split(blocks[0], "\n")) + EventsOfBlocks(parse, blocks[1..])
  }

  /** The text behind a leading "data:" and blanks; without it, the text itself. */
  function DropDataPrefix(s: string): string {
    if "data:" <= s then TrimLeft(s[5..], JS_SPACE) else s
  }

  function FinalEvents<E>(parse: string -> Option<E>, buffer: string): seq<E> {
    if "data:" <= Trim(buffer, JS_SPACE) then TryParse(parse, Trim(DropDataPrefix(buffer), JS_SPACE)) else []
  }

  /** What a whole stream delivers, read in one piece. */
  function Delivered<E>(parse: string -> Option<E>, text: string): seq<E> {
    var blocks := Split(text, "\n\n");
    EventsOfBlocks(parse, Init(blocks)) + FinalEvents(parse, Last(blocks))
  }

  lemma {:induction false} EventsOfBlocksConcat<E>(parse: string -> Option<E>, a: seq<string>, b: seq<string>)
    ensures EventsOfBlocks(parse, a + b) == EventsOfBlocks(parse, a) + EventsOfBlocks(parse, b)
  {
    if a == [] {
      assert a + b == b;
    } else {
      assert (a + b)[1..] == a[1..] + b;
      EventsOfBlocksConcat(parse, a[1..], b);
      Associate(EventsOfLines(parse, Split(a[0], "\n")), EventsOfBlocks(parse, a[1..]), EventsOfBlocks(parse, b));
    }
  }

  lemma {:induction false} EventsOfLinesAppend<E>(parse: string -> Option<E>, lines: seq<string>, line: string)
    ensures EventsOfLines(parse, lines + [line]) == EventsOfLines(parse, lines) + LineEvents(parse, line)
  {
    if lines == [] {
      assert lines + [line] == [line];
    } else {
      assert (lines + [line])[1..] == lines[1..] + [line];
      EventsOfLinesAppend(parse, lines[1..], line);
      Associate(LineEvents(parse, lines[0]), EventsOfLines(parse, lines[1..]), LineEvents(parse, line));
    }
  }

  method ProcessEventLine<E>(parse: string -> Option<E>, line: string) returns (events: seq<E>)
    ensures events == LineEvents(parse, line)
  {
    if !("data: " <= line) {
      return [];
    }
    var jsonPayload := Trim(line[6..], JS_SPACE);
    if jsonPayload == "" {
      return [];
    }
    var parsed := parse(jsonPayload);
    return if parsed.Some? then [parsed.value] else [];
  }

  lemma PrefixStep<T>(s: seq<T>, j: nat)
    requires j < |s|
    ensures s[..j + 1] == s[..j] + [s[j]]
  {
  }

  lemma LinesStep<E>(parse: string -> Option<E>, lines: seq<string>, j: nat)
    requires j < |lines|
    ensures EventsOfLines(parse, lines[..j + 1]) == EventsOfLines(parse, lines[..j]) + LineEvents(parse, lines[j])
  {
    EventsOfLinesAppend(parse, lines[..j], lines[j]);
    PrefixStep(lines, j);
  }

  lemma OneBlock<E>(parse: string -> Option<E>, block: string)
    ensures EventsOfBlocks(parse, [block]) == EventsOfLines(parse, Split(block, "\n"))
  {
    assert EventsOfBlocks(parse, []) == [];
  }

  lemma BlocksStep<E>(parse: string -> Option<E>, blocks: seq<string>, i: nat)
    requires i < |blocks|
    ensures EventsOfBlocks(parse, blocks[..i + 1]) ==
            EventsOfBlocks(parse, blocks[..i]) + EventsOfLines(parse, Split(blocks[i], "\n"))
  {
    EventsOfBlocksConcat(parse, blocks[..i], [blocks[i]]);
    OneBlock(parse, blocks[i]);
    PrefixStep(blocks, i);
  }

  lemma Whole<T>(s: seq<T>)
    ensures s[..|s|] == s
  {
  }

  method ProcessLines<E>(parse: string -> Option<E>, lines: seq<string>) returns (events: seq<E>)
    ensures events == EventsOfLines(parse, lines)
  {
    events := [];
    for j := 0 to |lines|
      invariant events == EventsOfLines(parse, lines[..j])
    {
      var more := ProcessEventLine(parse, lines[j]);
      LinesStep(parse, lines, j);
      events := events + more;
    }
    Whole(lines);
  }

  /** Every line of every completed block. */
  method ProcessBlocks<E>(parse: string -> Option<E>, blocks: seq<string>) returns (events: seq<E>)
    ensures events == EventsOfBlocks(parse, blocks)
  {
    events := [];
    for i := 0 to |blocks|
      invariant events == EventsOfBlocks(parse, blocks[..i])
    {
      var lines := Split(blocks[i], "\n");
      var found := ProcessLines(parse, lines);
      BlocksStep(parse, blocks, i);
      events := events + found;
    }
    Whole(blocks);
  }

  /** The read loop. What it delivers depends on the concatenation of the reads only,
      not on where they are cut; empty reads change nothing. */
  method ConsumeSSE<E>(parse: string -> Option<E>, pieces: seq<string>) returns (events: seq<E>)
    ensures events == Delivered(parse, Concat(pieces))
  {
    events := [];
    var buffer := "";
    for i := 0 to |pieces|
      invariant var parts := Split(Concat(pieces[..i]), "\n\n");
                events == EventsOfBlocks(parse, Init(parts)) && buffer == Last(parts)
    {
      ghost var parts := Split(Concat(pieces[..i]), "\n\n");
      var blocks := Split(buffer + pieces[i], "\n\n");
      var found := ProcessBlocks(parse, blocks[..|blocks| - 1]);
      ReadStep(pieces, i);
      EventsOfBlocksConcat(parse, Init(parts), Init(blocks));
      events := events + found;
      buffer := blocks[|blocks| - 1];
    }
    assert pieces[..|pieces|] == pieces;
    var last := FinalBlock(parse, buffer);
    events := events + last;
  }

  lemma ReadStep(pieces: seq<string>, i: nat)
    requires i < |pieces|
    ensures var parts := Split(Concat(pieces[..i]), "\n\n");
            var blocks := Split(Last(parts) + pieces[i], "\n\n");
            var next := Split(Concat(pieces[..i + 1]), "\n\n");
            Init(next) == Init(parts) + Init(blocks) && Last(next) == Last(blocks)
  {
    assert pieces[..i + 1] == pieces[..i] + [pieces[i]];
    ConcatAppend(pieces[..i], [pieces[i]]);
    assert Concat([pieces[i]]) == pieces[i] + Concat([]) == pieces[i];
    SplitConcat(Concat(pieces[..i]), pieces[i], "\n\n");
  }

  /** The handling of what is left when the stream ends. */
  method FinalBlock<E>(parse: string -> Option<E>, buffer: string) returns (events: seq<E>)
    ensures events == FinalEvents(parse, buffer)
  {
    events := [];
    if "data:" <= Trim(buffer, JS_SPACE) {
      var finalLine := Trim(DropDataPrefix(buffer), JS_SPACE);
      if finalLine != "" {
        var parsed := parse(finalLine);
        if parsed.Some? {
          events := [parsed.value];
        }
      }
    }
  }

  // ---- the printer ------------------------------------------------------

  function Data(json: string): string {
    "data: " + json
  }

  function Frame(json: string): string {
    Data(json) + "\n\n"
  }

  function Printed<E>(encode: E -> string, events: seq<E>): string {
    if events == [] then "" else Frame(encode(events[0])) + Printed(encode, events[1..])
  }

  /** The JSON text of one event: one line without outer blanks, read back as printed,
      and no proper prefix of it is JSON. */
  ghost predicate JsonOf<E>(parse: string -> Option<E>, json: string, e: E) {
    && json != "" && '\n' !in json
    && json[0] !in JS_SPACE && json[|json| - 1] !in JS_SPACE
    && parse(json) == Some(e)
    && (forall n :: 0 <= n < |json| ==> parse(json[..n]) == None)
  }

  /** The law of the codec. */
  ghost predicate Lawful<E(!new)>(encode: E -> string, parse: string -> Option<E>) {
    forall e :: JsonOf(parse, encode(e), e)
  }

  // ---- one frame --------------------------------------------------------

  lemma NoNewline(json: string)
    requires '\n' !in json
    ensures '\n' !in Data(json)
    ensures forall i :: 0 <= i < |Data(json)| ==> Data(json)[i] != '\n'
  {
    assert '\n' !in "data: ";
  }

  lemma TrimCore(a: string, b: string)
    requires a != "" && a[0] !in JS_SPACE && a[|a| - 1] !in JS_SPACE && AllIn(b, JS_SPACE)
    ensures TrimLeft(a + b, JS_SPACE) == a + b && Trim(a + b, JS_SPACE) == a
  {
    TrimRightUnique(a, b, JS_SPACE);
  }

  lemma LineOfData<E>(parse: string -> Option<E>, json: string, e: E)
    requires JsonOf(parse, json, e)
    ensures LineEvents(parse, Data(json)) == [e]
  {
    assert Data(json)[6..] == json;
    TrimCore(json, "");
    assert json + "" == json;
  }

  lemma OneLineBlock<E>(parse: string -> Option<E>, line: string)
    requires forall i :: 0 <= i < |line| ==> line[i] != '\n'
    ensures EventsOfBlocks(parse, [line]) == LineEvents(parse, line)
  {
    SplitNone(line, "\n");
    assert EventsOfLines(parse, [line]) == LineEvents(parse, line) + EventsOfLines(parse, [line][1..]);
    assert EventsOfBlocks(parse, [line]) == EventsOfLines(parse, [line]) + EventsOfBlocks(parse, [line][1..]);
  }

  lemma DeliveredHead<E>(parse: string -> Option<E>, body: string, rest: string)
    requires '\n' !in body
    ensures Delivered(parse, body + "\n\n" + rest) == EventsOfBlocks(parse, [body]) + Delivered(parse, rest)
  {
    Associate(body, "\n\n", rest);
    SplitFrame(body, "\n\n", rest);
    DeliveredSplit(parse, body + "\n\n" + rest, body, rest);
  }

  lemma DeliveredSplit<E>(parse: string -> Option<E>, text: string, body: string, rest: string)
    requires Split(text, "\n\n") == [body] + Split(rest, "\n\n")
    ensures Delivered(parse, text) == EventsOfBlocks(parse, [body]) + Delivered(parse, rest)
  {
    var later := Split(rest, "\n\n");
    assert Last([body] + later) == Last(later) && Init([body] + later) == [body] + Init(later);
    EventsOfBlocksConcat(parse, [body], Init(later));
    Associate(EventsOfBlocks(parse, [body]), EventsOfBlocks(parse, Init(later)), FinalEvents(parse, Last(later)));
  }

  /** A complete frame at the head delivers its event and nothing else. */
  lemma HeadFrame<E>(parse: string -> Option<E>, json: string, e: E, rest: string)
    requires JsonOf(parse, json, e)
    ensures Delivered(parse, Frame(json) + rest) == [e] + Delivered(parse, rest)
  {
    NoNewline(json);
    DeliveredHead(parse, Data(json), rest);
    OneLineBlock(parse, Data(json));
    LineOfData(parse, json, e);
  }

  // ---- blocks of several lines ------------------------------------------

  /** What a line is worth: the event of its JSON behind "data: ", nothing otherwise. */
  ghost predicate LineYields<E>(parse: string -> Option<E>, line: string, yielded: Option<E>) {
    match yielded
    case Some(e) => "data: " <= line && JsonOf(parse, line[6..], e)
    case None => !("data: " <= line)
  }

  ghost function Present<E>(yielded: seq<Option<E>>): seq<E> {
    if yielded == [] then [] else (if yielded[0].Some? then [yielded[0].value] else []) + Present(yielded[1..])
  }

  lemma LineIs<E>(parse: string -> Option<E>, line: string, yielded: Option<E>)
    requires LineYields(parse, line, yielded)
    ensures LineEvents(parse, line) == if yielded.Some? then [yielded.value] else []
  {
    if yielded.Some? {
      assert line == Data(line[6..]);
      LineOfData(parse, line[6..], yielded.value);
    }
  }

  lemma {:induction false} LinesAre<E>(parse: string -> Option<E>, lines: seq<string>, yielded: seq<Option<E>>)
    requires |yielded| == |lines| && forall k :: 0 <= k < |lines| ==> LineYields(parse, lines[k], yielded[k])
    ensures EventsOfLines(parse, lines) == Present(yielded)
  {
    if lines == [] {
    } else {
      LineIs(parse, lines[0], yielded[0]);
      LinesAre(parse, lines[1..], yielded[1..]);
    }
  }

  lemma DeliveredBlock<E>(parse: string -> Option<E>, lines: seq<string>, rest: string)
    requires lines != [] && forall k :: 0 <= k < |lines| ==> '\n' !in lines[k] && lines[k] != ""
    ensures Delivered(parse, Join(lines, "\n") + ("\n\n" + rest)) == EventsOfLines(parse, lines) + Delivered(parse, rest)
  {
    var body := Join(lines, "\n");
    forall i | 0 <= i < |body| && body[i] == '\n' ensures i + 1 < |body| && body[i + 1] != '\n' {
      JoinedIsSingle(lines, '\n', i);
    }
    SplitDouble(body, '\n', rest);
    SplitJoined(lines, '\n');
    OneBlock(parse, body);
    DeliveredSplit(parse, body + ("\n\n" + rest), body, rest);
  }

  /** A complete block of several lines delivers the event of every data line, in order, and
      nothing for the others, whatever follows. */
  lemma BlockDeliversEveryLine<E>(parse: string -> Option<E>, lines: seq<string>, yielded: seq<Option<E>>, rest: string)
    requires lines != [] && forall k :: 0 <= k < |lines| ==> '\n' !in lines[k] && lines[k] != ""
    requires |yielded| == |lines| && forall k :: 0 <= k < |lines| ==> LineYields(parse, lines[k], yielded[k])
    ensures Delivered(parse, Join(lines, "\n") + ("\n\n" + rest)) == Present(yielded) + Delivered(parse, rest)
  {
    DeliveredBlock(parse, lines, rest);
    LinesAre(parse, lines, yielded);
  }

  /** The blank behind "data:" is needed in a completed block and not in the last one: the
      same text delivers its event only if the stream ends without an empty line. */
  lemma BlankIsNeededInBlocks<E>(parse: string -> Option<E>, json: string, e: E)
    requires JsonOf(parse, json, e)
    ensures Delivered(parse, "data:" + json) == [e]
    ensures Delivered(parse, "data:" + json + "\n\n") == []
  {
    var line := "data:" + json;
    assert !IsJsSpace('d') && !IsJsSpace(':');
    NoNewline(json);
    assert forall i :: 0 <= i < |line| ==> line[i] in line;
    NoSeparator(parse, line);
    FinalWithoutBlank(parse, json, e);
    DeliveredHead(parse, line, "");
    assert line + "\n\n" + "" == line + "\n\n";
    NotDataLine(json);
    OneLineBlock(parse, line);
    EmptyDeliversNothing(parse);
  }

  lemma NotDataLine(json: string)
    requires json != "" && json[0] !in JS_SPACE
    ensures !("data: " <= "data:" + json)
  {
    assert IsJsSpace(' ') && ("data:" + json)[5] == json[0];
  }

  lemma EmptyDeliversNothing<E>(parse: string -> Option<E>)
    ensures Delivered(parse, "") == []
  {
    NoSeparator(parse, "");
  }

  lemma FinalWithoutBlank<E>(parse: string -> Option<E>, json: string, e: E)
    requires JsonOf(parse, json, e)
    ensures FinalEvents(parse, "data:" + json) == [e]
  {
    DataStays(json);
    assert ("data:" + json)[5..] == json;
    TrimCore(json, "");
    assert json + "" == json;
    FinalOf(parse, "data:" + json, json, json);
  }

  // ---- a frame that is cut off ------------------------------------------

  /** A stream that ends before any empty line is all final block. */
  lemma NoSeparator<E>(parse: string -> Option<E>, t: string)
    requires forall i :: 0 <= i < |t| - 1 ==> t[i] != '\n'
    ensures Delivered(parse, t) == FinalEvents(parse, t)
  {
    SplitNone(t, "\n\n");
    assert Init([t]) == [] && Last([t]) == t;
  }

  lemma {:induction false} TrimRightStops(a: string, b: string)
    requires a != "" && a[|a| - 1] !in JS_SPACE
    ensures a <= TrimRight(a + b, JS_SPACE)
  {
    if b == "" {
      assert a + b == a;
    } else if b[|b| - 1] in JS_SPACE {
      assert (a + b)[..|a + b| - 1] == a + b[..|b| - 1];
      TrimRightStops(a, b[..|b| - 1]);
    } else {
      assert (a + b)[|a + b| - 1] == b[|b| - 1];
    }
  }

  /** Trimming never eats into a leading "data:". */
  lemma DataStays(rest: string)
    ensures "data:" <= Trim("data:" + rest, JS_SPACE)
  {
    assert !IsJsSpace('d') && !IsJsSpace(':');
    var s := "data:" + rest;
    assert s[0] == 'd' && TrimLeft(s, JS_SPACE) == s;
    TrimRightStops("data:", rest);
  }

  lemma DropOfData(text: string)
    requires text == "" || text[0] !in JS_SPACE
    ensures DropDataPrefix(Data(text)) == text
  {
    var s := Data(text);
    assert "data:" <= s && s[5..] == " " + text;
    assert IsJsSpace(' ');
    TrimLeftUnique(" ", text, JS_SPACE);
  }

  lemma DataStaysInTrim(text: string)
    ensures "data:" <= Trim(Data(text), JS_SPACE)
  {
    DataStays(" " + text);
    assert Data(text) == "data:" + (" " + text);
  }

  lemma FinalOf<E>(parse: string -> Option<E>, s: string, text: string, core: string)
    requires "data:" <= Trim(s, JS_SPACE) && DropDataPrefix(s) == text && Trim(text, JS_SPACE) == core
    ensures FinalEvents(parse, s) == TryParse(parse, core)
  {
  }

  lemma TrimOfHead(text: string)
    requires text == "" || text[0] !in JS_SPACE
    ensures Trim(text, JS_SPACE) == TrimRight(text, JS_SPACE)
  {
  }

  /** What the final block makes of a text behind "data: ". */
  lemma FinalOfData<E>(parse: string -> Option<E>, text: string)
    requires text == "" || text[0] !in JS_SPACE
    ensures FinalEvents(parse, Data(text)) == TryParse(parse, TrimRight(text, JS_SPACE))
  {
    DropOfData(text);
    DataStaysInTrim(text);
    TrimOfHead(text);
    FinalOf(parse, Data(text), text, TrimRight(text, JS_SPACE));
  }

  lemma WholeBody<E>(parse: string -> Option<E>, json: string, e: E, tail: string)
    requires JsonOf(parse, json, e) && AllIn(tail, JS_SPACE)
    ensures FinalEvents(parse, Data(json) + tail) == [e]
  {
    Associate("data: ", json, tail);
    FinalOfData(parse, json + tail);
    TrimCore(json, tail);
  }

  lemma CutBody<E>(parse: string -> Option<E>, json: string, e: E, n: nat)
    requires JsonOf(parse, json, e) && 6 <= n < 6 + |json|
    ensures FinalEvents(parse, Data(json)[..n]) == []
  {
    var text := json[..n - 6];
    DataPrefix(json, n);
    FinalOfData(parse, text);
    CutIsNoJson(parse, json, e, text, TrimRight(text, JS_SPACE));
  }

  lemma DataPrefix(json: string, n: nat)
    requires 6 <= n <= 6 + |json|
    ensures Data(json)[..n] == Data(json[..n - 6])
  {
  }

  lemma CutIsNoJson<E>(parse: string -> Option<E>, json: string, e: E, text: string, payload: string)
    requires JsonOf(parse, json, e) && payload <= text <= json && text != json
    ensures TryParse(parse, payload) == []
    ensures text == "" || text[0] !in JS_SPACE
  {
    assert payload == json[..|payload|];
  }

  lemma CutPrefix<E>(parse: string -> Option<E>, json: string, n: nat)
    requires n < 6
    ensures FinalEvents(parse, Data(json)[..n]) == []
  {
    var t := Data(json)[..n];
    if n < 5 {
      assert |Trim(t, JS_SPACE)| < 5;
    } else {
      assert t == "data:" && t[5..] == "";
    }
  }

  /** The cut-off frame at the end of a truncated stream: not yet complete, or
      complete up to its line breaks. */
  lemma CutFrame<E>(parse: string -> Option<E>, json: string, e: E, n: nat)
    requires JsonOf(parse, json, e) && n < |Frame(json)|
    ensures Delivered(parse, Frame(json)[..n]) == if n < |Data(json)| then [] else [e]
  {
    var body := Data(json);
    PrefixOfFrame(body, n);
    CutHasNoSeparator(json, n);
    NoSeparator(parse, Frame(json)[..n]);
    if n < 6 {
      CutPrefix(parse, json, n);
    } else if n < |body| {
      CutBody(parse, json, e, n);
    } else {
      assert IsJsSpace('\n');
      WholeBody(parse, json, e, if n == |body| then "" else "\n");
    }
  }

  lemma PrefixOfFrame(body: string, n: nat)
    requires n < |body| + 2
    ensures n < |body| ==> (body + "\n\n")[..n] == body[..n]
    ensures n == |body| ==> (body + "\n\n")[..n] == body + ""
    ensures n == |body| + 1 ==> (body + "\n\n")[..n] == body + "\n"
  {
  }

  lemma CutHasNoSeparator(json: string, n: nat)
    requires '\n' !in json && n < |Frame(json)|
    ensures forall i :: 0 <= i < n - 1 ==> Frame(json)[..n][i] != '\n'
  {
    NoNewline(json);
    forall i | 0 <= i < n - 1 ensures Frame(json)[..n][i] != '\n' {
      assert Frame(json)[..n][i] == Data(json)[i];
    }
  }

  // ---- whole streams ----------------------------------------------------

  /** How many events are complete in the first n characters of a printed stream: an
      event counts as soon as its JSON text is there, line breaks or not. */
  function Complete<E>(encode: E -> string, events: seq<E>, n: nat): (k: nat)
    ensures k <= |events|
    decreases |events|
  {
    if events == [] then 0
    else
      var d := |Data(encode(events[0]))|;
      if n < d then 0 else if n < d + 2 then 1 else 1 + Complete(encode, events[1..], n - (d + 2))
  }

  /** A complete frame at the head yields its event, whatever follows. */
  ghost predicate HeadLaw<E(!new)>(deliver: string -> seq<E>, encode: E -> string) {
    forall e: E, rest: string :: deliver(Frame(encode(e)) + rest) == [e] + deliver(rest)
  }

  /** A cut frame yields its event exactly when its text is there. */
  ghost predicate CutLaw<E(!new)>(deliver: string -> seq<E>, encode: E -> string) {
    forall e: E, n: nat :: n < |Frame(encode(e))| ==>
      deliver(Frame(encode(e))[..n]) == if n < |Data(encode(e))| then [] else [e]
  }

  /** Frame by frame through a truncated stream. */
  lemma {:induction false} ChainOfFrames<E(!new)>(deliver: string -> seq<E>, encode: E -> string, events: seq<E>, n: nat)
    requires HeadLaw(deliver, encode) && CutLaw(deliver, encode) && deliver("") == []
    requires n <= |Printed(encode, events)|
    ensures deliver(Printed(encode, events)[..n]) == events[..Complete(encode, events, n)]
    decreases |events|
  {
    if events == [] {
      assert Printed(encode, events)[..n] == "";
    } else {
      var frame, later := Frame(encode(events[0])), Printed(encode, events[1..]);
      PrefixOfConcat(frame, later, n);
      if n < |frame| {
        assert deliver(frame[..n]) == if n < |Data(encode(events[0]))| then [] else [events[0]];
        assert events[..1] == [events[0]];
      } else {
        var m := n - |frame|;
        ChainOfFrames(deliver, encode, events[1..], m);
        assert deliver(frame + later[..m]) == [events[0]] + deliver(later[..m]);
        ConsPrefix(events, Complete(encode, events[1..], m));
      }
    }
  }

  function Deliverer<E>(parse: string -> Option<E>): string -> seq<E> {
    s => Delivered(parse, s)
  }

  lemma DelivererHeads<E(!new)>(encode: E -> string, parse: string -> Option<E>)
    requires Lawful(encode, parse)
    ensures HeadLaw(Deliverer(parse), encode)
  {
    var deliver := Deliverer(parse);
    forall e: E, rest: string ensures deliver(Frame(encode(e)) + rest) == [e] + deliver(rest) {
      assert JsonOf(parse, encode(e), e);
      HeadFrame(parse, encode(e), e, rest);
    }
  }

  lemma DelivererCuts<E(!new)>(encode: E -> string, parse: string -> Option<E>)
    requires Lawful(encode, parse)
    ensures CutLaw(Deliverer(parse), encode)
  {
    var deliver := Deliverer(parse);
    forall e: E, n: nat | n < |Frame(encode(e))|
      ensures deliver(Frame(encode(e))[..n]) == if n < |Data(encode(e))| then [] else [e]
    {
      assert JsonOf(parse, encode(e), e);
      CutFrame(parse, encode(e), e, n);
    }
  }

  /** A stream truncated anywhere delivers exactly the events whose text arrived. */
  lemma TruncatedStream<E(!new)>(encode: E -> string, parse: string -> Option<E>, events: seq<E>, n: nat)
    requires Lawful(encode, parse) && n <= |Printed(encode, events)|
    ensures Delivered(parse, Printed(encode, events)[..n]) == events[..Complete(encode, events, n)]
  {
    DelivererHeads(encode, parse);
    DelivererCuts(encode, parse);
    NoSeparator(parse, "");
    ChainOfFrames(Deliverer(parse), encode, events, n);
  }

  lemma PrefixOfConcat(a: string, b: string, n: nat)
    requires n <= |a + b|
    ensures n < |a| ==> (a + b)[..n] == a[..n]
    ensures n >= |a| ==> (a + b)[..n] == a + b[..n - |a|]
  {
  }

  lemma ConsPrefix<E>(events: seq<E>, k: nat)
    requires events != [] && k <= |events| - 1
    ensures [events[0]] + events[1..][..k] == events[..k + 1]
  {
  }

  lemma {:induction false} CompleteAll<E>(encode: E -> string, events: seq<E>)
    ensures Complete(encode, events, |Printed(encode, events)|) == |events|
    decreases |events|
  {
    if events == [] {
    } else {
      CompleteAll(encode, events[1..]);
    }
  }

  /** Round trip: printing and consuming is the identity; with ConsumeSSE's contract,
      wherever the reads are cut. */
  lemma StreamRoundTrip<E(!new)>(encode: E -> string, parse: string -> Option<E>, events: seq<E>)
    requires Lawful(encode, parse)
    ensures Delivered(parse, Printed(encode, events)) == events
  {
    var text := Printed(encode, events);
    TruncatedStream(encode, parse, events, |text|);
    CompleteAll(encode, events);
    assert text[..|text|] == text && events[..|events|] == events;
  }
}
