/** The output parser of ClaudeAdapter.stream: newline-delimited events over text that arrives in
    arbitrary chunks, and the verdict on the run when the process has ended. */
module ClaudeStream {
  import opened Sequences

  /** The values of `type` that the adapter knows: "stream_event", "content_block_delta",
      "text_delta" and "result". */
  datatype Kind = StreamEventKind | ContentBlockDeltaKind | TextDeltaKind | ResultKind | OtherKind(name: string)

  /** The fields of an event that the adapter reads. `isError` is the truth value of is_error;
      `subtype` and `text` are None unless they are strings. */
  datatype Delta = Delta(kind: Kind, text: Option<string>)
  datatype Inner = Inner(kind: Kind, delta: Option<Delta>)
  datatype StreamEvent = StreamEvent(kind: Kind, event: Option<Inner>, isError: bool, subtype: Option<string>)

  /** What a text reads as. For parseEvent, None when JSON.parse throws or gives a falsy value. */
  type Reader = string -> Option<StreamEvent>

  predicate IsSpace(c: char)
  {
    || '\t' <= c <= '\r' || c == ' ' || c == '\U{A0}' || c == '\U{1680}' || '\U{2000}' <= c <= '\U{200A}'
    || c == '\U{2028}' || c == '\U{2029}' || c == '\U{202F}' || c == '\U{205F}' || c == '\U{3000}' || c == '\U{FEFF}'
  }

  /** String.prototype.trim. */
  function Trim(s: string): string
  {
    if s == "" then ""
    else if IsSpace(s[0]) then Trim(s[1..])
    else if IsSpace(s[|s| - 1]) then Trim(s[..|s| - 1])
    else s
  }

  function White(): char -> bool { (c: char) => IsSpace(c) }

  predicate All(p: char -> bool, s: string) { forall i :: 0 <= i < |s| ==> p(s[i]) }

  /** The text with white space around it. */
  ghost predicate IsPadded(s: string, a: string, t: string, b: string)
  {
    s == a + t + b && All(White(), a) && All(White(), b)
  }

  /** It takes white space off both ends and nothing else. */
  lemma {:induction false} TrimIsMiddle(s: string) returns (a: string, b: string)
    ensures IsPadded(s, a, Trim(s), b)
    ensures Trim(s) != "" ==> !White()(Trim(s)[0]) && !White()(Trim(s)[|Trim(s)| - 1])
    decreases |s|
  {
    a, b := "", "";
    if s == "" {
    } else if White()(s[0]) {
      a, b := TrimIsMiddle(s[1..]);
      PadFront(s, a, Trim(s[1..]), b);
      a := [s[0]] + a;
    } else if White()(s[|s| - 1]) {
      a, b := TrimIsMiddle(s[..|s| - 1]);
      PadBack(s, a, Trim(s[..|s| - 1]), b);
      b := b + [s[|s| - 1]];
    }
  }

  lemma PadFront(s: string, a: string, t: string, b: string)
    requires s != "" && White()(s[0]) && IsPadded(s[1..], a, t, b)
    ensures IsPadded(s, [s[0]] + a, t, b)
  {
    assert s == [s[0]] + s[1..];
  }

  lemma PadBack(s: string, a: string, t: string, b: string)
    requires s != "" && White()(s[|s| - 1]) && IsPadded(s[..|s| - 1], a, t, b)
    ensures IsPadded(s, a, t, b + [s[|s| - 1]])
  {
    assert s == s[..|s| - 1] + [s[|s| - 1]];
  }

  /** A line is read without the white space around it, and a blank one is not read at all. */
  lemma LineReads(parse: Reader, line: string, a: string, t: string, b: string)
    requires IsPadded(line, a, t, b)
    requires t != "" ==> !White()(t[0]) && !White()(t[|t| - 1])
    ensures LineReader(parse)(line) == if t == "" then None else parse(t)
  {
    TrimPadded(line, a, t, b);
  }

  lemma {:induction false} TrimPadded(s: string, a: string, t: string, b: string)
    requires IsPadded(s, a, t, b)
    requires t != "" ==> !White()(t[0]) && !White()(t[|t| - 1])
    ensures Trim(s) == t
    decreases |a| + |b|, |b|
  {
    if a != "" {
      CutFront(s, a, t, b);
      TrimPadded(s[1..], a[1..], t, b);
    } else if t == "" && b != "" {
      assert s == b + "" + "";
      TrimPadded(s, b, "", "");
    } else if b != "" {
      CutBack(s, a, t, b);
      TrimPadded(s[..|s| - 1], a, t, b[..|b| - 1]);
    } else {
      assert s == t;
    }
  }

  lemma CutFront(s: string, a: string, t: string, b: string)
    requires a != "" && IsPadded(s, a, t, b)
    ensures s != "" && White()(s[0]) && IsPadded(s[1..], a[1..], t, b)
  {
    assert a == [a[0]] + a[1..];
    assert s == [a[0]] + (a[1..] + t + b);
  }

  lemma CutBack(s: string, a: string, t: string, b: string)
    requires a == "" && t != "" && b != "" && IsPadded(s, a, t, b)
    ensures s != "" && s[0] == t[0] && White()(s[|s| - 1]) && IsPadded(s[..|s| - 1], a, t, b[..|b| - 1])
  {
    assert b == b[..|b| - 1] + [b[|b| - 1]];
    assert s == (a + t + b[..|b| - 1]) + [b[|b| - 1]];
  }

  /** WhiteSpace and LineTerminator (sections 12.2 and 12.3 of ECMA-262). */
  lemma SpacesAre(c: char)
    ensures IsSpace(c) <==>
            c in "\t\n\U{0B}\U{0C}\r \U{A0}\U{1680}\U{2000}\U{2001}\U{2002}\U{2003}\U{2004}\U{2005}\U{2006}"
               + "\U{2007}\U{2008}\U{2009}\U{200A}\U{2028}\U{2029}\U{202F}\U{205F}\U{3000}\U{FEFF}"
  {}

  /** What has been yielded, and the flags of the last result event. */
  datatype Parsed = Parsed(texts: seq<string>, resultIsError: bool, resultErrorSubtype: string)

  const START := Parsed([], false, "")

  predicate IsTextDelta(e: StreamEvent)
  {
    && e.kind == StreamEventKind && e.event.Some? && e.event.value.kind == ContentBlockDeltaKind
    && e.event.value.delta.Some? && e.event.value.delta.value.kind == TextDeltaKind
  }

  /** A line that is blank or does not parse has no event. */
  function LineReader(parse: Reader): Reader
  {
    line => if Trim(line) == "" then None else parse(Trim(line))
  }

  function HandleEvent(p: Parsed, e: StreamEvent): Parsed
  {
    if IsTextDelta(e) then
      var text := e.event.value.delta.value.text;
      if text.Some? && text.value != "" then p.(texts := p.texts + [text.value]) else p
    else if e.kind == ResultKind then
      p.(resultIsError := e.isError, resultErrorSubtype := if e.subtype.Some? then e.subtype.value else "")
    else p
  }

  function HandleLine(read: Reader, p: Parsed, line: string): Parsed
  {
    match read(line)
    case None => p
    case Some(e) => HandleEvent(p, e)
  }

  function HandleLines(read: Reader, p: Parsed, lines: seq<string>): Parsed
  {
    if lines == [] then p
    else HandleLine(read, HandleLines(read, p, lines[..|lines| - 1]), lines[|lines| - 1])
  }

  lemma {:induction false} HandleAppend(read: Reader, p: Parsed, a: seq<string>, b: seq<string>)
    ensures HandleLines(read, p, a + b) == HandleLines(read, HandleLines(read, p, a), b)
  {
    if b == [] {
      assert a + b == a;
    } else {
      assert (a + b)[..|a + b| - 1] == a + b[..|b| - 1];
      HandleAppend(read, p, a, b[..|b| - 1]);
    }
  }

  predicate IsResult(read: Reader, line: string)
  {
    match read(line)
    case None => false
    case Some(e) => !IsTextDelta(e) && e.kind == ResultKind
  }

  /** What the consumer receives for an event: the nonempty text of a text delta. */
  function TextsOf(e: Option<StreamEvent>): seq<string>
  {
    if e.None? || !IsTextDelta(e.value) then []
    else
      var text := e.value.event.value.delta.value.text;
      if text.Some? && text.value != "" then [text.value] else []
  }

  function Yielded(read: Reader): string -> seq<string> { line => TextsOf(read(line)) }

  lemma OneLine(read: Reader, p: Parsed, line: string)
    ensures HandleLine(read, p, line).texts == p.texts + Yielded(read)(line)
    ensures !IsResult(read, line) ==>
              HandleLine(read, p, line).resultIsError == p.resultIsError
              && HandleLine(read, p, line).resultErrorSubtype == p.resultErrorSubtype
  {
    assert p.texts + [] == p.texts;
  }

  /** Every line is yielded for on its own, in order. */
  lemma {:induction false} EachLineOnItsOwn(read: Reader, p: Parsed, lines: seq<string>)
    ensures HandleLines(read, p, lines).texts == p.texts + Flatten(Map(Yielded(read), lines))
  {
    if lines == [] {
      assert p.texts + Flatten(Map(Yielded(read), lines)) == p.texts;
    } else {
      var front, last := lines[..|lines| - 1], lines[|lines| - 1];
      var one := [Yielded(read)(last)];
      EachLineOnItsOwn(read, p, front);
      OneLine(read, HandleLines(read, p, front), last);
      assert Map(Yielded(read), lines) == Map(Yielded(read), front) + one;
      FlattenAppend(Map(Yielded(read), front), one);
      assert one[1..] == [] && Flatten(one) == one[0] + Flatten(one[1..]);
    }
  }

  /** Of the result events only the last one counts. */
  lemma {:induction false} LastResultCounts(read: Reader, p: Parsed, lines: seq<string>, k: nat)
    requires k < |lines| && IsResult(read, lines[k])
    requires forall i :: k < i < |lines| ==> !IsResult(read, lines[i])
    ensures var e := read(lines[k]).value;
            && HandleLines(read, p, lines).resultIsError == e.isError
            && HandleLines(read, p, lines).resultErrorSubtype == if e.subtype.Some? then e.subtype.value else ""
  {
    var front, last := lines[..|lines| - 1], lines[|lines| - 1];
    if k < |front| {
      LastResultCounts(read, p, front, k);
      OneLine(read, HandleLines(read, p, front), last);
    }
  }

  // ----- an event by its shape -----

  /** What the parse of one line adds, by the shape of its event: a stream event around a content block delta
      around a text delta with text adds that text, a result event sets the flags, and anything else changes
      nothing. */
  ghost predicate Adds(before: Parsed, event: Option<StreamEvent>, after: Parsed)
  {
    match event
    case Some(StreamEvent(StreamEventKind, Some(Inner(ContentBlockDeltaKind, Some(Delta(TextDeltaKind, Some(t))))),
                          _, _)) =>
      after == Parsed(if t == "" then before.texts else before.texts + [t],
                      before.resultIsError, before.resultErrorSubtype)
    case Some(StreamEvent(ResultKind, _, isError, subtype)) =>
      after == Parsed(before.texts, isError, match subtype case Some(name) => name case None => "")
    case _ => after == before
  }

  lemma LineAdds(read: Reader, p: Parsed, line: string)
    ensures Adds(p, read(line), HandleLine(read, p, line))
  {}

  /** String.prototype.split("\n"). */
  function Split(s: string): (pieces: seq<string>)
    ensures |pieces| >= 1
  {
    if s == "" then [""]
    else
      var rest := Split(s[1..]);
      if s[0] == '\n' then [""] + rest else [[s[0]] + rest[0]] + rest[1..]
  }

  function Join(pieces: seq<string>): string
    requires |pieces| >= 1
  {
    if |pieces| == 1 then pieces[0] else pieces[0] + "\n" + Join(pieces[1..])
  }

  /** The pieces hold no newline and joined by newlines they are the text. */
  lemma {:induction false} SplitIsInverseOfJoin(s: string)
    ensures Join(Split(s)) == s
    ensures forall i :: 0 <= i < |Split(s)| ==> '\n' !in Split(s)[i]
  {
    if s != "" {
      var rest := Split(s[1..]);
      SplitIsInverseOfJoin(s[1..]);
      if s[0] == '\n' {
        assert Split(s)[1..] == rest;
      } else {
        assert Split(s)[1..] == rest[1..];
      }
    }
  }

  function Last(pieces: seq<string>): string
    requires |pieces| >= 1
  {
    pieces[|pieces| - 1]
  }

  function Lines(pieces: seq<string>): seq<string>
    requires |pieces| >= 1
  {
    pieces[..|pieces| - 1]
  }

  /** A character in front of split pieces. */
  function Prepend(c: char, pieces: seq<string>): seq<string>
    requires |pieces| >= 1
  {
    if c == '\n' then [""] + pieces else [[c] + pieces[0]] + pieces[1..]
  }

  lemma SplitCons(c: char, s: string)
    ensures Split([c] + s) == Prepend(c, Split(s))
  {
    assert ([c] + s)[1..] == s;
  }

  lemma PrependAppend(c: char, a: seq<string>, b: seq<string>)
    requires |a| >= 1 && |b| >= 1
    ensures Prepend(c, a + b) == Prepend(c, a) + b
  {
    if c != '\n' {
      assert (a + b)[1..] == a[1..] + b;
    }
  }

  /** Text that arrives later only extends the last piece. */
  lemma {:induction false} SplitAppend(a: string, b: string)
    ensures Split(a + b) == Lines(Split(a)) + Split(Last(Split(a)) + b)
  {
    if a == "" {
      assert a + b == b;
    } else {
      var c, rest := a[0], a[1..];
      assert a == [c] + rest && a + b == [c] + (rest + b);
      SplitCons(c, rest);
      SplitCons(c, rest + b);
      SplitAppend(rest, b);
      PrependSplit(c, Split(rest), b);
    }
  }

  lemma PrependSplit(c: char, pieces: seq<string>, b: string)
    requires |pieces| >= 1
    ensures Prepend(c, Lines(pieces) + Split(Last(pieces) + b)) ==
            Lines(Prepend(c, pieces)) + Split(Last(Prepend(c, pieces)) + b)
  {
    var more := Split(Last(pieces) + b);
    if |pieces| > 1 {
      PrependAppend(c, Lines(pieces), more);
      PrependFront(c, pieces);
    } else {
      assert Lines(pieces) + more == more;
      PrependSplitOne(c, pieces[0], b);
      assert pieces == [pieces[0]];
    }
  }

  lemma PrependFront(c: char, pieces: seq<string>)
    requires |pieces| > 1
    ensures Lines(Prepend(c, pieces)) == Prepend(c, Lines(pieces)) && Last(Prepend(c, pieces)) == Last(pieces)
  {}

  lemma PrependSplitOne(c: char, piece: string, b: string)
    ensures Prepend(c, Split(piece + b)) == Lines(Prepend(c, [piece])) + Split(Last(Prepend(c, [piece])) + b)
  {
    var pieces := Prepend(c, [piece]);
    if c == '\n' {
      assert Lines(pieces) == [""] && Last(pieces) == piece;
    } else {
      assert Lines(pieces) == [] && Last(pieces) == [c] + piece;
      assert [c] + (piece + b) == ([c] + piece) + b;
      SplitCons(c, piece + b);
    }
  }

  /** The unterminated end of the text, and the parse of the lines before it. */
  datatype Buffered = Buffered(buffer: string, parsed: Parsed)

  /** One chunk. */
  function Feed(read: Reader, b: Buffered, chunk: string): Buffered
  {
    var pieces := Split(b.buffer + chunk);
    Buffered(Last(pieces), HandleLines(read, b.parsed, Lines(pieces)))
  }

  function FeedAll(read: Reader, b: Buffered, chunks: seq<string>): Buffered
  {
    if chunks == [] then b
    else Feed(read, FeedAll(read, b, chunks[..|chunks| - 1]), chunks[|chunks| - 1])
  }

  /** The whole text at once: its lines but the last, unterminated one. */
  function ParseWhole(read: Reader, text: string): Buffered
  {
    Feed(read, Buffered("", START), text)
  }

  /** A text fed in two parts parses as the text fed at once. */
  lemma FeedTwice(read: Reader, text: string, chunk: string)
    ensures Feed(read, ParseWhole(read, text), chunk) == ParseWhole(read, text + chunk)
  {
    var pieces := Split(text);
    var more := Split(Last(pieces) + chunk);
    assert "" + text == text && "" + (text + chunk) == text + chunk;
    SplitAppend(text, chunk);
    assert Lines(Lines(pieces) + more) == Lines(pieces) + Lines(more);
    HandleAppend(read, START, Lines(pieces), Lines(more));
  }

  /** Of a text that ends where a line does, each further terminated line adds what its event's shape says, and
      what is not terminated adds nothing yet. */
  lemma TerminatedLine(read: Reader, text: string, line: string)
    requires text == "" || text[|text| - 1] == '\n'
    requires '\n' !in line
    ensures ParseWhole(read, "").parsed == Parsed([], false, "")
    ensures Adds(ParseWhole(read, text).parsed, read(line), ParseWhole(read, text + line + "\n").parsed)
    ensures ParseWhole(read, text + line).parsed == ParseWhole(read, text).parsed
  {
    EndsEmpty(text);
    assert "" + text == text;
    FeedTwice(read, text, line);
    FeedTwice(read, text, line + "\n");
    assert text + (line + "\n") == text + line + "\n";
    LineFed(read, ParseWhole(read, text), line);
    LineFed(read, Buffered("", START), "");
    LineAdds(read, ParseWhole(read, text).parsed, line);
  }

  /** A line in front of which nothing is buffered. */
  lemma LineFed(read: Reader, b: Buffered, line: string)
    requires b.buffer == "" && '\n' !in line
    ensures Feed(read, b, line) == Buffered(line, b.parsed)
    ensures Feed(read, b, line + "\n") == Buffered("", HandleLine(read, b.parsed, line))
  {
    SplitLine(line);
    assert "" + line == line && "" + (line + "\n") == line + "\n";
    assert Lines([line]) == [] && Lines([line, ""]) == [line];
    assert [line][..0] == [];
  }

  /** Behind a newline the last piece is empty. */
  lemma EndsEmpty(text: string)
    requires text == "" || text[|text| - 1] == '\n'
    ensures Last(Split(text)) == ""
  {
    if text != "" {
      var front := text[..|text| - 1];
      assert text == front + "\n";
      SplitAppend(front, "\n");
      SplitIsInverseOfJoin(front);
      SplitLine(Last(Split(front)));
      LastAppend(Lines(Split(front)), Split(Last(Split(front)) + "\n"));
    }
  }

  lemma LastAppend(a: seq<string>, b: seq<string>)
    requires |b| >= 1
    ensures Last(a + b) == Last(b)
  {}

  lemma {:induction false} SplitLine(line: string)
    requires '\n' !in line
    ensures Split(line) == [line] && Split(line + "\n") == [line, ""]
  {
    if line == "" {
      assert line + "\n" == "\n" && "\n"[1..] == "";
      assert Split("\n") == [""] + Split("");
    } else {
      SplitLine(line[1..]);
      assert line == [line[0]] + line[1..];
      assert line + "\n" == [line[0]] + (line[1..] + "\n");
      SplitCons(line[0], line[1..]);
      SplitCons(line[0], line[1..] + "\n");
    }
  }

  /** The result does not depend on how the text was cut. */
  lemma {:induction false} ChunkingIrrelevant(read: Reader, chunks: seq<string>)
    ensures FeedAll(read, Buffered("", START), chunks) == ParseWhole(read, Flatten(chunks))
  {
    if chunks != [] {
      var front, last := chunks[..|chunks| - 1], chunks[|chunks| - 1];
      ChunkingIrrelevant(read, front);
      FeedTwice(read, Flatten(front), last);
      assert chunks == front + [last];
      FlattenAppend(front, [last]);
      assert Flatten([last]) == last;
    }
  }

  // ----- one run of the process -----

  datatype ProcessEvent = Chunk(text: string) | Timeout | Abort

  /** `code` is None when a signal ended the process. */
  datatype ProcessEnd = Exited(code: Option<int>) | SpawnError

  datatype Outcome =
    | AlreadyRunning | NoRepository
    | TimedOut | Cancelled | CommandFailed(code: Option<int>, reason: FailureReason) | SpawnFailed | Succeeded

  /** The message is the process's stderr or the subtype of its result event. */
  datatype FailureReason = Stderr | ErrorResult(message: string)

  datatype RunState = RunState(output: Buffered, timedOut: bool, cancelled: bool)

  /** A run starts cancelled when its signal is aborted already. */
  function Begin(aborted: bool): RunState { RunState(Buffered("", START), false, aborted) }

  function Advance(read: Reader, r: RunState, e: ProcessEvent): RunState
  {
    match e
    case Chunk(text) => r.(output := Feed(read, r.output, text))
    case Timeout => r.(timedOut := true)
    case Abort => r.(cancelled := true)
  }

  function AdvanceAll(read: Reader, r: RunState, events: seq<ProcessEvent>): RunState
  {
    if events == [] then r
    else Advance(read, AdvanceAll(read, r, events[..|events| - 1]), events[|events| - 1])
  }

  function Conclude(r: RunState, end: ProcessEnd): Outcome
  {
    match end
    case SpawnError => SpawnFailed
    case Exited(code) =>
      if r.timedOut then TimedOut
      else if r.cancelled then Cancelled
      else if code != Some(0) then CommandFailed(code, Stderr)
      else if r.output.parsed.resultIsError then
        var subtype := r.output.parsed.resultErrorSubtype;
        CommandFailed(code, ErrorResult(if subtype != "" then subtype else "Claude reported an error result"))
      else Succeeded
  }

  function TextOf(events: seq<ProcessEvent>): string
  {
    if events == [] then ""
    else
      var front, last := events[..|events| - 1], events[|events| - 1];
      if last.Chunk? then TextOf(front) + last.text else TextOf(front)
  }

  lemma {:induction false} StateOfEvents(read: Reader, aborted: bool, events: seq<ProcessEvent>)
    ensures AdvanceAll(read, Begin(aborted), events) ==
            RunState(ParseWhole(read, TextOf(events)), Timeout in events, aborted || Abort in events)
  {
    if events != [] {
      var front, last := events[..|events| - 1], events[|events| - 1];
      StateOfEvents(read, aborted, front);
      assert events == front + [last];
      if last.Chunk? {
        FeedTwice(read, TextOf(front), last.text);
      }
    }
  }

  /** However chunks, timeout and abort interleave, what a run yields is the parse of its whole text
      and its outcome is the first that applies of timeout, cancellation, bad exit, error result and
      success. */
  lemma OutcomeOfInterleaving(read: Reader, aborted: bool, events: seq<ProcessEvent>, code: Option<int>)
    ensures var r, whole := AdvanceAll(read, Begin(aborted), events), ParseWhole(read, TextOf(events)).parsed;
            && r.output.parsed.texts == whole.texts
            && (Timeout in events ==> Conclude(r, Exited(code)) == TimedOut)
            && (Timeout !in events && (aborted || Abort in events) ==> Conclude(r, Exited(code)) == Cancelled)
            && (Timeout !in events && !aborted && Abort !in events ==>
                  (Conclude(r, Exited(code)) == Succeeded <==> code == Some(0) && !whole.resultIsError)
                  && (Conclude(r, Exited(code)) == CommandFailed(code, Stderr) <==> code != Some(0))
                  && (code == Some(0) && whole.resultIsError ==>
                        Conclude(r, Exited(code)) == CommandFailed(code, ErrorResult(
                          if whole.resultErrorSubtype == "" then "Claude reported an error result"
                          else whole.resultErrorSubtype))))
            && Conclude(r, SpawnError) == SpawnFailed
  {
    StateOfEvents(read, aborted, events);
  }
}
