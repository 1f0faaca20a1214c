/**
 * The incremental decoder of a completion stream (benchmark-voice-llms.ts): network
 * chunks are cut into lines, and each `data:` line is folded into the answer.
 */
module StreamDecoder {
  import opened Wrappers
  import opened Texts

  datatype Usage = Usage(fields: map<string, int>)

  /** A fragment of one tool call, as one delta carries it. */
  datatype CallDelta = CallDelta(index: Option<nat>, id: Option<string>,
                                 name: Option<string>, arguments: Option<string>)

  datatype Delta = Delta(content: Option<string>, calls: seq<CallDelta>)

  /** What the JSON text of one line says; reading it is a parameter of the model. */
  datatype Parsed = Malformed | Chunk(usage: Option<Usage>, delta: Option<Delta>)

  datatype ToolCall = ToolCall(id: string, name: string, arguments: string)

  /** What has been decoded so far; `failed` once a line was malformed, which ends the reading. */
  datatype Answer = Answer(content: string, usage: Usage, calls: map<nat, ToolCall>, failed: bool)

  const EMPTY := Answer("", Usage(map[]), map[], false)

  // ----- lines

  /** `n` characters up to and with the first newline; 0 when there is none. */
  ghost predicate IsFirstLine(s: string, n: nat) {
    n <= |s| && (n > 0 ==> s[n-1] == '\n') && forall i :: 0 <= i < (if n > 0 then n - 1 else |s|) ==> s[i] != '\n'
  }

  function FirstLine(s: string): (n: nat)
    ensures IsFirstLine(s, n)
  {
    if s == "" then 0
    else if s[0] == '\n' then 1
    else
      var n := FirstLine(s[1..]);
      assert forall i :: 1 <= i < |s| ==> s[i] == s[1..][i-1];
      if n == 0 then 0 else n + 1
  }

  /** The complete lines of a text, without their newlines. */
  function Lines(s: string): seq<string>
    decreases |s|
  {
    var n := FirstLine(s);
    if n == 0 then [] else [s[..n-1]] + Lines(s[n..])
  }

  /** What follows the last newline. */
  function Tail(s: string): (t: string)
    ensures |t| <= |s|
    decreases |s|
  {
    var n := FirstLine(s);
    if n == 0 then s else Tail(s[n..])
  }

  lemma {:induction false} TailIsSuffix(s: string)
    ensures Tail(s) == s[|s|-|Tail(s)|..]
    decreases |s|
  {
    hide FirstLine, Tail;
    TailUnfold(s);
    var n := FirstLine(s);
    if n > 0 {
      TailIsSuffix(s[n..]);
      var k := |s| - n - |Tail(s[n..])|;
      assert s[n..][k..] == s[n + k..];
    }
  }

  lemma {:induction false} FirstLineIs(s: string, n: nat)
    requires IsFirstLine(s, n)
    ensures FirstLine(s) == n
  {
    hide FirstLine;
  }

  lemma {:induction false} LinesStep(a: string, b: string)
    requires FirstLine(a) > 0
    ensures var n := FirstLine(a);
            Lines(a + b) == [a[..n-1]] + Lines(a[n..] + b) && Tail(a + b) == Tail(a[n..] + b)
  {
    hide FirstLine, Lines, Tail;
    var n := FirstLine(a);
    assert forall i :: 0 <= i < n ==> (a + b)[i] == a[i];
    assert (a + b)[..n-1] == a[..n-1] && (a + b)[n..] == a[n..] + b;
    FirstLineIs(a + b, n);
    LinesUnfold(a + b);
    TailUnfold(a + b);
  }

  /** Cutting a text anywhere: the tail of the first part is carried over to the second. */
  lemma {:induction false} LinesAcrossCut(a: string, b: string)
    ensures Lines(a + b) == Lines(a) + Lines(Tail(a) + b)
    ensures Tail(a + b) == Tail(Tail(a) + b)
    decreases |a|
  {
    hide FirstLine, Lines, Tail;
    LinesUnfold(a);
    TailUnfold(a);
    var n := FirstLine(a);
    if n > 0 {
      LinesStep(a, b);
      LinesAcrossCut(a[n..], b);
      Associate(a[..n-1], Lines(a[n..]), Lines(Tail(a[n..]) + b));
    } else {
      assert [] + Lines(a + b) == Lines(a + b);
    }
  }

  lemma {:induction false} Associate(line: string, lines: seq<string>, more: seq<string>)
    ensures [line] + (lines + more) == [line] + lines + more
  {}

  lemma {:induction false} LinesUnfold(s: string)
    ensures Lines(s) == if FirstLine(s) == 0 then [] else [s[..FirstLine(s)-1]] + Lines(s[FirstLine(s)..])
  {
    hide FirstLine;
  }

  lemma {:induction false} TailUnfold(s: string)
    ensures Tail(s) == if FirstLine(s) == 0 then s else Tail(s[FirstLine(s)..])
  {
    hide FirstLine;
  }

  // ----- the fold

  function OrEmpty(s: Option<string>): string { if s.Some? then s.value else "" }

  function Slot(c: CallDelta): nat { if c.index.Some? then c.index.value else 0 }

  function Merge(calls: map<nat, ToolCall>, c: CallDelta): map<nat, ToolCall> {
    var i := Slot(c);
    var previous := if i in calls then calls[i]
      else ToolCall(if c.id.Some? then c.id.value else "tool-" + Figures(i), "", "");
    calls[i := ToolCall(if OrEmpty(c.id) != "" then OrEmpty(c.id) else previous.id,
                        previous.name + OrEmpty(c.name), previous.arguments + OrEmpty(c.arguments))]
  }

  function MergeAll(calls: map<nat, ToolCall>, cs: seq<CallDelta>): map<nat, ToolCall> {
    if cs == [] then calls else Merge(MergeAll(calls, cs[..|cs|-1]), cs[|cs|-1])
  }

  function Take(a: Answer, p: Parsed): Answer {
    match p
    case Malformed => a.(failed := true)
    case Chunk(usage, delta) =>
      var b := if usage.Some? then a.(usage := usage.value) else a;
      if delta.None? then b
      else b.(content := b.content + OrEmpty(delta.value.content), calls := MergeAll(b.calls, delta.value.calls))
  }

  /** The payload of a `data:` line, unless it is the end marker. */
  function Payload(line: string): Option<string> {
    var trimmed := Trim(line);
    if "data: " <= trimmed && trimmed[6..] != "[DONE]" then Some(trimmed[6..]) else None
  }

  ghost predicate Blank(s: string) { forall i :: 0 <= i < |s| ==> Space(s[i]) }

  /** `line` is `data: ` and `p`, with any white space around; white space between them is part of `p`. */
  ghost predicate DataLine(line: string, p: string) {
    p != "" && !Space(p[|p|-1]) && exists a, b :: Blank(a) && Blank(b) && line == a + ("data: " + p) + b
  }

  /** Exactly the data lines that are not the end marker are read. */
  lemma {:induction false} DataLineIsRead(line: string, p: string)
    ensures Payload(line) == Some(p) <==> DataLine(line, p) && p != "[DONE]"
  {
    hide Space, TrimLeft, TrimRight;
    if DataLine(line, p) {
      var a, b :| Blank(a) && Blank(b) && line == a + ("data: " + p) + b;
      TrimOf(a, "data: " + p, b) by {
        LetterIsNoSpace();
        assert ("data: " + p)[0] == 'd';
      }
      assert ("data: " + p)[6..] == p;
    }
    if Payload(line) == Some(p) {
      var a, b := TrimParts(line);
      assert Trim(line) == "data: " + p;
      assert ("data: " + p)[|"data: " + p|-1] == if p == "" then ' ' else p[|p|-1];
      LetterIsNoSpace();
      assert Blank(a) && Blank(b) && line == a + ("data: " + p) + b;
    }
  }

  /** Every other line is skipped. */
  lemma {:induction false} OtherLinesAreSkipped(line: string)
    ensures Payload(line) == None <==> forall p :: DataLine(line, p) ==> p == "[DONE]"
  {
    hide DataLine, Payload;
    forall p ensures Payload(line) == Some(p) <==> DataLine(line, p) && p != "[DONE]" { DataLineIsRead(line, p); }
    if Payload(line).Some? { assert DataLine(line, Payload(line).value); }
  }

  lemma {:induction false} LetterIsNoSpace()
    ensures !Space('d') && Space('\r') && Space(' ')
  {}

  lemma {:induction false} TrimOf(a: string, core: string, b: string)
    requires Blank(a) && Blank(b) && core != "" && !Space(core[0]) && !Space(core[|core|-1])
    ensures Trim(a + core + b) == core
    decreases |a| + |b|
  {
    hide Space;
    if a != "" {
      var s := a + core + b;
      assert s[0] == a[0] && s[1..] == a[1..] + core + b;
      TrimOf(a[1..], core, b);
    } else if b != "" {
      var s := a + core + b;
      var t := s[..|s|-1];
      assert s[0] == core[0] && s[|s|-1] == b[|b|-1];
      assert t == a + core + b[..|b|-1] && t[0] == core[0];
      TrimOf(a, core, b[..|b|-1]);
    } else {
      assert a + core + b == core;
    }
  }

  lemma {:induction false} TrimParts(s: string) returns (a: string, b: string)
    ensures Blank(a) && Blank(b) && s == a + Trim(s) + b
    ensures Trim(s) != "" ==> !Space(Trim(s)[|Trim(s)|-1])
  {
    hide Space;
    a := LeftPart(s);
    b := RightPart(TrimLeft(s));
    assert a + (Trim(s) + b) == a + Trim(s) + b;
  }

  lemma {:induction false} LeftPart(s: string) returns (a: string)
    ensures Blank(a) && s == a + TrimLeft(s)
  {
    hide Space;
    if s != "" && Space(s[0]) {
      a := LeftPart(s[1..]);
      a := [s[0]] + a;
    } else {
      a := "";
    }
  }

  lemma {:induction false} RightPart(s: string) returns (b: string)
    ensures Blank(b) && s == TrimRight(s) + b
    ensures TrimRight(s) != "" ==> !Space(TrimRight(s)[|TrimRight(s)|-1])
  {
    hide Space;
    if s != "" && Space(s[|s|-1]) {
      b := RightPart(s[..|s|-1]);
      b := b + [s[|s|-1]];
    } else {
      b := "";
    }
  }

  function TakeLine(parse: string -> Parsed, a: Answer, line: string): Answer {
    if a.failed || Payload(line).None? then a else Take(a, parse(Payload(line).value))
  }

  function Fold(parse: string -> Parsed, a: Answer, lines: seq<string>): Answer {
    if lines == [] then a else TakeLine(parse, Fold(parse, a, lines[..|lines|-1]), lines[|lines|-1])
  }

  lemma {:induction false} FoldAppend(parse: string -> Parsed, a: Answer, xs: seq<string>, ys: seq<string>)
    ensures Fold(parse, a, xs + ys) == Fold(parse, Fold(parse, a, xs), ys)
  {
    if ys == [] {
      assert xs + ys == xs;
    } else {
      FoldAppend(parse, a, xs, ys[..|ys|-1]);
      assert (xs + ys)[..|xs + ys|-1] == xs + ys[..|ys|-1];
    }
  }

  lemma {:induction false} FoldFailed(parse: string -> Parsed, a: Answer, lines: seq<string>)
    requires a.failed
    ensures Fold(parse, a, lines) == a
  {
    if lines != [] { FoldFailed(parse, a, lines[..|lines|-1]); }
  }

  /** Lines after a malformed one do not matter. */
  lemma {:induction false} FailedFold(parse: string -> Parsed, a: Answer, lines: seq<string>, i: nat)
    requires i <= |lines| && Fold(parse, a, lines[..i]).failed
    ensures Fold(parse, a, lines) == Fold(parse, a, lines[..i])
  {
    FoldAppend(parse, a, lines[..i], lines[i..]);
    assert lines[..i] + lines[i..] == lines;
    FoldFailed(parse, Fold(parse, a, lines[..i]), lines[i..]);
  }

  // ----- the reader

  class Reader {
    const parse: string -> Parsed
    var buffer: string
    var content: string
    var usage: Usage
    var toolCalls: map<nat, ToolCall>
    var failed: bool

    function View(): Answer
      reads this
    { Answer(content, usage, toolCalls, failed) }

    constructor (parse: string -> Parsed)
      ensures this.parse == parse && View() == EMPTY && buffer == ""
    {
      this.parse := parse;
      buffer, content, usage, toolCalls, failed := "", "", Usage(map[]), map[], false;
    }

    method MergeCall(c: CallDelta)
      modifies this`toolCalls
      ensures toolCalls == Merge(old(toolCalls), c)
    {
      var index := Slot(c);
      if index !in toolCalls {
        toolCalls := toolCalls[index := ToolCall(if c.id.Some? then c.id.value else "tool-" + Figures(index), "", "")];
      }
      if c.id.Some? && c.id.value != "" { toolCalls := toolCalls[index := toolCalls[index].(id := c.id.value)]; }
      if c.name.Some? {
        toolCalls := toolCalls[index := toolCalls[index].(name := toolCalls[index].name + c.name.value)];
      }
      if c.arguments.Some? {
        toolCalls := toolCalls[index := toolCalls[index].(arguments := toolCalls[index].arguments + c.arguments.value)];
      }
      assert toolCalls[index] == Merge(old(toolCalls), c)[index];
    }

    /** One line of the loop body. */
    method TakeText(line: string)
      requires !failed
      modifies this`content, this`usage, this`toolCalls, this`failed
      ensures View() == TakeLine(parse, old(View()), line)
    {
      var data := Payload(line);
      if data.None? { return; }
      var chunk := parse(data.value);
      if chunk.Malformed? {
        failed := true;
        return;
      }
      if chunk.usage.Some? { usage := chunk.usage.value; }
      if chunk.delta.None? { return; }
      var delta := chunk.delta.value;
      if delta.content.Some? { content := content + delta.content.value; }
      ghost var before := toolCalls;
      for i := 0 to |delta.calls|
        invariant toolCalls == MergeAll(before, delta.calls[..i])
        invariant content == old(content) + OrEmpty(delta.content) && !failed
        invariant usage == if chunk.usage.Some? then chunk.usage.value else old(usage)
      {
        MergeCall(delta.calls[i]);
        assert delta.calls[..i+1][..i] == delta.calls[..i];
      }
      assert delta.calls[..|delta.calls|] == delta.calls;
    }

    /** One network chunk. */
    method Feed(piece: string)
      requires !failed
      modifies this
      ensures View() == Fold(parse, old(View()), Lines(old(buffer) + piece))
      ensures !failed ==> buffer == Tail(old(buffer) + piece)
    {
      hide Lines, Tail, TakeLine, Payload;
      buffer := buffer + piece;
      var lines := Lines(buffer);
      buffer := Tail(buffer);
      for i := 0 to |lines|
        invariant View() == Fold(parse, old(View()), lines[..i]) && !failed
        invariant buffer == Tail(old(buffer) + piece)
      {
        TakeText(lines[i]);
        assert lines[..i+1][..i] == lines[..i];
        if failed {
          FailedFold(parse, old(View()), lines, i + 1);
          return;
        }
      }
      assert lines[..|lines|] == lines;
    }
  }

  /** What a text decodes to: one fold over its complete lines. */
  function Decode(parse: string -> Parsed, text: string): Answer { Fold(parse, EMPTY, Lines(text)) }

  datatype Reading = Reading(answer: Answer, buffer: string)

  function FeedOne(parse: string -> Parsed, r: Reading, piece: string): Reading {
    if r.answer.failed then r
    else Reading(Fold(parse, r.answer, Lines(r.buffer + piece)), Tail(r.buffer + piece))
  }

  function FeedAll(parse: string -> Parsed, pieces: seq<string>): Reading {
    if pieces == [] then Reading(EMPTY, "")
    else FeedOne(parse, FeedAll(parse, pieces[..|pieces|-1]), pieces[|pieces|-1])
  }

  method Read(parse: string -> Parsed, pieces: seq<string>) returns (r: Reader)
    ensures fresh(r) && r.View() == FeedAll(parse, pieces).answer
    ensures !r.failed ==> r.buffer == FeedAll(parse, pieces).buffer
  {
    hide Fold, Lines, Tail;
    r := new Reader(parse);
    for i := 0 to |pieces|
      invariant fresh(r) && r.parse == parse
      invariant r.View() == FeedAll(parse, pieces[..i]).answer
      invariant !r.failed ==> r.buffer == FeedAll(parse, pieces[..i]).buffer
    {
      assert pieces[..i+1][..i] == pieces[..i];
      if !r.failed { r.Feed(pieces[i]); }
    }
    assert pieces[..|pieces|] == pieces;
  }

  /** However a text is cut, feeding the pieces decodes the whole text and keeps what follows its last newline. */
  lemma {:induction false} FeedAllIsDecode(parse: string -> Parsed, pieces: seq<string>)
    ensures FeedAll(parse, pieces).answer == Decode(parse, Concat(pieces))
    ensures !FeedAll(parse, pieces).answer.failed ==> FeedAll(parse, pieces).buffer == Tail(Concat(pieces))
  {
    hide Tail, Lines, Fold;
    if pieces == [] {
      NoLines(parse);
    } else {
      var before, piece := pieces[..|pieces|-1], pieces[|pieces|-1];
      FeedAllIsDecode(parse, before);
      ConcatLast(pieces);
      DecodeMore(parse, Concat(before), piece);
      if FeedAll(parse, before).answer.failed {
        FoldFailed(parse, Decode(parse, Concat(before)), Lines(Tail(Concat(before)) + piece));
      } else {
        LinesAcrossCut(Concat(before), piece);
      }
    }
  }

  lemma {:induction false} NoLines(parse: string -> Parsed)
    ensures Decode(parse, "") == EMPTY && Tail("") == ""
  {}

  lemma {:induction false} DecodeMore(parse: string -> Parsed, text: string, piece: string)
    ensures Decode(parse, text + piece) == Fold(parse, Decode(parse, text), Lines(Tail(text) + piece))
  {
    LinesAcrossCut(text, piece);
    FoldAppend(parse, EMPTY, Lines(text), Lines(Tail(text) + piece));
  }

  /** Any two ways of cutting one text give the same answer, and the same leftover if nothing was malformed. */
  lemma {:induction false} CuttingDoesNotMatter(parse: string -> Parsed, pieces: seq<string>, others: seq<string>)
    requires Concat(pieces) == Concat(others)
    ensures FeedAll(parse, pieces).answer == FeedAll(parse, others).answer
    ensures !FeedAll(parse, pieces).answer.failed ==> FeedAll(parse, pieces).buffer == FeedAll(parse, others).buffer
  {
    hide FeedAll, Decode;
    FeedAllIsDecode(parse, pieces);
    FeedAllIsDecode(parse, others);
  }

  /** The complete lines of a text, newlines included. */
  function Finished(s: string): string { s[..|s| - |Tail(s)|] }

  /** A last line without its newline is never decoded. */
  lemma {:induction false} UnfinishedLineIsDropped(parse: string -> Parsed, text: string)
    ensures Decode(parse, text) == Decode(parse, Finished(text))
  {
    hide Fold, Lines, Tail;
    var done, tail := Finished(text), Tail(text);
    TailIsSuffix(text);
    assert done + tail == text;
    LinesAcrossCut(done, tail);
    TailHasNoLine(text);
    TailOfLines(text);
    assert "" + tail == tail && Lines(done) + [] == Lines(done);
  }

  /** A newline at the end has the unfinished line decoded too. */
  lemma {:induction false} NewlineFinishesLine(parse: string -> Parsed, text: string)
    ensures Decode(parse, text + "\n") == TakeLine(parse, Decode(parse, text), Tail(text))
  {
    hide Tail, Lines, TakeLine, FirstLine;
    LinesAcrossCut(text, "\n");
    TailHasNoNewline(text);
    OneLine(Tail(text));
    FoldAppend(parse, EMPTY, Lines(text), [Tail(text)]);
    FoldOne(parse, Decode(parse, text), Tail(text));
  }

  lemma {:induction false} FoldOne(parse: string -> Parsed, a: Answer, line: string)
    ensures Fold(parse, a, [line]) == TakeLine(parse, a, line)
  {
    hide TakeLine;
    assert [line][..0] == [];
  }

  lemma {:induction false} TailHasNoNewline(s: string)
    ensures '\n' !in Tail(s)
    decreases |s|
  {
    hide FirstLine;
    if FirstLine(s) > 0 { TailHasNoNewline(s[FirstLine(s)..]); }
  }

  lemma {:induction false} OneLine(line: string)
    requires '\n' !in line
    ensures Lines(line + "\n") == [line]
  {
    hide FirstLine;
    var s := line + "\n";
    FirstLineIs(s, |s|);
    FirstLineIs("", 0);
    assert s[..|s|-1] == line && s[|s|..] == "";
  }

  /**
   * An unfinished line is lost exactly when the reading has not failed before it, it is a data
   * line other than the end marker, and what it says would change the answer.
   */
  lemma {:induction false} LineIsLostIff(parse: string -> Parsed, text: string)
    ensures var a, data := Decode(parse, text), Payload(Tail(text));
            Decode(parse, text + "\n") != a <==> !a.failed && data.Some? && Take(a, parse(data.value)) != a
  {
    hide Decode, Tail, Payload, Take;
    NewlineFinishesLine(parse, text);
  }

  /** Whatever the lines may say, nothing is lost exactly when the text does not end in an unfinished data line. */
  lemma {:induction false} NothingLostIff(text: string)
    ensures (forall parse: string -> Parsed :: Decode(parse, text + "\n") == Decode(parse, text))
            <==> Payload(Tail(text)) == None
  {
    hide Decode, Tail, Payload, Take;
    if Payload(Tail(text)) == None {
      forall parse: string -> Parsed ensures Decode(parse, text + "\n") == Decode(parse, text) {
        LineIsLostIff(parse, text);
      }
    } else {
      var parse := (s: string) => Chunk(None, Some(Delta(Some("x"), [])));
      LineIsLostIff(parse, text);
      NeverFails(parse, text);
      TakesMore(Decode(parse, text));
    }
  }

  lemma {:induction false} TakesMore(a: Answer)
    ensures Take(a, Chunk(None, Some(Delta(Some("x"), [])))).content == a.content + "x"
    ensures a.content + "x" != a.content
  {
    assert |a.content + "x"| > |a.content|;
  }

  lemma {:induction false} NeverFails(parse: string -> Parsed, text: string)
    requires forall s :: parse(s).Chunk?
    ensures !Decode(parse, text).failed
  {
    hide Lines, Fold, Payload;
    FailedIff(parse, Lines(text));
  }

  /** One fragment sent without its newline: the answer stays empty, although the newline would give it. */
  lemma {:induction false} LastFragmentIsLost(parse: string -> Parsed, data: string, fragment: string)
    requires data != "" && !Space(data[|data|-1]) && data != "[DONE]" && '\n' !in data
    requires parse(data) == Chunk(None, Some(Delta(Some(fragment), [])))
    ensures Decode(parse, "data: " + data) == EMPTY && Decode(parse, "data: " + data + "\n").content == fragment
  {
    hide DataLine, Payload, Lines;
    var text := "data: " + data;
    DataLineAlone(data);
    DataLineIsRead(text, data);
    FirstLineIs(text, 0) by { assert forall i :: 0 <= i < 6 ==> "data: "[i] != '\n'; }
    assert Lines(text) == [] && Tail(text) == text by { NoNewlineNoLine(text); }
    NewlineFinishesLine(parse, text);
    assert MergeAll(map[], []) == map[];
    assert "" + fragment == fragment;
  }

  lemma {:induction false} DataLineAlone(data: string)
    requires data != "" && !Space(data[|data|-1])
    ensures DataLine("data: " + data, data)
  {
    hide Space;
    assert Blank("") && "data: " + data == "" + ("data: " + data) + "";
  }

  lemma {:induction false} NoNewlineNoLine(text: string)
    requires FirstLine(text) == 0
    ensures Lines(text) == [] && Tail(text) == text
  {}

  lemma {:induction false} TailHasNoLine(s: string)
    ensures Lines(Tail(s)) == []
    decreases |s|
  {
    hide FirstLine;
    if FirstLine(s) > 0 { TailHasNoLine(s[FirstLine(s)..]); }
  }

  lemma {:induction false} TailOfLines(s: string)
    ensures Tail(Finished(s)) == ""
    decreases |s|
  {
    hide FirstLine, Lines, Tail;
    TailUnfold(s);
    var n := FirstLine(s);
    if n > 0 {
      TailOfLines(s[n..]);
      assert Finished(s) == s[..n] + Finished(s[n..]);
      var a := s[..n];
      assert a[n-1] == '\n' && forall i :: 0 <= i < n ==> a[i] == s[i];
      FirstLineIs(a, n);
      LinesStep(a, Finished(s[n..]));
      assert a[n..] + Finished(s[n..]) == Finished(s[n..]);
    } else {
      TailUnfold("");
    }
  }

  // ----- what the answer holds

  /** The deltas of the lines before the first malformed one. */
  function Deltas(parse: string -> Parsed, lines: seq<string>): seq<Delta> {
    if lines == [] then []
    else
      var before, line := Deltas(parse, lines[..|lines|-1]), lines[|lines|-1];
      if Fold(parse, EMPTY, lines[..|lines|-1]).failed || Payload(line).None? then before
      else match parse(Payload(line).value)
        case Malformed => before
        case Chunk(_, delta) => before + (if delta.Some? then [delta.value] else [])
  }

  /** The usage of the last line that reports one, before the first malformed line. */
  function LastUsage(parse: string -> Parsed, lines: seq<string>): Usage {
    if lines == [] then Usage(map[])
    else
      var before, line := lines[..|lines|-1], lines[|lines|-1];
      if Fold(parse, EMPTY, before).failed || Payload(line).None? then LastUsage(parse, before)
      else match parse(Payload(line).value)
        case Chunk(Some(u), _) => u
        case _ => LastUsage(parse, before)
  }

  /** The reading has failed exactly when some `data:` line is malformed. */
  lemma {:induction false} FailedIff(parse: string -> Parsed, lines: seq<string>)
    ensures Fold(parse, EMPTY, lines).failed
            <==> exists k :: 0 <= k < |lines| && Payload(lines[k]).Some? && parse(Payload(lines[k]).value).Malformed?
  {
    hide Payload;
    if lines != [] {
      var before := lines[..|lines|-1];
      FailedIff(parse, before);
      assert forall k :: 0 <= k < |before| ==> before[k] == lines[k];
    }
  }

  function Contents(ds: seq<Delta>): string {
    if ds == [] then ""
    else Contents(ds[..|ds|-1]) + (match ds[|ds|-1].content case Some(text) => text case None => "")
  }

  /** A fragment is meant for the call that its index names; without an index, for call 0. */
  predicate MeantFor(c: CallDelta, i: nat) { c.index == Some(i) || (c.index.None? && i == 0) }

  /** The fragments for slot `i` among some call deltas, in order. */
  function ForSlot(cs: seq<CallDelta>, i: nat): seq<CallDelta> {
    if cs == [] then []
    else ForSlot(cs[..|cs|-1], i) + (if MeantFor(cs[|cs|-1], i) then [cs[|cs|-1]] else [])
  }

  function Fragments(ds: seq<Delta>, i: nat): seq<CallDelta> {
    if ds == [] then [] else Fragments(ds[..|ds|-1], i) + ForSlot(ds[|ds|-1].calls, i)
  }

  function Names(cs: seq<CallDelta>): string {
    if cs == [] then "" else Names(cs[..|cs|-1]) + (match cs[|cs|-1].name case Some(name) => name case None => "")
  }

  function Arguments(cs: seq<CallDelta>): string {
    if cs == [] then ""
    else Arguments(cs[..|cs|-1]) + (match cs[|cs|-1].arguments case Some(text) => text case None => "")
  }

  /** The last id given, or the one made up for the slot. */
  function Id(cs: seq<CallDelta>, i: nat): string
    requires cs != []
  {
    var last := cs[|cs|-1];
    if last.id.Some? && last.id.value != "" then last.id.value
    else if |cs| > 1 then Id(cs[..|cs|-1], i)
    else if last.id.Some? then last.id.value
    else "tool-" + Figures(i)
  }

  /** Slot `i` of `calls` is put together from the fragments `cs`. */
  ghost predicate Assembled(calls: map<nat, ToolCall>, i: nat, cs: seq<CallDelta>) {
    && (i in calls <==> cs != [])
    && (cs != [] ==> calls[i] == ToolCall(Id(cs, i), Names(cs), Arguments(cs)))
  }

  lemma {:induction false} MergeAssembles(calls: map<nat, ToolCall>, c: CallDelta, i: nat, cs: seq<CallDelta>)
    requires Assembled(calls, i, cs)
    ensures Assembled(Merge(calls, c), i, if MeantFor(c, i) then cs + [c] else cs)
  {
    hide Figures;
    if MeantFor(c, i) {
      assert (cs + [c])[..|cs|] == cs;
      if cs == [] { assert Names([]) == "" && Arguments([]) == ""; }
    }
  }

  /** A fragment leaves every call but its own as it is. */
  lemma {:induction false} OtherCallsStay(calls: map<nat, ToolCall>, c: CallDelta, i: nat)
    requires MeantFor(c, i)
    ensures Merge(calls, c) - {i} == calls - {i} && i in Merge(calls, c)
  {
    hide Figures;
  }

  /** So fragments for different calls may come in either order. */
  lemma {:induction false} FragmentsCommute(calls: map<nat, ToolCall>, c: CallDelta, d: CallDelta, i: nat, j: nat)
    requires MeantFor(c, i) && MeantFor(d, j) && i != j
    ensures Merge(Merge(calls, c), d) == Merge(Merge(calls, d), c)
  {
    hide Figures;
    var one, other := Merge(Merge(calls, c), d), Merge(Merge(calls, d), c);
    assert one.Keys == calls.Keys + {i, j} == other.Keys;
  }

  lemma {:induction false} MergeAllAssembles(calls: map<nat, ToolCall>, more: seq<CallDelta>, i: nat,
                                             cs: seq<CallDelta>)
    requires Assembled(calls, i, cs)
    ensures Assembled(MergeAll(calls, more), i, cs + ForSlot(more, i))
  {
    hide Assembled, Merge, MeantFor;
    if more == [] {
      assert cs + [] == cs;
    } else {
      var c := more[|more|-1];
      MergeAllAssembles(calls, more[..|more|-1], i, cs);
      MergeAssembles(MergeAll(calls, more[..|more|-1]), c, i, cs + ForSlot(more[..|more|-1], i));
      assert cs + ForSlot(more[..|more|-1], i) + [c] == cs + (ForSlot(more[..|more|-1], i) + [c]);
      assert ForSlot(more[..|more|-1], i) + [] == ForSlot(more[..|more|-1], i);
    }
  }

  /**
   * The content is all content fragments in order, the usage the last one reported; each tool call is its own
   * slot's fragments in order, whatever came between.
   */
  lemma {:induction false} AnswerReassembles(parse: string -> Parsed, lines: seq<string>, i: nat)
    ensures var a, ds := Fold(parse, EMPTY, lines), Deltas(parse, lines);
            a.content == Contents(ds) && a.usage == LastUsage(parse, lines) && Assembled(a.calls, i, Fragments(ds, i))
  {
    hide Payload, Assembled, MergeAll, ForSlot;
    if lines == [] {
      assert Assembled(map[], i, []) by { NothingAssembled(i); }
    } else {
      var before, line := lines[..|lines|-1], lines[|lines|-1];
      AnswerReassembles(parse, before, i);
      var a, ds := Fold(parse, EMPTY, before), Deltas(parse, before);
      if !a.failed && Payload(line).Some? {
        match parse(Payload(line).value)
        case Malformed =>
        case Chunk(_, delta) =>
          if delta.Some? {
            MergeAllAssembles(a.calls, delta.value.calls, i, Fragments(ds, i));
            assert (ds + [delta.value])[..|ds|] == ds;
          } else {
            assert ds + [] == ds;
          }
      }
    }
  }

  lemma {:induction false} NothingAssembled(i: nat)
    ensures Assembled(map[], i, [])
  {}
}
