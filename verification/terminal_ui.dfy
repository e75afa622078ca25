/** The `TerminalUI` object of src/ui/terminal-ui.ts: the streaming output
    renderer with its pending line buffer and code-block flag, the tool
    callbacks, the run bookkeeping and the dispatch of input lines. The
    terminal is the sequence `out` of strings written to it, in order; the
    agent run is the sequence of callback events it produces. */
module TerminalUi {
  import opened Wrappers
  import opened JsText
  import opened Ansi
  import Markdown
  import opened TerminalFormat

  const PROMPT: string := ACCENT + BOLD + "❯ " + RESET
  const HEADER: string := "\n " + ACCENT + BOLD + "⚡ crux" + RESET + " " + MUTED + "— ops agent" + RESET + "\n\n"
  const GOODBYE: string := MUTED + " Goodbye." + RESET + "\n"
  const ABORTED: string := "\n" + WARNING + " ⚠ Aborted" + RESET + "\n"
  /** The byte Ctrl+C sends on the raw input stream. */
  const CTRL_C: int := 3

  // ── Line rendering ───────────────────────────────────────────────────────

  /** A line that opens or closes a fenced code block. */
  predicate IsFence(line: string) {
    StartsWith(line, "```")
  }

  /** How one complete line of streamed output is written: a fence becomes a
      short rule, a line inside a code block is written verbatim, any other
      line goes through `formatLine`. */
  datatype LineWrite = Rule | Verbatim(line: string) | Formatted(line: string)

  /** The separator printed in place of a fence line. */
  function FenceRule(cols: nat): string
    requires cols >= 2
  {
    DIM_FG + Repeat('─', if 40 < cols - 2 then 40 else cols - 2) + RESET + "\n"
  }

  /** The text written for a line. */
  function Show(w: LineWrite, cols: nat): string
    requires cols >= 2
  {
    match w
    case Rule => FenceRule(cols)
    case Verbatim(line) => DIM_FG + "  " + line + RESET + "\n"
    case Formatted(line) => FormatLine(line) + "\n"
  }

  /** The texts written for a sequence of lines, in order. */
  function ShowAll(ws: seq<LineWrite>, cols: nat): (r: seq<string>)
    requires cols >= 2
    ensures |r| == |ws|
  {
    if ws == [] then [] else ShowAll(ws[..|ws| - 1], cols) + [Show(ws[|ws| - 1], cols)]
  }

  lemma ShowAllAppend(ws: seq<LineWrite>, w: LineWrite, cols: nat)
    requires cols >= 2
    ensures ShowAll(ws + [w], cols) == ShowAll(ws, cols) + [Show(w, cols)]
  {
    assert (ws + [w])[..|ws|] == ws;
  }

  /** One complete line of streamed output: how it is written and the new
      code-block flag. */
  function RenderLine(line: string, inCode: bool): (r: (LineWrite, bool))
    ensures r.1 == (inCode != IsFence(line))
    ensures r.0 == Rule <==> IsFence(line)
  {
    if IsFence(line) then (Rule, !inCode)
    else (TextLine(line, inCode), inCode)
  }

  /** A line that is not a fence. */
  function TextLine(line: string, inCode: bool): LineWrite {
    if inCode then Verbatim(line) else Formatted(line)
  }

  /** The writes of a sequence of complete lines rendered in order from the
      flag `inCode`, and the flag after the last one. */
  function RenderLines(lines: seq<string>, inCode: bool): (r: (seq<LineWrite>, bool))
    ensures |r.0| == |lines|
    decreases |lines|
  {
    if lines == [] then ([], inCode)
    else
      var prev := RenderLines(lines[..|lines| - 1], inCode);
      var last := RenderLine(lines[|lines| - 1], prev.1);
      (prev.0 + [last.0], last.1)
  }

  /** Whether an odd number of the lines are fences. */
  function OddFences(lines: seq<string>): bool
    decreases |lines|
  {
    if lines == [] then false
    else OddFences(lines[..|lines| - 1]) != IsFence(lines[|lines| - 1])
  }

  /** The code-block flag flips once per fence line: it ends where it began
      exactly when an even number of fences went by. */
  lemma {:induction false} FenceParity(lines: seq<string>, inCode: bool)
    ensures RenderLines(lines, inCode).1 == (inCode != OddFences(lines))
    decreases |lines|
  {
    if lines != [] {
      var init, last := lines[..|lines| - 1], lines[|lines| - 1];
      FenceParity(init, inCode);
      assert RenderLines(lines, inCode).1 == (RenderLines(init, inCode).1 != IsFence(last));
    }
  }

  /** Each line written as a plain text line. */
  function TextLines(lines: seq<string>, inCode: bool): (r: seq<LineWrite>)
    ensures |r| == |lines|
  {
    seq(|lines|, i requires 0 <= i < |lines| => TextLine(lines[i], inCode))
  }

  /** Inside a code block, lines without fences are printed verbatim in the
      code style, never through `formatLine`; outside one they all go through
      `formatLine`; the flag does not change. */
  lemma {:induction false} UnfencedLines(lines: seq<string>, inCode: bool)
    requires forall i :: 0 <= i < |lines| ==> !IsFence(lines[i])
    ensures RenderLines(lines, inCode) == (TextLines(lines, inCode), inCode)
    decreases |lines|
  {
    if lines != [] {
      var init, last := lines[..|lines| - 1], lines[|lines| - 1];
      assert forall i :: 0 <= i < |init| ==> init[i] == lines[i];
      UnfencedLines(init, inCode);
      assert TextLines(lines, inCode) == TextLines(init, inCode) + [TextLine(last, inCode)];
    }
  }

  /** The lines of `s` ended by a newline, each given without it, in order,
      and the unterminated remainder. */
  function CompleteLines(s: string): (r: (seq<string>, string))
    ensures '\n' !in r.1
    ensures |r.0| == Count(s, '\n')
    ensures forall i :: 0 <= i < |r.0| ==> '\n' !in r.0[i]
  {
    var parts := Split(s, '\n');
    assert parts[|parts| - 1] in parts;
    assert forall i :: 0 <= i < |parts| - 1 ==> parts[i] in parts;
    (parts[..|parts| - 1], parts[|parts| - 1])
  }

  /** Each line followed by a newline. */
  function Terminated(lines: seq<string>): string
    decreases |lines|
  {
    if lines == [] then [] else lines[0] + "\n" + Terminated(lines[1..])
  }

  lemma {:induction false} JoinTerminated(parts: seq<string>)
    requires |parts| >= 1
    ensures Join(parts, "\n") == Terminated(parts[..|parts| - 1]) + parts[|parts| - 1]
    decreases |parts|
  {
    if |parts| > 1 {
      JoinTerminated(parts[1..]);
      assert parts[1..][..|parts| - 2] == parts[..|parts| - 1][1..];
      assert parts[..|parts| - 1][0] == parts[0];
    }
  }

  /** Putting the newlines back between the complete lines and appending the
      remainder gives the text back. */
  lemma CompleteLinesJoin(s: string)
    ensures Terminated(CompleteLines(s).0) + CompleteLines(s).1 == s
  {
    JoinTerminated(Split(s, '\n'));
  }

  /** With a buffer that holds no newline, appending a chunk completes
      exactly one line per newline in the chunk. */
  lemma OneLinePerNewline(buffer: string, chunk: string)
    requires '\n' !in buffer
    ensures |CompleteLines(buffer + chunk).0| == Count(chunk, '\n')
  {
    CountAppend(buffer, chunk, '\n');
    CountAbsent(buffer, '\n');
  }

  lemma {:induction false} TerminatedAppend(lines: seq<string>, line: string)
    ensures Terminated(lines + [line]) == Terminated(lines) + line + "\n"
    decreases |lines|
  {
    if lines == [] {
      assert Terminated([line]) == line + "\n" + Terminated([]);
    } else {
      assert (lines + [line])[1..] == lines[1..] + [line];
      TerminatedAppend(lines[1..], line);
    }
  }

  /** A newline-free line followed by a newline splits off first. */
  lemma SplitFirstLine(first: string, tail: string)
    requires '\n' !in first
    ensures Split(first + "\n" + tail, '\n') == [first] + Split(tail, '\n')
  {
    var s := first + "\n" + tail;
    var k := |first|;
    assert s[..k] == first && s[k + 1..] == tail && s[k] == '\n';
    IndexOfAt(s, '\n', k);
  }

  /** Taking the line before a newline out of the buffer and adding it to
      the lines taken so far leaves their text unchanged. */
  lemma TakeLine(done: seq<string>, buffer: string, k: nat)
    requires k < |buffer| && buffer[k] == '\n'
    ensures Terminated(done + [buffer[..k]]) + buffer[k + 1..] == Terminated(done) + buffer
  {
    TerminatedAppend(done, buffer[..k]);
    assert buffer == buffer[..k] + "\n" + buffer[k + 1..];
  }

  lemma TerminatedCons(lines: seq<string>, rest: string)
    requires lines != []
    ensures Terminated(lines) + rest == lines[0] + "\n" + (Terminated(lines[1..]) + rest)
  {
  }

  /** Newline-free lines, each followed by a newline, then a newline-free
      remainder, split back into those lines and that remainder. */
  lemma {:induction false} SplitTerminated(lines: seq<string>, rest: string)
    requires forall i :: 0 <= i < |lines| ==> '\n' !in lines[i]
    requires '\n' !in rest
    ensures Split(Terminated(lines) + rest, '\n') == lines + [rest]
    decreases |lines|
  {
    if lines == [] {
      assert Terminated(lines) + rest == rest;
    } else {
      var tail := Terminated(lines[1..]) + rest;
      assert forall i :: 0 <= i < |lines[1..]| ==> '\n' !in lines[1..][i];
      calc {
        Split(Terminated(lines) + rest, '\n');
        { TerminatedCons(lines, rest); }
        Split(lines[0] + "\n" + tail, '\n');
        { SplitFirstLine(lines[0], tail); }
        [lines[0]] + Split(tail, '\n');
        { SplitTerminated(lines[1..], rest); }
        [lines[0]] + (lines[1..] + [rest]);
        { assert lines == [lines[0]] + lines[1..]; }
        lines + [rest];
      }
    }
  }

  /** The lines completed in a buffer are recovered from the lines already
      taken out and what remains. */
  lemma CompleteLinesOf(lines: seq<string>, rest: string)
    requires forall i :: 0 <= i < |lines| ==> '\n' !in lines[i]
    requires '\n' !in rest
    ensures CompleteLines(Terminated(lines) + rest) == (lines, rest)
  {
    SplitTerminated(lines, rest);
    assert (lines + [rest])[..|lines|] == lines;
  }

  /** Rendering one more line appends its write and moves the flag on. */
  lemma RenderStep(done: seq<string>, line: string, inCode: bool, ws: seq<LineWrite>, w: LineWrite)
    requires w == RenderLine(line, RenderLines(done, inCode).1).0
    requires ws == RenderLines(done, inCode).0
    ensures RenderLines(done + [line], inCode) == (ws + [w], RenderLine(line, RenderLines(done, inCode).1).1)
  {
    assert (done + [line])[..|done|] == done;
  }

  lemma NewlineFreeAppend(done: seq<string>, line: string)
    requires forall i :: 0 <= i < |done| ==> '\n' !in done[i]
    requires '\n' !in line
    ensures forall i :: 0 <= i < |done + [line]| ==> '\n' !in (done + [line])[i]
  {
  }

  /** The loop of `onOutput` over a buffer: while it holds a newline, the
      line before it is taken out and written, a fence flipping the
      code-block flag. The writes, what is left of the buffer and the new
      flag. */
  method RenderBuffer(buffer: string, inCode: bool, cols: nat) returns (writes: seq<string>, rest: string, code: bool)
    requires cols >= 2
    ensures var c := CompleteLines(buffer);
            var r := RenderLines(c.0, inCode);
            rest == c.1 && writes == ShowAll(r.0, cols) && code == r.1
  {
    rest, code := buffer, inCode;
    writes := [];
    ghost var done: seq<string> := [];
    ghost var ws: seq<LineWrite> := [];
    var nl := IndexOf(rest, '\n');
    while nl != -1
      invariant nl == IndexOf(rest, '\n')
      invariant Terminated(done) + rest == buffer
      invariant forall i :: 0 <= i < |done| ==> '\n' !in done[i]
      invariant RenderLines(done, inCode) == (ws, code)
      invariant writes == ShowAll(ws, cols)
      decreases |rest|
    {
      var line := rest[..nl];
      TakeLine(done, rest, nl);
      rest := rest[nl + 1..];
      ghost var w: LineWrite;
      var text: string;
      if IsFence(line) {
        w := Rule;
        code := !code;
        text := FenceRule(cols);
      } else if code {
        w := Verbatim(line);
        text := DIM_FG + "  " + line + RESET + "\n";
      } else {
        w := Formatted(line);
        text := FormatLine(line) + "\n";
      }
      RenderStep(done, line, inCode, ws, w);
      ShowAllAppend(ws, w, cols);
      NewlineFreeAppend(done, line);
      writes := writes + [text];
      ws := ws + [w];
      done := done + [line];
      nl := IndexOf(rest, '\n');
    }
    CompleteLinesOf(done, rest);
  }

  // ── Events of a run ──────────────────────────────────────────────────────

  datatype Usage = Usage(promptTokens: nat, completionTokens: nat)

  /** The callbacks the agent controller invokes during a run, and the raw
      input bytes that reach the Ctrl+C listener while it runs. */
  datatype RenderEvent =
    | ThinkingStart
    | Thinking(chunk: string)
    | ThinkingEnd
    | OutputStart
    | Output(chunk: string)
    | OutputEnd
    | ToolCall(name: string, command: Option<string>, argsJson: string)
    | ToolResult(name: string, result: string, isError: bool)
    | Complete(response: string, usage: Usage)
    | Error(message: string)
    | StdinData(data: seq<int>)

  /** The part of the renderer's state that the events of a run move on:
      the pending partial line, the code-block flag, whether output has
      started, the step and token counters and the number of aborts. */
  datatype RunState = RunState(buffer: string, inCode: bool, started: bool,
                               steps: nat, tokens: nat, aborts: nat)

  /** Whether a raw input chunk is a Ctrl+C press. */
  predicate IsInterrupt(data: seq<int>) {
    data != [] && data[0] == CTRL_C
  }

  /** The number of Ctrl+C chunks among the events. */
  function InterruptCount(events: seq<RenderEvent>): nat
    decreases |events|
  {
    if events == [] then 0
    else
      var e := events[|events| - 1];
      InterruptCount(events[..|events| - 1]) + (if e.StdinData? && IsInterrupt(e.data) then 1 else 0)
  }

  /** The usage reported by the last completion among the events, if any. */
  function LastUsage(events: seq<RenderEvent>): Option<Usage>
    decreases |events|
  {
    if events == [] then None
    else if events[|events| - 1].Complete? then Some(events[|events| - 1].usage)
    else LastUsage(events[..|events| - 1])
  }

  /** The state after the callback for one event, from the state `s`, with
      `running` telling whether a run is in progress. */
  function Next(s: RunState, running: bool, e: RenderEvent): RunState {
    match e
    case OutputStart => s.(started := true)
    case Output(chunk) =>
      var c := CompleteLines(s.buffer + chunk);
      s.(buffer := c.1, inCode := RenderLines(c.0, s.inCode).1, started := true)
    case OutputEnd => s.(buffer := [], inCode := false)
    case Complete(_, usage) => s.(steps := s.steps + 1, tokens := usage.promptTokens + usage.completionTokens)
    case StdinData(data) => s.(aborts := s.aborts + (if IsInterrupt(data) && running then 1 else 0))
    case _ => s
  }

  /** The state after the events of a run, one after the other while the
      run is in progress. */
  function After(s: RunState, events: seq<RenderEvent>): RunState
    decreases |events|
  {
    if events == [] then s else Next(After(s, events[..|events| - 1]), true, events[|events| - 1])
  }

  /** Everything the events of a run write, from the state `s`, one event
      after the other, each writing `w` of the state it finds. */
  function FoldWrites(w: (RunState, RenderEvent) -> seq<string>, s: RunState, events: seq<RenderEvent>): seq<string>
    decreases |events|
  {
    if events == [] then []
    else
      var init := events[..|events| - 1];
      FoldWrites(w, s, init) + w(After(s, init), events[|events| - 1])
  }

  /** Two runs back to back write what one run over both sequences of
      events writes. */
  lemma {:induction false} FoldWritesAppend(w: (RunState, RenderEvent) -> seq<string>, s: RunState,
                                            a: seq<RenderEvent>, b: seq<RenderEvent>)
    ensures FoldWrites(w, s, a + b) == FoldWrites(w, s, a) + FoldWrites(w, After(s, a), b)
    decreases |b|
  {
    if b == [] {
      assert a + b == a;
    } else {
      var init := b[..|b| - 1];
      FoldWritesAppend(w, s, a, init);
      AfterAppend(s, a, init);
      assert (a + b)[..|a + b| - 1] == a + init;
      assert (a + b)[|a + b| - 1] == b[|b| - 1];
    }
  }

  lemma AfterSnoc(s: RunState, events: seq<RenderEvent>, i: nat)
    requires i < |events|
    ensures After(s, events[..i + 1]) == Next(After(s, events[..i]), true, events[i])
  {
    assert events[..i + 1][..i] == events[..i];
  }

  lemma FoldWritesSnoc(w: (RunState, RenderEvent) -> seq<string>, s: RunState, events: seq<RenderEvent>, i: nat)
    requires i < |events|
    ensures FoldWrites(w, s, events[..i + 1]) == FoldWrites(w, s, events[..i]) + w(After(s, events[..i]), events[i])
  {
    assert events[..i + 1][..i] == events[..i];
  }

  /** One more event of a run writes what `w` gives for it after what the
      events before it wrote. */
  lemma FoldWritesStep(w: (RunState, RenderEvent) -> seq<string>, s: RunState, events: seq<RenderEvent>, i: nat,
                       base: seq<string>, before: seq<string>, now: seq<string>)
    requires i < |events|
    requires before == base + FoldWrites(w, s, events[..i])
    requires now == before + w(After(s, events[..i]), events[i])
    ensures now == base + FoldWrites(w, s, events[..i + 1])
  {
    FoldWritesSnoc(w, s, events, i);
    assert now == base + (FoldWrites(w, s, events[..i]) + w(After(s, events[..i]), events[i]));
  }

  /** What `onOutput` writes for a chunk: the complete lines in the buffer
      with the chunk appended, rendered from the code-block flag. */
  function OutputWrites(buffer: string, inCode: bool, chunk: string, cols: nat): seq<string>
    requires cols >= 2
  {
    ShowAll(RenderLines(CompleteLines(buffer + chunk).0, inCode).0, cols)
  }

  /** A run takes one step per completion. */
  lemma {:induction false} RunSteps(s: RunState, events: seq<RenderEvent>)
    ensures After(s, events).steps == s.steps + CompleteCount(events)
    decreases |events|
  {
    if events != [] {
      var init := events[..|events| - 1];
      RunSteps(s, init);
      CompleteCountAppend(init, events[|events| - 1]);
      assert init + [events[|events| - 1]] == events;
    }
  }

  /** Every Ctrl+C chunk during a run aborts once more, and nothing else
      does. */
  lemma {:induction false} RunAborts(s: RunState, events: seq<RenderEvent>)
    ensures After(s, events).aborts == s.aborts + InterruptCount(events)
    decreases |events|
  {
    if events != [] {
      RunAborts(s, events[..|events| - 1]);
    }
  }

  /** After a run the token total is that of the last completion's usage,
      or what it was when no completion came. */
  lemma {:induction false} RunTokens(s: RunState, events: seq<RenderEvent>)
    ensures After(s, events).tokens ==
              match LastUsage(events)
              case None => s.tokens
              case Some(u) => u.promptTokens + u.completionTokens
    decreases |events|
  {
    if events != [] {
      RunTokens(s, events[..|events| - 1]);
    }
  }

  /** The pending partial line never holds a newline. */
  lemma {:induction false} RunBuffer(s: RunState, events: seq<RenderEvent>)
    requires '\n' !in s.buffer
    ensures '\n' !in After(s, events).buffer
    decreases |events|
  {
    if events != [] {
      RunBuffer(s, events[..|events| - 1]);
    }
  }

  /** Two runs back to back end where one run over both sequences of events
      ends. */
  lemma {:induction false} AfterAppend(s: RunState, a: seq<RenderEvent>, b: seq<RenderEvent>)
    ensures After(s, a + b) == After(After(s, a), b)
    decreases |b|
  {
    if b == [] {
      assert a + b == a;
    } else {
      var init := b[..|b| - 1];
      AfterAppend(s, a, init);
      assert (a + b)[..|a + b| - 1] == a + init;
      assert (a + b)[|a + b| - 1] == b[|b| - 1];
    }
  }

  /** Two output chunks leave the buffer and the code-block flag where
      their concatenation leaves them. */
  lemma ChunkState(s: RunState, a: string, b: string)
    ensures Next(Next(s, true, Output(a)), true, Output(b)) == Next(s, true, Output(a + b))
  {
    var c1 := CompleteLines(s.buffer + a);
    var c2 := CompleteLines(c1.1 + b);
    CompleteLinesConcat(s.buffer, a, b);
    RenderLinesConcat(c1.0, c2.0, s.inCode);
  }

  /** Two output chunks write what their concatenation writes. */
  lemma ChunkWrites(buffer: string, inCode: bool, a: string, b: string, cols: nat)
    requires cols >= 2
    ensures var c1 := CompleteLines(buffer + a);
            OutputWrites(buffer, inCode, a + b, cols) ==
              OutputWrites(buffer, inCode, a, cols) + OutputWrites(c1.1, RenderLines(c1.0, inCode).1, b, cols)
  {
    var c1 := CompleteLines(buffer + a);
    var r1 := RenderLines(c1.0, inCode);
    var c2 := CompleteLines(c1.1 + b);
    var r2 := RenderLines(c2.0, r1.1);
    calc {
      OutputWrites(buffer, inCode, a + b, cols);
      ShowAll(RenderLines(CompleteLines(buffer + (a + b)).0, inCode).0, cols);
      { CompleteLinesConcat(buffer, a, b); }
      ShowAll(RenderLines(c1.0 + c2.0, inCode).0, cols);
      { RenderLinesConcat(c1.0, c2.0, inCode); }
      ShowAll(r1.0 + r2.0, cols);
      { ShowAllConcat(r1.0, r2.0, cols); }
      ShowAll(r1.0, cols) + ShowAll(r2.0, cols);
    }
  }

  /** Streamed output does not depend on how it is cut into chunks: two
      chunks in a row leave the state their concatenation leaves, and write
      what it writes. */
  lemma StreamChunking(s: RunState, a: string, b: string, cols: nat)
    requires cols >= 2
    ensures After(s, [Output(a), Output(b)]) == After(s, [Output(a + b)])
    ensures var s1 := After(s, [Output(a)]);
            OutputWrites(s.buffer, s.inCode, a + b, cols) ==
              OutputWrites(s.buffer, s.inCode, a, cols) + OutputWrites(s1.buffer, s1.inCode, b, cols)
  {
    var s1 := Next(s, true, Output(a));
    assert [Output(a), Output(b)][..1] == [Output(a)];
    assert After(s, [Output(a)]) == s1;
    assert After(s, [Output(a), Output(b)]) == Next(s1, true, Output(b));
    ChunkState(s, a, b);
    ChunkWrites(s.buffer, s.inCode, a, b, cols);
  }

  /** What the line handler leaves behind: a fresh prompt, a finished
      process, or, when the controller's run rejected, a handler that stopped
      at the rejection with readline still paused and no prompt shown. */
  datatype LineOutcome = Reprompted | Exited | Abandoned

  /** The terminal's width, `process.stdout.columns || 80`. */
  class Screen {
    var cols: nat

    constructor(reportedColumns: Option<nat>)
      ensures cols == Columns(reportedColumns)
    {
      cols := Columns(reportedColumns);
    }

    /** The terminal now reports `reportedColumns` columns. */
    method Resize(reportedColumns: Option<nat>)
      modifies this
      ensures cols == Columns(reportedColumns)
    {
      cols := Columns(reportedColumns);
    }
  }

  /** The readline interface: only whether it is paused is modelled. */
  class Readline {
    var paused: bool

    constructor()
      ensures !paused
    {
      paused := false;
    }
  }

  function StatusLine(model: string, steps: nat, tokens: nat): string {
    " " + MUTED + model + " · " + NatToString(steps) + " steps · " + NatToString(tokens) + " tokens" + RESET + "\n"
  }

  /** What `onComplete` prints before the status line: the whole response,
      rendered, when nothing was streamed and the response is not empty. */
  function UnstreamedResponse(outputStarted: bool, response: string,
                              parse: string -> Option<string>): (w: seq<string>)
    ensures |w| <= 1
    ensures w != [] <==> !outputStarted && response != []
  {
    if !outputStarted && response != [] then [Markdown.RenderMarkdown(response, parse) + "\n"] else []
  }

  function CompleteCount(events: seq<RenderEvent>): nat {
    if events == [] then 0 else (if events[0].Complete? then 1 else 0) + CompleteCount(events[1..])
  }

  lemma CompleteCountAppend(events: seq<RenderEvent>, e: RenderEvent)
    ensures CompleteCount(events + [e]) == CompleteCount(events) + (if e.Complete? then 1 else 0)
  {
    if events != [] {
      assert (events + [e])[1..] == events[1..] + [e];
      CompleteCountAppend(events[1..], e);
    } else {
      assert events + [e] == [e];
    }
  }

  class TerminalUI {
    /** The terminal, whose width is read again at every fence and box. */
    const screen: Screen
    /** `config.model.model`, shown in the status line. */
    const modelName: string
    const rl: Readline
    /** The `marked` parse behind `renderMarkdown`. */
    const parseMarkdown: string -> Option<string>
    /** `JSON.parse` of an `exec_command` result. */
    const parseJson: string -> ExecPayload

    /** Everything written to the terminal, in order. */
    var out: seq<string>
    /** The inputs handed to the agent controller, in order. */
    var runs: seq<string>
    /** The number of `controller.abort()` calls. */
    var aborts: nat
    var exited: bool

    var steps: nat
    var totalTokens: nat
    var running: bool
    var lineBuffer: string
    var inCodeBlock: bool
    /** Whether output has started in the current run. */
    var outputStarted: bool

    ghost predicate Valid()
      reads this, screen
    {
      screen.cols >= 2 && '\n' !in lineBuffer
    }

    /** The run bookkeeping: the inputs run, the aborts, whether the process
        ended, the counters and whether a run is in progress. */
    ghost function Session(): (seq<string>, nat, bool, nat, nat, bool)
      reads this
    {
      (runs, aborts, exited, steps, totalTokens, running)
    }

    /** The streaming state. */
    ghost function Stream(): (string, bool, bool)
      reads this
    {
      (lineBuffer, inCodeBlock, outputStarted)
    }

    /** The state the events of a run move on. */
    ghost function State(): RunState
      reads this
    {
      RunState(lineBuffer, inCodeBlock, outputStarted, steps, totalTokens, aborts)
    }

    /** The texts the callback for one event writes, on a terminal `cols`
        wide, from the state `s`, with `running` telling whether a run is in
        progress. */
    function Writes(s: RunState, running: bool, cols: nat, e: RenderEvent): seq<string>
      requires cols >= 2
    {
      match e
      case ThinkingStart => []
      case Thinking(chunk) => [THINKING + DIM + chunk + RESET]
      case ThinkingEnd => ["\n"]
      case OutputStart => ["\n"]
      case Output(chunk) => OutputWrites(s.buffer, s.inCode, chunk, cols)
      case OutputEnd => FlushWrites(s.buffer, s.inCode) + (if s.started then ["\n"] else [])
      case ToolCall(name, command, argsJson) => [ToolCallWrite(name, command, argsJson)]
      case ToolResult(name, result, isError) => ToolResultWrites(name, result, isError, cols, parseJson, parseMarkdown)
      case Complete(response, usage) =>
        UnstreamedResponse(s.started, response, parseMarkdown) +
        [StatusLine(modelName, s.steps + 1, usage.promptTokens + usage.completionTokens)]
      case Error(message) => [ERROR + BOLD + " ✗ " + message + RESET + "\n"]
      case StdinData(data) => if IsInterrupt(data) && running then [ABORTED] else []
    }

    /** The writes of one event while a run is in progress. */
    function RunEventWrites(cols: nat): (RunState, RenderEvent) -> seq<string>
      requires cols >= 2
    {
      (st, e) => Writes(st, true, cols, e)
    }

    lemma RunEventWritesOf(cols: nat, s: RunState, e: RenderEvent)
      requires cols >= 2
      ensures RunEventWrites(cols)(s, e) == Writes(s, true, cols, e)
    {
    }

    constructor (screen: Screen, modelName: string,
                 parseMarkdown: string -> Option<string>, parseJson: string -> ExecPayload)
      requires screen.cols >= 2
      ensures Valid()
      ensures this.screen == screen && this.modelName == modelName
      ensures this.parseMarkdown == parseMarkdown && this.parseJson == parseJson
      ensures out == [] && runs == [] && aborts == 0 && !exited
      ensures steps == 0 && totalTokens == 0 && !running
      ensures lineBuffer == [] && !inCodeBlock && !outputStarted
      ensures fresh(rl) && !rl.paused
    {
      this.screen := screen;
      rl := new Readline();
      this.modelName := modelName;
      this.parseMarkdown := parseMarkdown;
      this.parseJson := parseJson;
      out := [];
      runs := [];
      aborts := 0;
      exited := false;
      steps := 0;
      totalTokens := 0;
      running := false;
      lineBuffer := [];
      inCodeBlock := false;
      outputStarted := false;
    }

    /** `start`: the header, then the first prompt. */
    method Start()
      modifies this
      ensures out == old(out) + [HEADER, PROMPT]
      ensures Session() == old(Session()) && Stream() == old(Stream())
    {
      out := out + [HEADER, PROMPT];
    }

    /** `onThinking` */
    method OnThinking(chunk: string)
      modifies this
      ensures out == old(out) + [THINKING + DIM + chunk + RESET]
      ensures Session() == old(Session()) && Stream() == old(Stream())
    {
      out := out + [THINKING + DIM + chunk + RESET];
    }

    /** `onThinkingEnd` and `onOutputStart` both write a newline; the latter
        also marks output as started. */
    method OnNewline(startsOutput: bool)
      modifies this
      ensures out == old(out) + ["\n"]
      ensures outputStarted == (old(outputStarted) || startsOutput)
      ensures Session() == old(Session())
      ensures lineBuffer == old(lineBuffer) && inCodeBlock == old(inCodeBlock)
    {
      if startsOutput {
        outputStarted := true;
      }
      out := out + ["\n"];
    }

    /** `onOutput`: the chunk is appended to the buffer, and every complete
        line in it is taken out and written, through the fence check, in
        order. */
    method OnOutput(chunk: string)
      requires Valid()
      modifies this
      ensures Valid()
      ensures var c := CompleteLines(old(lineBuffer) + chunk);
              var r := RenderLines(c.0, old(inCodeBlock));
              lineBuffer == c.1 && out == old(out) + ShowAll(r.0, screen.cols) && inCodeBlock == r.1
      ensures outputStarted
      ensures Session() == old(Session())
      ensures out == old(out) + Writes(old(State()), old(running), screen.cols, Output(chunk))
    {
      outputStarted := true;
      lineBuffer := lineBuffer + chunk;
      WriteCompleteLines();
    }

    /** The loop of `onOutput`: while the buffer holds a newline, the line
        before it is taken out and written. */
    method WriteCompleteLines()
      requires screen.cols >= 2
      modifies this
      ensures Valid()
      ensures var c := CompleteLines(old(lineBuffer));
              var r := RenderLines(c.0, old(inCodeBlock));
              lineBuffer == c.1 && out == old(out) + ShowAll(r.0, screen.cols) && inCodeBlock == r.1
      ensures Session() == old(Session()) && outputStarted == old(outputStarted)
    {
      var writes, rest, code := RenderBuffer(lineBuffer, inCodeBlock, screen.cols);
      lineBuffer, inCodeBlock := rest, code;
      out := out + writes;
    }

    /** `onOutputEnd`: whatever is pending is written without a fence check
        and without a newline, the buffer and the code-block flag are reset,
        and a newline ends the output if it started. */
    method OnOutputEnd()
      requires Valid()
      modifies this
      ensures Valid()
      ensures lineBuffer == [] && !inCodeBlock
      ensures out == old(out) + FlushWrites(old(lineBuffer), old(inCodeBlock)) + (if outputStarted then ["\n"] else [])
      ensures outputStarted == old(outputStarted)
      ensures Session() == old(Session())
      ensures out == old(out) + Writes(old(State()), old(running), screen.cols, OutputEnd)
    {
      if lineBuffer != [] {
        if inCodeBlock {
          out := out + [DIM_FG + "  " + lineBuffer + RESET];
        } else {
          out := out + [FormatLine(lineBuffer)];
        }
        lineBuffer := [];
      }
      inCodeBlock := false;
      if outputStarted {
        out := out + ["\n"];
      }
    }

    /** `onToolCall` */
    method OnToolCall(name: string, command: Option<string>, argsJson: string)
      modifies this
      ensures out == old(out) + [ToolCallWrite(name, command, argsJson)]
      ensures Session() == old(Session()) && Stream() == old(Stream())
    {
      out := out + [ToolCallWrite(name, command, argsJson)];
    }

    /** `onToolResult` */
    method OnToolResult(name: string, result: string, isError: bool)
      requires Valid()
      modifies this
      ensures out == old(out) + ToolResultWrites(name, result, isError, screen.cols, parseJson, parseMarkdown)
      ensures Session() == old(Session()) && Stream() == old(Stream())
      ensures out == old(out) + Writes(old(State()), old(running), screen.cols, ToolResult(name, result, isError))
    {
      out := out + ToolResultWrites(name, result, isError, screen.cols, parseJson, parseMarkdown);
    }

    /** `onComplete`: a response that was not streamed is rendered whole;
        the step count goes up by one and the token total is replaced by
        this run's usage. */
    method OnComplete(response: string, usage: Usage)
      modifies this
      ensures steps == old(steps) + 1
      ensures totalTokens == usage.promptTokens + usage.completionTokens
      ensures out == old(out) + UnstreamedResponse(outputStarted, response, parseMarkdown) +
                     [StatusLine(modelName, steps, totalTokens)]
      ensures (runs, aborts, exited, running) == old((runs, aborts, exited, running)) && Stream() == old(Stream())
    {
      var shown := UnstreamedResponse(outputStarted, response, parseMarkdown);
      steps := steps + 1;
      totalTokens := usage.promptTokens + usage.completionTokens;
      var status := StatusLine(modelName, steps, totalTokens);
      out := out + shown + [status];
    }

    /** `onError` */
    method OnError(message: string)
      modifies this
      ensures out == old(out) + [ERROR + BOLD + " ✗ " + message + RESET + "\n"]
      ensures Session() == old(Session()) && Stream() == old(Stream())
    {
      out := out + [ERROR + BOLD + " ✗ " + message + RESET + "\n"];
    }

    /** The Ctrl+C listener: every chunk starting with byte 3 while a run is
        in progress aborts the controller and prints a warning; repeated
        presses abort again. */
    method OnStdinData(data: seq<int>)
      modifies this
      ensures var hit := data != [] && data[0] == CTRL_C && running;
              aborts == old(aborts) + (if hit then 1 else 0) &&
              out == old(out) + (if hit then [ABORTED] else [])
      ensures runs == old(runs) && exited == old(exited)
      ensures steps == old(steps) && totalTokens == old(totalTokens) && running == old(running)
      ensures Stream() == old(Stream())
    {
      if data != [] && data[0] == CTRL_C && running {
        aborts := aborts + 1;
        out := out + [ABORTED];
      }
    }

    /** Routes one event to its callback. */
    method Dispatch(e: RenderEvent)
      requires Valid()
      modifies this
      ensures Valid()
      ensures steps == old(steps) + (if e.Complete? then 1 else 0)
      ensures e.Complete? ==> totalTokens == e.usage.promptTokens + e.usage.completionTokens
      ensures !e.Complete? ==> totalTokens == old(totalTokens)
      ensures e.OutputEnd? ==> lineBuffer == [] && !inCodeBlock
      ensures runs == old(runs) && exited == old(exited) && running == old(running)
      ensures |old(out)| <= |out| && out[..|old(out)|] == old(out)
      ensures State() == Next(old(State()), old(running), e)
      ensures out == old(out) + Writes(old(State()), old(running), screen.cols, e)
    {
      if e.OutputStart? || e.Output? || e.OutputEnd? || e.ToolResult? {
        DispatchRendered(e);
      } else if e.Complete? {
        DispatchComplete(e);
      } else if e.Error? || e.StdinData? {
        DispatchStatus(e);
      } else {
        DispatchNotice(e);
      }
    }

    /** The callbacks that render through the screen width or the buffer. */
    method DispatchRendered(e: RenderEvent)
      requires Valid() && (e.OutputStart? || e.Output? || e.OutputEnd? || e.ToolResult?)
      modifies this
      ensures Valid()
      ensures runs == old(runs) && exited == old(exited) && running == old(running)
      ensures State() == Next(old(State()), old(running), e)
      ensures out == old(out) + Writes(old(State()), old(running), screen.cols, e)
    {
      match e
      case OutputStart => OnNewline(true);
      case Output(chunk) => OnOutput(chunk);
      case OutputEnd => OnOutputEnd();
      case ToolResult(name, result, isError) => OnToolResult(name, result, isError);
    }

    /** The callbacks that write the thinking text and tool calls. */
    method DispatchNotice(e: RenderEvent)
      requires Valid() && (e.ThinkingStart? || e.Thinking? || e.ThinkingEnd? || e.ToolCall?)
      modifies this
      ensures Valid()
      ensures runs == old(runs) && exited == old(exited) && running == old(running)
      ensures State() == Next(old(State()), old(running), e)
      ensures out == old(out) + Writes(old(State()), old(running), screen.cols, e)
    {
      match e
      case ThinkingStart =>
      case Thinking(chunk) => OnThinking(chunk);
      case ThinkingEnd => OnNewline(false);
      case ToolCall(name, command, argsJson) => OnToolCall(name, command, argsJson);
    }

    /** The callback that ends a step. */
    method DispatchComplete(e: RenderEvent)
      requires Valid() && e.Complete?
      modifies this
      ensures Valid()
      ensures runs == old(runs) && exited == old(exited) && running == old(running)
      ensures State() == Next(old(State()), old(running), e)
      ensures out == old(out) + Writes(old(State()), old(running), screen.cols, e)
    {
      OnComplete(e.response, e.usage);
    }

    /** The callbacks that report an error or read the keyboard. */
    method DispatchStatus(e: RenderEvent)
      requires Valid() && (e.Error? || e.StdinData?)
      modifies this
      ensures Valid()
      ensures runs == old(runs) && exited == old(exited) && running == old(running)
      ensures State() == Next(old(State()), old(running), e)
      ensures out == old(out) + Writes(old(State()), old(running), screen.cols, e)
    {
      match e
      case Error(message) => OnError(message);
      case StdinData(data) => OnStdinData(data);
    }

    /** `handleInput`: a run of the controller on `input`, whose callbacks
        arrive as `events`; `running` is set for its duration and
        `outputStarted` starts out false. The buffer and the code-block flag
        are not reset at the start of a run. */
    method HandleInput(input: string, events: seq<RenderEvent>)
      requires Valid()
      modifies this
      ensures Valid()
      ensures runs == old(runs) + [input]
      ensures !running && exited == old(exited)
      ensures steps == old(steps) + CompleteCount(events)
      ensures |old(out)| <= |out| && out[..|old(out)|] == old(out)
      ensures var s0 := old(State()).(started := false);
              State() == After(s0, events) &&
              out == old(out) + FoldWrites(RunEventWrites(screen.cols), s0, events)
    {
      running := true;
      outputStarted := false;
      runs := runs + [input];
      ghost var s0 := State();
      ghost var w := RunEventWrites(screen.cols);
      var i := 0;
      while i < |events|
        invariant 0 <= i <= |events|
        invariant Valid() && running
        invariant runs == old(runs) + [input] && exited == old(exited)
        invariant State() == After(s0, events[..i])
        invariant out == old(out) + FoldWrites(w, s0, events[..i])
      {
        ghost var before := out;
        ghost var st := State();
        Dispatch(events[i]);
        AfterSnoc(s0, events, i);
        RunEventWritesOf(screen.cols, st, events[i]);
        FoldWritesStep(w, s0, events, i, old(out), before, out);
        i := i + 1;
      }
      assert events[..|events|] == events;
      RunSteps(s0, events);
      assert out[..|old(out)|] == old(out);
      running := false;
    }

    /** The `'line'` handler: blank input re-prompts, `exit` or `quit` says
        goodbye and ends the process, anything else is run trimmed with
        readline paused; when the run settles, readline resumes and the
        prompt is shown again, and when it rejects (`rejected`) the handler
        stops there. Lines arrive only while readline is not paused. */
    method OnLine(input: string, events: seq<RenderEvent>, rejected: bool) returns (r: LineOutcome)
      requires Valid() && !running && !rl.paused
      modifies this, rl
      ensures Valid() && !running
      ensures Trim(input) == [] ==>
                r == Reprompted && out == old(out) + [PROMPT] && runs == old(runs) && !rl.paused
      ensures IsExitCommand(Trim(input)) ==>
                r == Exited && exited && out == old(out) + [GOODBYE] && runs == old(runs)
      ensures Trim(input) == [] ==> State() == old(State())
      ensures IsExitCommand(Trim(input)) ==> State() == old(State())
      ensures !IsExitCommand(Trim(input)) ==> exited == old(exited)
      ensures Trim(input) != [] && !IsExitCommand(Trim(input)) ==>
                runs == old(runs) + [Trim(input)] && steps == old(steps) + CompleteCount(events) &&
                rl.paused == rejected && r == (if rejected then Abandoned else Reprompted) &&
                (!rejected ==> Prompted(out))
      ensures Trim(input) != [] && !IsExitCommand(Trim(input)) ==>
                var s0 := old(State()).(started := false);
                State() == After(s0, events) &&
                out == old(out) + FoldWrites(RunEventWrites(screen.cols), s0, events) + (if rejected then [] else [PROMPT])
    {
      var trimmed := Trim(input);
      if trimmed == [] {
        assert !IsExitCommand(trimmed);
        Prompt();
        return Reprompted;
      }
      if IsExitCommand(trimmed) {
        Quit();
        return Exited;
      }
      RunLine(trimmed, events, rejected);
      r := if rejected then Abandoned else Reprompted;
    }

    /** Shows the prompt again. */
    method Prompt()
      modifies this
      ensures out == old(out) + [PROMPT]
      ensures runs == old(runs) && exited == old(exited) && running == old(running)
      ensures State() == old(State())
    {
      out := out + [PROMPT];
    }

    /** Says goodbye and ends the process. */
    method Quit()
      requires Valid() && !running
      modifies this
      ensures Valid() && !running && exited
      ensures out == old(out) + [GOODBYE] && runs == old(runs)
      ensures State() == old(State())
    {
      out := out + [GOODBYE];
      exited := true;
    }

    /** A command line is run with readline paused; readline resumes and the
        prompt is shown again unless the run rejected. */
    method RunLine(command: string, events: seq<RenderEvent>, rejected: bool)
      requires Valid() && !running
      modifies this, rl
      ensures Valid() && !running
      ensures runs == old(runs) + [command] && steps == old(steps) + CompleteCount(events)
      ensures rl.paused == rejected && (!rejected ==> Prompted(out))
      ensures exited == old(exited)
      ensures var s0 := old(State()).(started := false);
              State() == After(s0, events) &&
              out == old(out) + FoldWrites(RunEventWrites(screen.cols), s0, events) + (if rejected then [] else [PROMPT])
    {
      rl.paused := true;
      HandleInput(command, events);
      if !rejected {
        rl.paused := false;
        out := out + [PROMPT];
      }
    }
  }

  lemma {:induction false} TerminatedConcat(a: seq<string>, b: seq<string>)
    ensures Terminated(a + b) == Terminated(a) + Terminated(b)
    decreases |a|
  {
    if a == [] {
      assert a + b == b;
    } else {
      assert (a + b)[1..] == a[1..] + b;
      TerminatedConcat(a[1..], b);
    }
  }

  /** Lines taken from a text, then from its remainder with more text,
      rebuild the whole text. */
  lemma GlueText(first: seq<string>, rest: string, second: seq<string>, left: string,
                 x: string, a: string, b: string)
    requires Terminated(first) + rest == x + a
    requires Terminated(second) + left == rest + b
    ensures x + (a + b) == Terminated(first + second) + left
  {
    TerminatedConcat(first, second);
    calc {
      x + (a + b);
      (x + a) + b;
      Terminated(first) + rest + b;
      Terminated(first) + (rest + b);
      Terminated(first) + (Terminated(second) + left);
      Terminated(first + second) + left;
    }
  }

  /** The lines completed from a text, then from its remainder with more
      text, rebuild the whole text. */
  lemma ConcatText(x: string, a: string, b: string)
    ensures var c1 := CompleteLines(x + a);
            var c2 := CompleteLines(c1.1 + b);
            x + (a + b) == Terminated(c1.0 + c2.0) + c2.1
  {
    var c1 := CompleteLines(x + a);
    var c2 := CompleteLines(c1.1 + b);
    CompleteLinesJoin(x + a);
    CompleteLinesJoin(c1.1 + b);
    GlueText(c1.0, c1.1, c2.0, c2.1, x, a, b);
  }

  /** Completing the lines of a text, then of its remainder with more text,
      completes the lines of the whole text. */
  lemma CompleteLinesConcat(x: string, a: string, b: string)
    ensures var c1 := CompleteLines(x + a);
            var c2 := CompleteLines(c1.1 + b);
            CompleteLines(x + (a + b)) == (c1.0 + c2.0, c2.1)
  {
    var c1 := CompleteLines(x + a);
    var c2 := CompleteLines(c1.1 + b);
    ConcatText(x, a, b);
    NewlineFreeConcat(c1.0, c2.0);
    CompleteLinesOf(c1.0 + c2.0, c2.1);
  }

  lemma NewlineFreeConcat(a: seq<string>, b: seq<string>)
    requires forall i :: 0 <= i < |a| ==> '\n' !in a[i]
    requires forall i :: 0 <= i < |b| ==> '\n' !in b[i]
    ensures forall i :: 0 <= i < |a + b| ==> '\n' !in (a + b)[i]
  {
  }

  /** Rendering two sequences of lines one after the other is rendering
      their concatenation. */
  lemma {:induction false} RenderLinesConcat(a: seq<string>, b: seq<string>, inCode: bool)
    ensures var r1 := RenderLines(a, inCode);
            var r2 := RenderLines(b, r1.1);
            RenderLines(a + b, inCode) == (r1.0 + r2.0, r2.1)
    decreases |b|
  {
    if b == [] {
      assert a + b == a;
      assert RenderLines(a, inCode).0 + [] == RenderLines(a, inCode).0;
    } else {
      var init := b[..|b| - 1];
      RenderLinesConcat(a, init, inCode);
      assert (a + b)[..|a + b| - 1] == a + init;
      assert (a + b)[|a + b| - 1] == b[|b| - 1];
      var r1 := RenderLines(a, inCode);
      var p := RenderLines(init, r1.1);
      var last := RenderLine(b[|b| - 1], p.1);
      assert RenderLines(b, r1.1) == (p.0 + [last.0], last.1);
      assert RenderLines(a + b, inCode) == ((r1.0 + p.0) + [last.0], last.1);
      assert (r1.0 + p.0) + [last.0] == r1.0 + (p.0 + [last.0]);
    }
  }

  lemma {:induction false} ShowAllConcat(a: seq<LineWrite>, b: seq<LineWrite>, cols: nat)
    requires cols >= 2
    ensures ShowAll(a + b, cols) == ShowAll(a, cols) + ShowAll(b, cols)
    decreases |b|
  {
    if b == [] {
      assert a + b == a;
    } else {
      var init := b[..|b| - 1];
      ShowAllConcat(a, init, cols);
      assert (a + b)[..|a + b| - 1] == a + init;
    }
  }

  /** The last write is the prompt. */
  predicate Prompted(out: seq<string>) {
    |out| > 0 && out[|out| - 1] == PROMPT
  }

  /** The inputs that end the session. */
  predicate IsExitCommand(t: string) {
    t == "exit" || t == "quit"
  }

  /** What `onOutputEnd` writes for the pending text. */
  function FlushWrites(buffer: string, inCode: bool): seq<string> {
    if buffer == [] then []
    else if inCode then [DIM_FG + "  " + buffer + RESET]
    else [FormatLine(buffer)]
  }
}
