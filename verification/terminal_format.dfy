/** The pure formatting helpers of the terminal UI (src/ui/terminal-ui.ts):
    the bordered box, the line-level markdown heuristics and the rendering of
    tool results. The terminal is a sequence of writes; its width is the
    reported column count with `|| 80` applied. */
module TerminalFormat {
  import opened Wrappers
  import opened JsText
  import opened Ansi
  import Markdown

  /** `process.stdout.columns || 80`: an absent or zero width means 80. */
  function Columns(reported: Option<nat>): (cols: nat)
    ensures reported.Some? && reported.value != 0 ==> cols == reported.value
    ensures reported.None? || reported.value == 0 ==> cols == 80
  {
    if reported.Some? && reported.value != 0 then reported.value else 80
  }

  // ── Box drawing ──────────────────────────────────────────────────────────

  /** A top or bottom border: corner, `width` horizontal bars, corner. */
  function BoxEdge(border: string, left: char, width: nat, right: char): string {
    border + [left] + Repeat('─', width) + [right] + RESET
  }

  /** `Math.max(0, maxWidth - stripped.length)` */
  function PadWidth(line: string, maxWidth: int): nat {
    if maxWidth - |StripAnsi(line)| > 0 then maxWidth - |StripAnsi(line)| else 0
  }

  /** One content row: the line itself, escapes included, padded by the
      difference between its visible length and the inner width. */
  function BoxRow(line: string, border: string, maxWidth: int): string {
    border + "│" + RESET + " " + line + Repeat(' ', PadWidth(line, maxWidth)) + " " + border + "│" + RESET
  }

  function BoxRows(lines: seq<string>, border: string, maxWidth: int): (rows: seq<string>)
    ensures |rows| == |lines|
    ensures forall i :: 0 <= i < |lines| ==> rows[i] == BoxRow(lines[i], border, maxWidth)
  {
    seq(|lines|, i requires 0 <= i < |lines| => BoxRow(lines[i], border, maxWidth))
  }

  /** The rows `drawBox` joins with newlines (`maxWidth = cols - 4`). */
  function DrawBoxRows(lines: seq<string>, border: string, cols: nat): seq<string>
    requires cols >= 2
  {
    [BoxEdge(border, '╭', cols - 2, '╮')] + BoxRows(lines, border, cols - 4) + [BoxEdge(border, '╰', cols - 2, '╯')]
  }

  /** `drawBox(lines, borderColor)` */
  function DrawBox(lines: seq<string>, border: string, cols: nat): string
    requires cols >= 2
  {
    Join(DrawBoxRows(lines, border, cols), "\n")
  }

  lemma StripCons(c: char, s: string)
    requires c != '\U{1B}'
    ensures StripAnsi([c] + s) == [c] + StripAnsi(s)
  {
    assert ([c] + s)[1..] == s;
  }

  /** The right border of a content row shows as a space and a bar. */
  lemma StripRowTail(border: string)
    requires IsSgr(border)
    ensures StripAnsi(" " + border + "│" + RESET) == " │"
  {
    RowTailShape(border);
    assert StripAnsi(border + "│" + RESET) == "│" by {
      ConstantsAreSgr();
      StripWrapped(border, "│", RESET);
      StripPlain("│");
    }
    StripCons(' ', border + "│" + RESET);
  }

  lemma RowTailShape(border: string)
    ensures " " + border + "│" + RESET == [' '] + (border + "│" + RESET)
    ensures " │" == [' '] + "│"
  {
  }

  /** The left border of a content row shows as a bar and a space. */
  lemma StripRowHead(border: string, x: string)
    requires IsSgr(border)
    ensures StripAnsi(border + "│" + RESET + " " + x) == "│ " + StripAnsi(x)
  {
    RowHeadShape(border, x);
    StripRowHeadParts(border, x);
  }

  lemma RowHeadShape(border: string, x: string)
    ensures border + "│" + RESET + " " + x == border + (['│'] + (RESET + ([' '] + x)))
    ensures "│ " + StripAnsi(x) == ['│'] + ([' '] + StripAnsi(x))
  {
  }

  lemma StripRowHeadParts(border: string, x: string)
    requires IsSgr(border)
    ensures StripAnsi(border + (['│'] + (RESET + ([' '] + x)))) == ['│'] + ([' '] + StripAnsi(x))
  {
    var x1 := [' '] + x;
    var x2 := RESET + x1;
    var x3 := ['│'] + x2;
    assert StripAnsi(x1) == [' '] + StripAnsi(x) by { StripCons(' ', x); }
    assert StripAnsi(x2) == StripAnsi(x1) by {
      ConstantsAreSgr();
      StripSgrPrefix(RESET, x1);
    }
    assert StripAnsi(x3) == ['│'] + StripAnsi(x2) by { StripCons('│', x2); }
    assert StripAnsi(border + x3) == StripAnsi(x3) by { StripSgrPrefix(border, x3); }
  }

  /** The visible text of a content row. */
  lemma BoxRowVisible(line: string, border: string, maxWidth: int)
    requires IsSgr(border)
    ensures StripAnsi(BoxRow(line, border, maxWidth)) ==
            "│ " + StripAnsi(line) + Repeat(' ', PadWidth(line, maxWidth)) + " │"
  {
    var pad := Repeat(' ', PadWidth(line, maxWidth));
    var tail := " " + border + "│" + RESET;
    StripRowTail(border);
    StripAppend(pad, tail);
    StripPlain(pad);
    StripAppend(line, pad + tail);
    StripRowHead(border, line + (pad + tail));
    BoxRowSplit(line, border, maxWidth);
    var sl := StripAnsi(line);
    AppendAssoc(sl, pad, " │");
    AppendAssoc("│ ", sl, pad + " │");
    AppendAssoc("│ " + sl, pad, " │");
  }

  lemma BoxRowSplit(line: string, border: string, maxWidth: int)
    ensures BoxRow(line, border, maxWidth) ==
            border + "│" + RESET + " " + (line + (Repeat(' ', PadWidth(line, maxWidth)) + (" " + border + "│" + RESET)))
  {
  }

  /** A content row is as wide as the inner width plus four, or as the
      visible line plus four when the line is wider. */
  lemma BoxRowWidth(line: string, border: string, maxWidth: int)
    requires IsSgr(border)
    ensures |StripAnsi(BoxRow(line, border, maxWidth))| ==
            (if |StripAnsi(line)| <= maxWidth then maxWidth + 4 else |StripAnsi(line)| + 4)
  {
    BoxRowVisible(line, border, maxWidth);
  }

  /** The line itself follows the border, the bar, the reset and one space. */
  lemma BoxRowEmbeds(line: string, border: string, maxWidth: int)
    ensures var row := BoxRow(line, border, maxWidth);
            |border| + 6 + |line| <= |row| && row[|border| + 6..|border| + 6 + |line|] == line
  {
    var head := border + "│" + RESET + " ";
    var row := BoxRow(line, border, maxWidth);
    assert |head| == |border| + 6;
    assert row == head + line + (Repeat(' ', PadWidth(line, maxWidth)) + " " + border + "│" + RESET);
  }

  /** The visible text of a border row has exactly `width + 2` characters. */
  lemma BoxEdgeVisible(border: string, left: char, width: nat, right: char)
    requires IsSgr(border)
    requires left != '\U{1B}' && right != '\U{1B}'
    ensures |StripAnsi(BoxEdge(border, left, width, right))| == width + 2
  {
    ConstantsAreSgr();
    var plain := EdgePlain(border, left, width, right);
    StripWrapped(border, plain, RESET);
    StripPlain(plain);
  }

  /** The visible part of a border row: the corners around the bar. */
  lemma EdgePlain(border: string, left: char, width: nat, right: char) returns (plain: string)
    requires left != '\U{1B}' && right != '\U{1B}'
    ensures BoxEdge(border, left, width, right) == border + plain + RESET
    ensures '\U{1B}' !in plain && |plain| == width + 2
  {
    var bars := Repeat('─', width);
    plain := [left] + bars + [right];
    AppendAssoc(border + [left], bars, [right]);
    AppendAssoc(border, [left], bars + [right]);
    AppendAssoc([left], bars, [right]);
  }

  /** A content row shows `line`: the line is embedded unchanged after the
      left border, and the visible row is `cols` wide when the line fits in
      `cols - 4` columns and four wider than the line otherwise. */
  predicate RowShows(row: string, line: string, border: string, cols: int) {
    |border| + 6 + |line| <= |row| &&
    row[|border| + 6..|border| + 6 + |line|] == line &&
    |StripAnsi(row)| == (if |StripAnsi(line)| <= cols - 4 then cols else |StripAnsi(line)| + 4)
  }

  lemma BoxRowShows(line: string, border: string, cols: int)
    requires IsSgr(border)
    ensures RowShows(BoxRow(line, border, cols - 4), line, border, cols)
  {
    BoxRowEmbeds(line, border, cols - 4);
    BoxRowWidth(line, border, cols - 4);
  }

  /** `drawBox` yields `lines.length + 2` rows, the first and last being
      borders `cols` columns wide once escapes are stripped. */
  lemma DrawBoxShape(lines: seq<string>, border: string, cols: nat)
    requires cols >= 2 && IsSgr(border)
    ensures var rows := DrawBoxRows(lines, border, cols);
            |rows| == |lines| + 2 &&
            |StripAnsi(rows[0])| == cols && |StripAnsi(rows[|rows| - 1])| == cols
  {
    DrawBoxTop(lines, border, cols);
    DrawBoxBottom(lines, border, cols);
  }

  lemma DrawBoxTop(lines: seq<string>, border: string, cols: nat)
    requires cols >= 2 && IsSgr(border)
    ensures |StripAnsi(DrawBoxRows(lines, border, cols)[0])| == cols
  {
    DrawBoxEdges(lines, border, cols);
    BoxEdgeVisible(border, '╭', cols - 2, '╮');
  }

  lemma DrawBoxBottom(lines: seq<string>, border: string, cols: nat)
    requires cols >= 2 && IsSgr(border)
    ensures var rows := DrawBoxRows(lines, border, cols);
            |rows| == |lines| + 2 && |StripAnsi(rows[|rows| - 1])| == cols
  {
    DrawBoxEdges(lines, border, cols);
    BoxEdgeVisible(border, '╰', cols - 2, '╯');
  }

  /** Between the borders, row `i + 1` shows `lines[i]`, so lines that fit
      give a box with a straight right border. */
  lemma DrawBoxLines(lines: seq<string>, border: string, cols: nat)
    requires cols >= 2 && IsSgr(border)
    ensures var rows := DrawBoxRows(lines, border, cols);
            |rows| == |lines| + 2 &&
            forall i :: 0 <= i < |lines| ==> RowShows(rows[i + 1], lines[i], border, cols)
  {
    var rows := DrawBoxRows(lines, border, cols);
    DrawBoxMiddle(lines, border, cols);
    forall i | 0 <= i < |lines|
      ensures RowShows(rows[i + 1], lines[i], border, cols)
    {
      BoxRowShows(lines[i], border, cols);
    }
  }

  lemma DrawBoxEdges(lines: seq<string>, border: string, cols: nat)
    requires cols >= 2
    ensures var rows := DrawBoxRows(lines, border, cols);
            |rows| == |lines| + 2 &&
            rows[0] == BoxEdge(border, '╭', cols - 2, '╮') &&
            rows[|rows| - 1] == BoxEdge(border, '╰', cols - 2, '╯')
  {
    Framed(BoxEdge(border, '╭', cols - 2, '╮'), BoxRows(lines, border, cols - 4), BoxEdge(border, '╰', cols - 2, '╯'));
  }

  lemma DrawBoxMiddle(lines: seq<string>, border: string, cols: nat)
    requires cols >= 2
    ensures var rows := DrawBoxRows(lines, border, cols);
            |rows| == |lines| + 2 &&
            forall i :: 0 <= i < |lines| ==> rows[i + 1] == BoxRow(lines[i], border, cols - 4)
  {
    Framed(BoxEdge(border, '╭', cols - 2, '╮'), BoxRows(lines, border, cols - 4), BoxEdge(border, '╰', cols - 2, '╯'));
  }

  lemma Framed<T>(top: T, mid: seq<T>, bottom: T)
    ensures var r := [top] + mid + [bottom];
            |r| == |mid| + 2 && r[0] == top && r[|r| - 1] == bottom &&
            forall i :: 0 <= i < |mid| ==> r[i + 1] == mid[i]
  {
  }

  // ── Inline markdown ──────────────────────────────────────────────────────

  /** The line terminators that the regular-expression `.` does not match. */
  predicate IsLineTerminator(c: char) {
    c == '\n' || c == '\r' || c == '\U{2028}' || c == '\U{2029}'
  }

  /** `/^(-{3,}|\*{3,})$/`: three or more dashes, or three or more stars. */
  predicate IsRule(t: string) {
    |t| >= 3 && ((forall i :: 0 <= i < |t| ==> t[i] == '-') || (forall i :: 0 <= i < |t| ==> t[i] == '*'))
  }

  /** The number of leading white-space characters (`^\s*`). */
  function Indent(line: string): (k: nat)
    ensures k <= |line|
  {
    |line| - |TrimStart(line)|
  }

  /** The indentation is white space and ends at the first other character. */
  lemma IndentSpec(line: string)
    ensures forall i :: 0 <= i < Indent(line) ==> IsSpace(line[i])
    ensures Indent(line) < |line| ==> !IsSpace(line[Indent(line)])
  {
    TrimStartDrops(line);
    TrimStartFirst(line);
  }

  /** `line.replace(/^(\s*)[-*] /, '$1• ')` */
  function Bullet(line: string): string {
    var k := Indent(line);
    if k + 1 < |line| && (line[k] == '-' || line[k] == '*') && line[k + 1] == ' ' then
      line[..k] + "• " + line[k + 2..]
    else line
  }

  /** Where the lazy bold content that may end at `j` or later closes: the
      first `**` at or after `j`, provided no line terminator comes first. */
  function BoldClose(s: string, j: nat): (r: Option<nat>)
    requires j <= |s|
    ensures r.Some? ==> j <= r.value && r.value + 2 <= |s| && s[r.value] == '*' && s[r.value + 1] == '*'
    decreases |s| - j
  {
    if j + 2 > |s| then None
    else if s[j] == '*' && s[j + 1] == '*' then Some(j)
    else if IsLineTerminator(s[j]) then None
    else BoldClose(s, j + 1)
  }

  /** One step of the bold pass at `i`: a `**text**` match starting there,
      whose text is one or more characters without a line terminator and
      closes lazily, is written as `BOLD + text + ESC[22m`; otherwise the
      character at `i` is kept. The second component is where scanning
      resumes. */
  function BoldStep(s: string, i: nat): (r: (string, nat))
    requires i < |s|
    ensures i < r.1 <= |s|
  {
    if i + 2 < |s| && s[i] == '*' && s[i + 1] == '*' && !IsLineTerminator(s[i + 2]) && BoldClose(s, i + 3).Some? then
      var j := BoldClose(s, i + 3).value;
      (BOLD + s[i + 2..j] + NORMAL_INTENSITY, j + 2)
    else ([s[i]], i + 1)
  }

  /** The bold pass: every lazy `**text**` match, left to right from `i`,
      becomes `BOLD + text + ESC[22m`. */
  function BoldFrom(s: string, i: nat): string
    requires i <= |s|
    decreases |s| - i
  {
    if i == |s| then [] else BoldStep(s, i).0 + BoldFrom(s, BoldStep(s, i).1)
  }

  /** One step of the italic pass at `i`: a star with no star before it in
      the input, star-free text of one or more characters, and a star not
      followed by another is written as `DIM + text + ESC[22m`; otherwise
      the character at `i` is kept. */
  function ItalicStep(s: string, i: nat): (r: (string, nat))
    requires i < |s|
    ensures i < r.1 <= |s|
  {
    if s[i] == '*' && (i == 0 || s[i - 1] != '*') then
      var k := IndexOf(s[i + 1..], '*');
      if k >= 1 && (i + k + 2 == |s| || s[i + k + 2] != '*') then
        (DIM + s[i + 1..i + 1 + k] + NORMAL_INTENSITY, i + k + 2)
      else ([s[i]], i + 1)
    else ([s[i]], i + 1)
  }

  /** `s.replace(/(?<!\*)\*([^*]+)\*(?!\*)/g, DIM + '$1' + ESC + '22m')`,
      scanning from `i`; the look-behind reads the input string. */
  function ItalicFrom(s: string, i: nat): string
    requires i <= |s|
    decreases |s| - i
  {
    if i == |s| then [] else ItalicStep(s, i).0 + ItalicFrom(s, ItalicStep(s, i).1)
  }

  /** One step of the inline-code pass at `i`: a backquote, text of one or
      more characters without a backquote, and a backquote are written as
      `fg(222) + text + ESC[39m`; otherwise the character at `i` is kept. */
  function CodeStep(s: string, i: nat): (r: (string, nat))
    requires i < |s|
    ensures i < r.1 <= |s|
  {
    if s[i] == '`' then
      var k := IndexOf(s[i + 1..], '`');
      if k >= 1 then (CODE_SPAN + s[i + 1..i + 1 + k] + DEFAULT_FG, i + k + 2)
      else ([s[i]], i + 1)
    else ([s[i]], i + 1)
  }

  /** `s.replace(/`([^`]+)`/g, fg(222) + '$1' + ESC + '39m')`, scanning from `i`. */
  function CodeFrom(s: string, i: nat): string
    requires i <= |s|
    decreases |s| - i
  {
    if i == |s| then [] else CodeStep(s, i).0 + CodeFrom(s, CodeStep(s, i).1)
  }

  /** The width of the rule a `---` or `***` line becomes. */
  const RULE_WIDTH: nat := 40

  /** `formatLine(line)`: headings, then horizontal rules, then list bullets
      followed by the bold, italic and inline-code passes. */
  function FormatLine(line: string): string {
    if StartsWith(line, "### ") then BOLD + HEADING + line[4..] + RESET
    else if StartsWith(line, "## ") then BOLD + HEADING + line[3..] + RESET
    else if StartsWith(line, "# ") then BOLD + HEADING + line[2..] + RESET
    else if IsRule(Trim(line)) then DIM + Repeat('─', RULE_WIDTH) + RESET
    else CodeFrom(ItalicFrom(BoldFrom(Bullet(line), 0), 0), 0)
  }

  /** Without stars, neither the bold nor the italic pass changes anything. */
  lemma {:induction false} StarFreeUnchanged(s: string, i: nat)
    requires i <= |s| && '*' !in s
    ensures BoldFrom(s, i) == s[i..] && ItalicFrom(s, i) == s[i..]
    decreases |s| - i
  {
    if i < |s| {
      StarFreeUnchanged(s, i + 1);
      assert s[i..] == [s[i]] + s[i + 1..];
    }
  }

  /** Without backquotes the inline-code pass changes nothing. */
  lemma {:induction false} TickFreeUnchanged(s: string, i: nat)
    requires i <= |s| && '`' !in s
    ensures CodeFrom(s, i) == s[i..]
    decreases |s| - i
  {
    if i < |s| {
      TickFreeUnchanged(s, i + 1);
      assert s[i..] == [s[i]] + s[i + 1..];
    }
  }

  /** No line terminator in `s[j..k]`. */
  predicate NoTerminator(s: string, j: nat, k: nat)
    requires j <= k <= |s|
  {
    forall m :: j <= m < k ==> !IsLineTerminator(s[m])
  }

  /** Between `j` and `k` neither a line terminator nor the start of a `**`. */
  predicate PlainBetween(s: string, j: nat, k: nat)
    requires j <= k < |s|
  {
    NoTerminator(s, j, k) && forall m :: j <= m < k ==> !(s[m] == '*' && s[m + 1] == '*')
  }

  /** Every `**` at or after `j` has a line terminator before it. */
  predicate NoReachableClose(s: string, j: nat)
    requires j <= |s|
  {
    forall k :: j <= k && k + 2 <= |s| && s[k] == '*' && s[k + 1] == '*' ==> !NoTerminator(s, j, k)
  }

  /** The close `BoldClose` finds is the nearest `**` reachable without a
      line terminator, and it finds none exactly when no `**` is reachable. */
  lemma {:induction false} BoldCloseNearest(s: string, j: nat)
    requires j <= |s|
    ensures BoldClose(s, j).Some? ==> PlainBetween(s, j, BoldClose(s, j).value)
    ensures BoldClose(s, j).None? ==> NoReachableClose(s, j)
    decreases |s| - j
  {
    if j + 2 > |s| {
    } else if s[j] == '*' && s[j + 1] == '*' {
    } else if IsLineTerminator(s[j]) {
    } else {
      BoldCloseNearest(s, j + 1);
      var r := BoldClose(s, j + 1);
      if r.Some? {
        assert PlainBetween(s, j + 1, r.value);
      } else {
        forall k | j <= k && k + 2 <= |s| && s[k] == '*' && s[k + 1] == '*'
          ensures !NoTerminator(s, j, k)
        {
          assert j + 1 <= k;
          assert !NoTerminator(s, j + 1, k);
        }
      }
    }
  }

  /** Conversely, a `**` reachable from `j` with nothing in between is the
      close `BoldClose` finds. */
  lemma {:induction false} BoldCloseAt(s: string, j: nat, k: nat)
    requires j <= k && k + 2 <= |s| && s[k] == '*' && s[k + 1] == '*'
    requires PlainBetween(s, j, k)
    ensures BoldClose(s, j) == Some(k)
    decreases k - j
  {
    if j < k {
      assert !IsLineTerminator(s[j]);
      BoldCloseAt(s, j + 1, k);
    }
  }

  /** A `**` at `i` whose content starts without a line terminator and
      reaches the nearest close at `k` is one match: its content is written
      in bold and scanning resumes after the close. */
  lemma BoldStepAt(s: string, i: nat, k: nat, t: string)
    requires i + 3 <= k && k + 2 <= |s| && s[i + 2..k] == t
    requires s[i] == '*' && s[i + 1] == '*' && !IsLineTerminator(s[i + 2])
    requires s[k] == '*' && s[k + 1] == '*' && PlainBetween(s, i + 3, k)
    ensures BoldStep(s, i) == (BOLD + t + NORMAL_INTENSITY, k + 2)
  {
    BoldCloseAt(s, i + 3, k);
  }

  /** A star at `i` with no star before it, whose nearest next star
      `i + 1 + k` leaves text between them and is not followed by another,
      is one match: the text is written dimmed. */
  lemma ItalicStepAt(s: string, i: nat, k: nat, t: string)
    requires i + 1 + k < |s| && k >= 1 && s[i + 1..i + 1 + k] == t
    requires s[i] == '*' && (i == 0 || s[i - 1] != '*')
    requires s[i + 1 + k] == '*' && '*' !in t
    requires i + k + 2 == |s| || s[i + k + 2] != '*'
    ensures ItalicStep(s, i) == (DIM + t + NORMAL_INTENSITY, i + k + 2)
  {
    assert s[i + 1..][..k] == t;
    IndexOfAt(s[i + 1..], '*', k);
  }

  /** A backquote at `i` whose nearest next backquote `i + 1 + k` leaves
      text between them is one match: the text is written in the inline-code
      colour. */
  lemma CodeStepAt(s: string, i: nat, k: nat, t: string)
    requires i + 1 + k < |s| && k >= 1 && s[i + 1..i + 1 + k] == t
    requires s[i] == '`' && s[i + 1 + k] == '`' && '`' !in t
    ensures CodeStep(s, i) == (CODE_SPAN + t + DEFAULT_FG, i + k + 2)
  {
    assert s[i + 1..][..k] == t;
    IndexOfAt(s[i + 1..], '`', k);
  }

  /** Where the pieces of a `[d] + t + [d]` slice lie. */
  lemma Delimited(s: string, i: nat, d: char, t: string)
    requires i + |t| + 2 <= |s| && s[i..i + |t| + 2] == [d] + t + [d]
    ensures s[i] == d && s[i + 1 + |t|] == d && s[i + 1..i + 1 + |t|] == t
  {
    var u := s[i..i + |t| + 2];
    assert s[i] == u[0] && s[i + 1 + |t|] == u[1 + |t|];
    forall m | 0 <= m < |t|
      ensures s[i + 1..i + 1 + |t|][m] == t[m]
    {
      assert s[i + 1 + m] == u[1 + m];
    }
  }

  /** Where the pieces of a `"**" + t + "**"` slice lie. */
  lemma DoubleDelimited(s: string, i: nat, t: string)
    requires i + |t| + 4 <= |s| && s[i..i + |t| + 4] == "**" + t + "**"
    ensures var k := i + 2 + |t|;
            s[i] == '*' && s[i + 1] == '*' && s[k] == '*' && s[k + 1] == '*' && s[i + 2..k] == t
  {
    var u, k := s[i..i + |t| + 4], i + 2 + |t|;
    assert s[i] == u[0] && s[i + 1] == u[1] && s[k] == u[2 + |t|] && s[k + 1] == u[3 + |t|];
    forall m | 0 <= m < |t|
      ensures s[i + 2..k][m] == t[m]
    {
      assert s[i + 2 + m] == u[2 + m];
    }
  }

  lemma BoldSpanStep(s: string, i: nat, t: string)
    requires i + |t| + 4 <= |s| && s[i..i + |t| + 4] == "**" + t + "**"
    requires t != [] && '*' !in t
    requires forall m :: 0 <= m < |t| ==> !IsLineTerminator(t[m])
    ensures BoldStep(s, i) == (BOLD + t + NORMAL_INTENSITY, i + |t| + 4)
  {
    var k := i + 2 + |t|;
    DoubleDelimited(s, i, t);
    forall m | i + 2 <= m < k
      ensures s[m] == t[m - i - 2]
    {
      assert s[m] == s[i + 2..k][m - i - 2];
    }
    BoldStepAt(s, i, k, t);
  }

  /** `**t**` at `i`, with `t` non-empty and free of stars and line
      terminators, becomes `t` in bold, and the pass carries on after the
      closing stars. */
  lemma BoldSpan(s: string, i: nat, t: string)
    requires i + |t| + 4 <= |s| && s[i..i + |t| + 4] == "**" + t + "**"
    requires t != [] && '*' !in t
    requires forall m :: 0 <= m < |t| ==> !IsLineTerminator(t[m])
    ensures BoldFrom(s, i) == BOLD + t + NORMAL_INTENSITY + BoldFrom(s, i + |t| + 4)
  {
    BoldSpanStep(s, i, t);
    BoldFromStep(s, i, BOLD + t + NORMAL_INTENSITY, i + |t| + 4);
  }

  /** The bold pass is its first step followed by the pass from where that
      step resumes. */
  lemma BoldFromStep(s: string, i: nat, w: string, n: nat)
    requires i < |s| && BoldStep(s, i) == (w, n)
    ensures BoldFrom(s, i) == w + BoldFrom(s, n)
  {
  }

  lemma ItalicSpanStep(s: string, i: nat, t: string)
    requires i + |t| + 2 <= |s| && s[i..i + |t| + 2] == "*" + t + "*"
    requires t != [] && '*' !in t
    requires i == 0 || s[i - 1] != '*'
    requires i + |t| + 2 == |s| || s[i + |t| + 2] != '*'
    ensures ItalicStep(s, i) == (DIM + t + NORMAL_INTENSITY, i + |t| + 2)
  {
    Delimited(s, i, '*', t);
    ItalicStepAt(s, i, |t|, t);
  }

  /** `*t*` at `i`, with `t` non-empty and star-free, no star just before it
      and none just after, becomes `t` dimmed, and the pass carries on after
      the closing star. */
  lemma ItalicSpan(s: string, i: nat, t: string)
    requires i + |t| + 2 <= |s| && s[i..i + |t| + 2] == "*" + t + "*"
    requires t != [] && '*' !in t
    requires i == 0 || s[i - 1] != '*'
    requires i + |t| + 2 == |s| || s[i + |t| + 2] != '*'
    ensures ItalicFrom(s, i) == DIM + t + NORMAL_INTENSITY + ItalicFrom(s, i + |t| + 2)
  {
    ItalicSpanStep(s, i, t);
    ItalicFromStep(s, i, DIM + t + NORMAL_INTENSITY, i + |t| + 2);
  }

  /** The italic pass is its first step followed by the pass from where
      that step resumes. */
  lemma ItalicFromStep(s: string, i: nat, w: string, n: nat)
    requires i < |s| && ItalicStep(s, i) == (w, n)
    ensures ItalicFrom(s, i) == w + ItalicFrom(s, n)
  {
  }

  lemma CodeSpanStep(s: string, i: nat, t: string)
    requires i + |t| + 2 <= |s| && s[i..i + |t| + 2] == "`" + t + "`"
    requires t != [] && '`' !in t
    ensures CodeStep(s, i) == (CODE_SPAN + t + DEFAULT_FG, i + |t| + 2)
  {
    Delimited(s, i, '`', t);
    CodeStepAt(s, i, |t|, t);
  }

  /** `` `t` `` at `i`, with `t` non-empty and free of backquotes, becomes
      `t` in the inline-code colour, and the pass carries on after the
      closing backquote. */
  lemma CodeSpan(s: string, i: nat, t: string)
    requires i + |t| + 2 <= |s| && s[i..i + |t| + 2] == "`" + t + "`"
    requires t != [] && '`' !in t
    ensures CodeFrom(s, i) == CODE_SPAN + t + DEFAULT_FG + CodeFrom(s, i + |t| + 2)
  {
    CodeSpanStep(s, i, t);
    CodeFromStep(s, i, CODE_SPAN + t + DEFAULT_FG, i + |t| + 2);
  }

  /** The inline-code pass is its first step followed by the pass from
      where that step resumes. */
  lemma CodeFromStep(s: string, i: nat, w: string, n: nat)
    requires i < |s| && CodeStep(s, i) == (w, n)
    ensures CodeFrom(s, i) == w + CodeFrom(s, n)
  {
  }

  /** Headings: `#`, `##` or `###` and a space are dropped and the rest,
      escapes and all, is wrapped in bold heading colour, so the visible text
      is the visible heading text. */
  lemma FormatHeading(level: nat, body: string)
    requires 1 <= level <= 3
    ensures var line := Repeat('#', level) + " " + body;
            FormatLine(line) == BOLD + HEADING + body + RESET &&
            StripAnsi(FormatLine(line)) == StripAnsi(body)
  {
    var line := Repeat('#', level) + " " + body;
    assert FormatLine(line) == BOLD + HEADING + body + RESET by {
      HeadingMarker(level, body);
    }
    assert StripAnsi(BOLD + HEADING + body + RESET) == StripAnsi(body) by {
      HeadingVisible(body);
    }
  }

  lemma HeadingVisible(body: string)
    ensures StripAnsi(BOLD + HEADING + body + RESET) == StripAnsi(body)
  {
    ConstantsAreSgr();
    HeadingIsSgr();
    StripWrapped(BOLD, HEADING + body, RESET);
    StripSgrPrefix(HEADING, body);
    HeadingShape(body);
  }

  lemma HeadingShape(body: string)
    ensures BOLD + HEADING + body + RESET == BOLD + (HEADING + body) + RESET
  {
  }

  /** Which of the three heading prefixes a heading line starts with. */
  lemma HeadingMarker(level: nat, body: string)
    requires 1 <= level <= 3
    ensures var line := Repeat('#', level) + " " + body;
            line[level + 1..] == body &&
            (StartsWith(line, "### ") <==> level == 3) &&
            (StartsWith(line, "## ") <==> level == 2) &&
            (StartsWith(line, "# ") <==> level == 1)
  {
    var line := Repeat('#', level) + " " + body;
    assert line[level] == ' ' && line[level + 1..] == body;
    assert forall i :: 0 <= i < level ==> line[i] == '#';
    assert "### "[2] == '#' && "## "[1] == '#';
    if level == 3 {
      assert line[..4] == "### ";
      assert !StartsWith(line, "## ") by { assert line[..3][2] == line[2]; }
      assert !StartsWith(line, "# ") by { assert line[..2][1] == line[1]; }
    } else if level == 2 {
      assert line[..3] == "## ";
      assert !StartsWith(line, "### ") by {
        if |line| >= 4 { assert line[..4][2] == line[2]; }
      }
      assert !StartsWith(line, "# ") by { assert line[..2][1] == line[1]; }
    } else {
      assert line[..2] == "# ";
      assert !StartsWith(line, "### ") by {
        if |line| >= 4 { assert line[..4][1] == line[1]; }
      }
      assert !StartsWith(line, "## ") by {
        if |line| >= 3 { assert line[..3][1] == line[1]; }
      }
    }
  }

  /** A line that is not a heading and trims to 3+ dashes or 3+ stars becomes
      exactly 40 dim horizontal bars. */
  lemma FormatRule(line: string)
    requires !StartsWith(line, "### ") && !StartsWith(line, "## ") && !StartsWith(line, "# ")
    requires IsRule(Trim(line))
    ensures FormatLine(line) == DIM + Repeat('─', RULE_WIDTH) + RESET
    ensures StripAnsi(FormatLine(line)) == Repeat('─', RULE_WIDTH)
  {
    var bars := Repeat('─', RULE_WIDTH);
    assert FormatLine(line) == DIM + bars + RESET;
    DimBarsVisible(bars);
  }

  lemma DimBarsVisible(bars: string)
    requires forall i :: 0 <= i < |bars| ==> bars[i] == '─'
    ensures StripAnsi(DIM + bars + RESET) == bars
  {
    ConstantsAreSgr();
    StripWrapped(DIM, bars, RESET);
    StripPlain(bars);
  }

  /** The bullet substitution keeps the indentation and swaps the marker. */
  lemma BulletOf(indent: string, marker: char, rest: string)
    requires forall i :: 0 <= i < |indent| ==> IsSpace(indent[i])
    requires marker == '-' || marker == '*'
    ensures Bullet(indent + [marker] + " " + rest) == indent + "• " + rest
  {
    var line := indent + [marker] + " " + rest;
    assert line == indent + ([marker] + " " + rest);
    IndentOf(indent, [marker] + " " + rest);
    assert line[|indent|] == marker && line[|indent| + 1] == ' ';
    assert line[..|indent|] == indent && line[|indent| + 2..] == rest;
  }

  /** A list item is not a heading. */
  lemma ListItemNotHeading(indent: string, marker: char, rest: string)
    requires forall i :: 0 <= i < |indent| ==> IsSpace(indent[i])
    requires marker == '-' || marker == '*'
    ensures var line := indent + [marker] + " " + rest;
            !StartsWith(line, "### ") && !StartsWith(line, "## ") && !StartsWith(line, "# ")
  {
    var line := indent + [marker] + " " + rest;
    assert line[0] != '#' by {
      if |indent| > 0 { assert line[0] == indent[0]; } else { assert line[0] == marker; }
    }
    assert "### "[0] == '#' && "## "[0] == '#' && "# "[0] == '#';
  }

  /** A list item does not trim to a horizontal rule: its second visible
      character is a space. */
  lemma ListItemNotRule(indent: string, marker: char, rest: string)
    requires forall i :: 0 <= i < |indent| ==> IsSpace(indent[i])
    requires marker == '-' || marker == '*'
    ensures !IsRule(Trim(indent + [marker] + " " + rest))
  {
    var line := indent + [marker] + " " + rest;
    assert Indent(line) == |indent| by {
      assert line == indent + ([marker] + " " + rest);
      IndentOf(indent, [marker] + " " + rest);
    }
    assert line[|indent| + 1] == ' ';
    SpaceSecondNotRule(line);
  }

  /** A line whose second non-blank character is a space is not a rule. */
  lemma SpaceSecondNotRule(line: string)
    requires Indent(line) + 1 < |line| && line[Indent(line) + 1] == ' '
    ensures !IsRule(Trim(line))
  {
    var t := Trim(line);
    if |t| >= 3 {
      TrimSlice(line);
      var a := |line| - |TrimStart(line)|;
      assert a == Indent(line);
      assert t[1] == line[a + 1];
    }
  }

  /** A list item `indent + "- " + rest` (or `"* "`) whose rest holds no star
      and no backquote prints as `indent + "• " + rest`: the indentation is
      kept and only the marker changes. */
  lemma FormatBullet(indent: string, marker: char, rest: string)
    requires forall i :: 0 <= i < |indent| ==> IsSpace(indent[i])
    requires marker == '-' || marker == '*'
    requires '*' !in rest && '`' !in rest
    ensures FormatLine(indent + [marker] + " " + rest) == indent + "• " + rest
  {
    ListItemNotHeading(indent, marker, rest);
    ListItemNotRule(indent, marker, rest);
    BulletOf(indent, marker, rest);
    var b := indent + "• " + rest;
    BulletTextPlain(indent, rest);
    StarFreeUnchanged(b, 0);
    TickFreeUnchanged(b, 0);
  }

  lemma BulletTextPlain(indent: string, rest: string)
    requires forall i :: 0 <= i < |indent| ==> IsSpace(indent[i])
    requires '*' !in rest && '`' !in rest
    ensures '*' !in indent + "• " + rest && '`' !in indent + "• " + rest
  {
    assert '*' !in indent && '`' !in indent;
  }

  lemma IndentOf(indent: string, s: string)
    requires forall i :: 0 <= i < |indent| ==> IsSpace(indent[i])
    requires s != [] && !IsSpace(s[0])
    ensures Indent(indent + s) == |indent|
  {
    var line := indent + s;
    assert line[|indent|] == s[0];
    assert forall i :: 0 <= i < |indent| ==> line[i] == indent[i];
    assert forall i :: 0 <= i < |indent| ==> IsSpace(line[i]);
    assert !IsSpace(line[|indent|]);
    IndentSpec(line);
  }


  // ── Tool results ─────────────────────────────────────────────────────────

  /** A field of the object `JSON.parse` returns for an `exec_command`
      result: absent, `null`, a string, an integer, or any other value
      (carried as its template-literal text). */
  datatype JsonField = Absent | Null | Str(s: string) | Num(n: int) | Other(text: string)

  /** What `JSON.parse(event.result)` gives: a throw, `null` (on which field
      access throws), or a value whose three recognised fields are read (a
      non-object value has all three absent). */
  datatype ExecPayload = NotJson | JsonNull | JsonValue(exitCode: JsonField, stdout: JsonField, stderr: JsonField)

  const MAX_LINES: nat := 10
  const MAX_BOX_LINES: nat := 15
  const MAX_RESULT_CHARS: nat := 500

  /** `(field ?? '').trim()`, or `None` when `trim` is not a method of the value. */
  function StreamText(f: JsonField): Option<string> {
    match f
    case Absent => Some("")
    case Null => Some("")
    case Str(s) => Some(Trim(s))
    case _ => None
  }

  /** `exitCode !== 0` for `exitCode = parsed.exitCode ?? 0`. */
  predicate ExitFails(f: JsonField) {
    !(f.Absent? || f.Null? || f == Num(0))
  }

  /** `${exitCode}` */
  function ExitText(f: JsonField): string {
    match f
    case Absent => "0"
    case Null => "0"
    case Str(s) => s
    case Num(n) => IntToString(n)
    case Other(t) => t
  }

  function ExitMarker(f: JsonField): string {
    "  " + ERROR + BOLD + "✗ exit " + ExitText(f) + RESET + "\n"
  }

  function MoreLinesNotice(extra: nat): string {
    "  " + MUTED + "… " + NatToString(extra) + " more lines" + RESET + "\n"
  }

  /** Each line indented, coloured and followed by `end`: a newline for the
      `exec_command` writes, nothing for the lines of the generic box. */
  function ColouredLines(lines: seq<string>, color: string, end: string): (w: seq<string>)
    ensures |w| == |lines| && forall i :: 0 <= i < |lines| ==> w[i] == "  " + color + lines[i] + RESET + end
  {
    seq(|lines|, i requires 0 <= i < |lines| => "  " + color + lines[i] + RESET + end)
  }

  /** The first ten lines, coloured, and a notice of how many were left out. */
  function CappedLines(lines: seq<string>, color: string): seq<string> {
    ColouredLines(lines[..if |lines| < MAX_LINES then |lines| else MAX_LINES], color, "\n") +
    (if |lines| > MAX_LINES then [MoreLinesNotice(|lines| - MAX_LINES)] else [])
  }

  /** The writes for a trimmed stdout or stderr text. */
  function StreamWrites(text: string, color: string): seq<string> {
    if text == [] then [] else CappedLines(Split(text, '\n'), color)
  }

  /** The specialised `exec_command` rendering, or `None` when it throws and
      the generic rendering takes over. */
  function ExecWrites(p: ExecPayload): Option<seq<string>> {
    match p
    case NotJson => None
    case JsonNull => None
    case JsonValue(code, out, err) =>
      var o := StreamText(out);
      var e := StreamText(err);
      if o.None? || e.None? then None
      else Some(StreamWrites(o.value, DIM_FG) + StreamWrites(e.value, ERROR) +
                (if ExitFails(code) then [ExitMarker(code)] else []))
  }

  /** Each stream shows at most 10 lines, the first 10 of its text in order,
      plus one `… N more lines` notice with N = count - 10 when there are
      more; an empty text shows nothing. */
  lemma CappedLinesShape(lines: seq<string>, color: string)
    ensures var w := CappedLines(lines, color);
            |w| == (if |lines| <= MAX_LINES then |lines| else MAX_LINES + 1) &&
            (forall i :: 0 <= i < |w| && i < MAX_LINES && i < |lines| ==>
               w[i] == "  " + color + lines[i] + RESET + "\n") &&
            (|lines| > MAX_LINES ==> w[MAX_LINES] == MoreLinesNotice(|lines| - MAX_LINES))
  {
    var m := if |lines| < MAX_LINES then |lines| else MAX_LINES;
    var shown := ColouredLines(lines[..m], color, "\n");
    forall i | 0 <= i < m ensures shown[i] == "  " + color + lines[i] + RESET + "\n" {
      assert lines[..m][i] == lines[i];
    }
  }

  /** The failure marker is written, once and last, exactly when the exit code
      is present and not 0; stdout comes before stderr. */
  lemma ExecExitMarker(code: JsonField, out: JsonField, err: JsonField)
    requires StreamText(out).Some? && StreamText(err).Some?
    ensures ExecWrites(JsonValue(code, out, err)).Some?
    ensures MarkerLast(ExecWrites(JsonValue(code, out, err)).value,
                       StreamWrites(StreamText(out).value, DIM_FG), StreamWrites(StreamText(err).value, ERROR), code)
  {
    var so := StreamWrites(StreamText(out).value, DIM_FG);
    var se := StreamWrites(StreamText(err).value, ERROR);
    assert ExecWrites(JsonValue(code, out, err)) == Some(so + se + if ExitFails(code) then [ExitMarker(code)] else []);
    MarkerLastOf(so, se, code);
  }

  /** The writes are the stdout writes, then the stderr writes, then the
      failure marker exactly when the exit code fails. */
  predicate MarkerLast(w: seq<string>, so: seq<string>, se: seq<string>, code: JsonField) {
    |w| == |so| + |se| + (if ExitFails(code) then 1 else 0) &&
    w[..|so| + |se|] == so + se &&
    (ExitFails(code) ==> w[|w| - 1] == ExitMarker(code))
  }

  lemma MarkerLastOf(so: seq<string>, se: seq<string>, code: JsonField)
    ensures MarkerLast(so + se + if ExitFails(code) then [ExitMarker(code)] else [], so, se, code)
  {
    var w := so + se + if ExitFails(code) then [ExitMarker(code)] else [];
    assert w[..|so| + |se|] == so + se;
  }

  /** The cut applied before the markdown rendering. */
  function Truncate(result: string): (t: string)
    ensures |result| <= MAX_RESULT_CHARS ==> t == result
    ensures |result| > MAX_RESULT_CHARS ==> |t| > MAX_RESULT_CHARS && t[..MAX_RESULT_CHARS] == result[..MAX_RESULT_CHARS] && t[MAX_RESULT_CHARS..] == "\n… (truncated)"
  {
    if |result| > MAX_RESULT_CHARS then result[..MAX_RESULT_CHARS] + "\n… (truncated)" else result
  }

  function BoxMoreNotice(extra: nat): string {
    "  " + MUTED + "… (" + NatToString(extra) + " more lines)" + RESET
  }

  /** The first fifteen of the coloured lines and a notice of how many were
      left out. */
  function CappedBoxLines(lines: seq<string>): (b: seq<string>)
    ensures |b| == (if |lines| <= MAX_BOX_LINES then |lines| else MAX_BOX_LINES + 1)
    ensures forall i :: 0 <= i < |b| && i < MAX_BOX_LINES && i < |lines| ==> b[i] == lines[i]
    ensures |lines| > MAX_BOX_LINES ==> b[MAX_BOX_LINES] == BoxMoreNotice(|lines| - MAX_BOX_LINES)
  {
    lines[..if |lines| < MAX_BOX_LINES then |lines| else MAX_BOX_LINES] +
    (if |lines| > MAX_BOX_LINES then [BoxMoreNotice(|lines| - MAX_BOX_LINES)] else [])
  }

  /** The lines the generic rendering puts in the box. */
  function GenericBoxLines(result: string, isError: bool, parseMarkdown: string -> Option<string>): seq<string> {
    var color := if isError then ERROR else DIM_FG;
    CappedBoxLines(ColouredLines(Split(Markdown.RenderMarkdown(Truncate(result), parseMarkdown), '\n'), color, ""))
  }

  /** The generic rendering: one write, the box with its border in the error
      colour iff `isError`. */
  function GenericWrite(result: string, isError: bool, cols: nat, parseMarkdown: string -> Option<string>): string
    requires cols >= 2
  {
    DrawBox(GenericBoxLines(result, isError, parseMarkdown), if isError then ERROR else DIM_FG, cols) + "\n"
  }

  /** `onToolResult`: the `exec_command` rendering when the payload allows it,
      otherwise the generic box. */
  function ToolResultWrites(name: string, result: string, isError: bool, cols: nat,
                            parseJson: string -> ExecPayload, parseMarkdown: string -> Option<string>): seq<string>
    requires cols >= 2
  {
    if name == "exec_command" && ExecWrites(parseJson(result)).Some? then ExecWrites(parseJson(result)).value
    else [GenericWrite(result, isError, cols, parseMarkdown)]
  }

  /** `onToolCall`: the tool name and either the shell command or the
      argument object as JSON text. */
  function ToolCallWrite(name: string, command: Option<string>, argsJson: string): string {
    var shown := if name == "exec_command" then MUTED + "$ " + TEXT + command.GetOr("") + RESET
                 else DIM_FG + argsJson + RESET;
    "\n  " + ACCENT + "●" + RESET + " " + DIM_FG + name + RESET + "  " + shown + "\n"
  }
}
