/** ANSI SGR escape sequences (`ESC [ params m`) as the terminal renderer
    emits them, and the stripping of such sequences that `drawBox` uses to
    measure the visible width of a line. */
module Ansi {
  import opened JsText

  const ESC: string := "\U{1B}["
  const RESET: string := ESC + "0" + "m"
  const BOLD: string := ESC + "1" + "m"
  const DIM: string := ESC + "2" + "m"
  /** The ends of bold/dim and of a foreground colour. */
  const NORMAL_INTENSITY: string := ESC + "22" + "m"
  const DEFAULT_FG: string := ESC + "39" + "m"

  /** A 256-colour foreground: `ESC[38;5;<code>m`. */
  function Fg(code: nat): string {
    ESC + ("38;5;" + NatToString(code)) + "m"
  }

  /** Every foreground colour is one SGR sequence. */
  lemma FgIsSgr(code: nat)
    ensures IsSgr(Fg(code))
  {
    SgrOf("38;5;" + NatToString(code));
  }

  // The palette of the terminal renderer: each entry is `Fg` of its code
  // (98, 252, 244, 240, 117, 42, 214, 196, 244), written out.
  const ACCENT: string := ESC + "38;5;98" + "m"
  const TEXT: string := ESC + "38;5;252" + "m"
  const DIM_FG: string := ESC + "38;5;244" + "m"
  const MUTED: string := ESC + "38;5;240" + "m"
  const USER: string := ESC + "38;5;117" + "m"
  const SUCCESS: string := ESC + "38;5;42" + "m"
  const WARNING: string := ESC + "38;5;214" + "m"
  const ERROR: string := ESC + "38;5;196" + "m"
  const THINKING: string := ESC + "38;5;244" + "m"
  /** The heading and inline-code colours of `formatLine`: `Fg(117)` and
      `Fg(222)`. */
  const HEADING: string := ESC + "38;5;117" + "m"
  const CODE_SPAN: string := ESC + "38;5;222" + "m"

  predicate IsParam(c: char) {
    '0' <= c <= '9' || c == ';'
  }

  /** The number of leading parameter characters (`[0-9;]*`). */
  function ParamRun(s: string): (n: nat)
    ensures n <= |s| && forall i :: 0 <= i < n ==> IsParam(s[i])
    ensures n < |s| ==> !IsParam(s[n])
  {
    if s != [] && IsParam(s[0]) then 1 + ParamRun(s[1..]) else 0
  }

  lemma {:induction false} ParamRunAll(p: string, rest: string)
    requires forall i :: 0 <= i < |p| ==> IsParam(p[i])
    requires rest == [] || !IsParam(rest[0])
    ensures ParamRun(p + rest) == |p|
  {
    if p != [] {
      assert (p + rest)[1..] == p[1..] + rest;
      ParamRunAll(p[1..], rest);
    } else {
      assert p + rest == rest;
    }
  }

  /** The length of the SGR sequence `\x1b\[[0-9;]*m` at the start of `s`, or 0. */
  function SgrLength(s: string): (n: nat)
    ensures n == 0 || 3 <= n <= |s|
  {
    if |s| >= 2 && s[0] == '\U{1B}' && s[1] == '[' then
      var k := ParamRun(s[2..]);
      if 2 + k < |s| && s[2 + k] == 'm' then 3 + k else 0
    else 0
  }

  /** `s` is exactly one SGR sequence. */
  predicate IsSgr(s: string) {
    |s| >= 3 && SgrLength(s) == |s|
  }

  /** `s.replace(/\x1b\[[0-9;]*m/g, '')`: the visible text of `s`. */
  function StripAnsi(s: string): (r: string)
    ensures |r| <= |s|
    decreases |s|
  {
    if s == [] then []
    else
      var n := SgrLength(s);
      if n > 0 then StripAnsi(s[n..]) else [s[0]] + StripAnsi(s[1..])
  }

  /** The characters that could continue a partial escape sequence. */
  predicate Continues(c: char) {
    c == '[' || c == 'm' || IsParam(c)
  }

  /** A string without the escape character is its own visible text. */
  lemma {:induction false} StripPlain(s: string)
    requires '\U{1B}' !in s
    ensures StripAnsi(s) == s
  {
    if s != [] {
      assert s == [s[0]] + s[1..];
      StripPlain(s[1..]);
    }
  }

  /** An SGR sequence at the front is invisible. */
  lemma StripSgrPrefix(p: string, s: string)
    requires IsSgr(p)
    ensures StripAnsi(p + s) == StripAnsi(s)
  {
    var k := ParamRun(p[2..]);
    assert p[2..][k] == 'm';
    assert p[2..] == p[2..2 + k] + p[2 + k..];
    ParamRunAll(p[2..2 + k], p[2 + k..] + s);
    assert (p + s)[2..] == p[2..2 + k] + (p[2 + k..] + s);
    assert SgrLength(p + s) == |p|;
    assert (p + s)[|p|..] == s;
  }

  /** `ESC [ params m` is one SGR sequence. */
  lemma SgrOf(params: string)
    requires forall i :: 0 <= i < |params| ==> IsParam(params[i])
    ensures IsSgr(ESC + params + "m")
  {
    var r := ESC + params + "m";
    assert r[2..] == params + "m";
    ParamRunAll(params, "m");
  }

  /** The heading colour is one SGR sequence. */
  lemma HeadingIsSgr()
    ensures IsSgr(HEADING)
  {
    SgrOf("38;5;117");
  }

  /** The fixed sequences are SGR sequences. */
  lemma ConstantsAreSgr()
    ensures IsSgr(RESET) && IsSgr(BOLD) && IsSgr(DIM) && IsSgr(NORMAL_INTENSITY) && IsSgr(DEFAULT_FG)
  {
    SgrOf("0");
    SgrOf("1");
    SgrOf("2");
    SgrOf("22");
    SgrOf("39");
  }

  /** A text wrapped in two SGR sequences shows only the text. */
  lemma StripWrapped(p: string, body: string, q: string)
    requires IsSgr(p) && IsSgr(q)
    ensures StripAnsi(p + body + q) == StripAnsi(body)
  {
    assert p + body + q == p + (body + q);
    StripSgrPrefix(p, body + q);
    StripAppend(body, q);
    StripSgrPrefix(q, []);
    assert q + [] == q;
  }

  lemma {:induction false} ParamRunAppend(x: string, y: string)
    ensures ParamRun(x + y) == if ParamRun(x) < |x| then ParamRun(x) else |x| + ParamRun(y)
  {
    if x == [] {
      assert x + y == y;
    } else if IsParam(x[0]) {
      assert (x + y)[1..] == x[1..] + y;
      ParamRunAppend(x[1..], y);
    }
  }

  /** Appending text that cannot continue an escape sequence does not change
      the sequence found at the front of a non-empty string. */
  lemma SgrLengthAppend(a: string, b: string)
    requires a != []
    requires b == [] || !Continues(b[0])
    ensures SgrLength(a + b) == SgrLength(a)
  {
    if |a| >= 2 && a[0] == '\U{1B}' && a[1] == '[' {
      ParamRunAppend(a[2..], b);
      assert (a + b)[2..] == a[2..] + b;
      if b != [] {
        assert ParamRun(b) == 0;
      }
    } else if |a| == 1 && a[0] == '\U{1B}' && b != [] {
      assert (a + b)[1] == b[0];
    }
  }

  /** Stripping distributes over a concatenation whose second part starts
      with a character that cannot continue an escape sequence. */
  lemma {:induction false} StripAppend(a: string, b: string)
    requires b == [] || !Continues(b[0])
    ensures StripAnsi(a + b) == StripAnsi(a) + StripAnsi(b)
    decreases |a|
  {
    if a == [] {
      assert a + b == b;
    } else {
      SgrLengthAppend(a, b);
      var n := SgrLength(a);
      if n > 0 {
        assert (a + b)[n..] == a[n..] + b;
        StripAppend(a[n..], b);
      } else {
        assert (a + b)[1..] == a[1..] + b;
        StripAppend(a[1..], b);
      }
    }
  }
}
