/** The markdown renderer (src/ui/markdown.ts): the foreign `marked` parse is a
    parameter returning `None` when it throws; what is modelled is the
    post-processing of its output and the fallback to the input text. */
module Markdown {
  import opened Wrappers
  import opened JsText

  /** No three consecutive newlines. */
  predicate NoTripleNewline(s: string) {
    forall i :: 0 <= i < |s| - 2 ==> !(s[i] == '\n' && s[i + 1] == '\n' && s[i + 2] == '\n')
  }

  /** The length of the run of newlines at the front of `s`. */
  function NewlineRun(s: string): (k: nat)
    ensures k <= |s| && forall i :: 0 <= i < k ==> s[i] == '\n'
    ensures k < |s| ==> s[k] != '\n'
  {
    if s != [] && s[0] == '\n' then 1 + NewlineRun(s[1..]) else 0
  }

  /** `s.replace(/\n{3,}/g, '\n\n')`: every maximal run of three or more
      newlines becomes exactly two; shorter runs and all other characters are
      copied. */
  function CollapseNewlines(s: string): string
    decreases |s|
  {
    if s == [] then []
    else if s[0] != '\n' then [s[0]] + CollapseNewlines(s[1..])
    else
      var k := NewlineRun(s);
      (if k >= 3 then "\n\n" else s[..k]) + CollapseNewlines(s[k..])
  }

  /** The result has no run of three newlines, and starts with the first
      character of `s` when that is not a newline. */
  lemma {:induction false} CollapseSpec(s: string)
    ensures NoTripleNewline(CollapseNewlines(s))
    ensures s != [] && s[0] != '\n' ==> CollapseNewlines(s) != [] && CollapseNewlines(s)[0] == s[0]
    decreases |s|
  {
    if s == [] {
    } else if s[0] != '\n' {
      var t := CollapseNewlines(s[1..]);
      CollapseSpec(s[1..]);
      var r := [s[0]] + t;
      forall i | 0 <= i < |r| - 2 ensures !(r[i] == '\n' && r[i + 1] == '\n' && r[i + 2] == '\n') {
        if i > 0 {
          assert r[i] == t[i - 1] && r[i + 1] == t[i] && r[i + 2] == t[i + 1];
        }
      }
    } else {
      var k := NewlineRun(s);
      var head := if k >= 3 then "\n\n" else s[..k];
      var t := CollapseNewlines(s[k..]);
      CollapseSpec(s[k..]);
      var r := head + t;
      assert CollapseNewlines(s) == r;
      forall i | 0 <= i < |r| - 2 ensures !(r[i] == '\n' && r[i + 1] == '\n' && r[i + 2] == '\n') {
        if i >= |head| {
          assert r[i] == t[i - |head|] && r[i + 1] == t[i - |head| + 1] && r[i + 2] == t[i - |head| + 2];
        } else if t != [] {
          assert t[0] == s[k];
        }
      }
    }
  }

  /** Text without a run of three newlines is left alone. */
  lemma {:induction false} CollapseFixed(s: string)
    requires NoTripleNewline(s)
    ensures CollapseNewlines(s) == s
    decreases |s|
  {
    if s == [] {
    } else if s[0] != '\n' {
      forall i | 0 <= i < |s[1..]| - 2
        ensures !(s[1..][i] == '\n' && s[1..][i + 1] == '\n' && s[1..][i + 2] == '\n')
      {
        assert s[1..][i] == s[i + 1];
      }
      CollapseFixed(s[1..]);
      assert s == [s[0]] + s[1..];
    } else {
      var k := NewlineRun(s);
      assert |s| >= 3 ==> !(s[0] == '\n' && s[1] == '\n' && s[2] == '\n');
      assert k < 3;
      forall i | 0 <= i < |s[k..]| - 2
        ensures !(s[k..][i] == '\n' && s[k..][i + 1] == '\n' && s[k..][i + 2] == '\n')
      {
        assert s[k..][i] == s[k + i];
      }
      CollapseFixed(s[k..]);
      assert s == s[..k] + s[k..];
    }
  }

  /** What `renderMarkdown` does to the parser's output. */
  function PostProcess(rendered: string): (r: string)
    ensures NoTripleNewline(r)
    ensures r == [] || !IsSpace(r[|r| - 1])
  {
    var c := CollapseNewlines(rendered);
    var r := TrimEnd(c);
    CollapseSpec(rendered);
    TrimEndLast(c);
    assert forall i :: 0 <= i < |r| ==> r[i] == c[i];
    r
  }

  /** Post-processing twice is the same as once. */
  lemma PostProcessIdempotent(rendered: string)
    ensures PostProcess(PostProcess(rendered)) == PostProcess(rendered)
  {
    var p := PostProcess(rendered);
    CollapseFixed(p);
    assert p == [] || !IsSpace(p[|p| - 1]);
    assert TrimEnd(p) == p;
  }

  /** A run of `k` newlines alone collapses to two when `k >= 3` and is kept
      otherwise. */
  lemma CollapseRun(k: nat)
    ensures CollapseNewlines(Repeat('\n', k)) == if k >= 3 then "\n\n" else Repeat('\n', k)
  {
    var s := Repeat('\n', k);
    if k > 0 {
      assert NewlineRun(s) == k by {
        assert forall i :: 0 <= i < k ==> s[i] == '\n';
        NewlineRunAll(s);
      }
      assert s[k..] == [];
    }
  }

  lemma {:induction false} NewlineRunAll(s: string)
    requires forall i :: 0 <= i < |s| ==> s[i] == '\n'
    ensures NewlineRun(s) == |s|
  {
    if s != [] {
      NewlineRunAll(s[1..]);
    }
  }

  /** `renderMarkdown(text)`: the post-processed parse, or `text` itself when
      the parser throws. */
  function RenderMarkdown(text: string, parse: string -> Option<string>): (r: string)
    ensures parse(text).None? ==> r == text
    ensures parse(text).Some? ==> NoTripleNewline(r) && (r == [] || !IsSpace(r[|r| - 1]))
  {
    match parse(text)
    case None => text
    case Some(rendered) => PostProcess(rendered)
  }
}
