/** The sticky working directory (src/state/cwd-tracker.ts): the tracked
    directory, its update through POSIX `path.resolve`, and its display with
    the home directory shortened to `~`. */
module CwdTracker {
  import opened JsText

  predicate IsAbsolute(p: string) {
    |p| >= 1 && p[0] == '/'
  }

  /** A segment that normalisation keeps. */
  predicate GoodSegment(seg: string) {
    seg != "" && seg != "." && seg != ".." && '/' !in seg
  }

  predicate AllGood(segs: seq<string>) {
    forall i :: 0 <= i < |segs| ==> GoodSegment(segs[i])
  }

  /** The segment walk of POSIX path normalisation for an absolute path:
      empty and `.` segments are dropped, `..` removes the last kept segment
      and does nothing at the root. */
  function Walk(stack: seq<string>, segs: seq<string>): (r: seq<string>)
    requires AllGood(stack)
    ensures AllGood(r)
    decreases |segs|
  {
    if segs == [] then stack
    else if segs[0] == "" || segs[0] == "." then Walk(stack, segs[1..])
    else if segs[0] == ".." then Walk(if stack == [] then [] else stack[..|stack| - 1], segs[1..])
    else if '/' in segs[0] then Walk(stack, segs[1..]) // not a piece of a split
    else Walk(stack + [segs[0]], segs[1..])
  }

  /** `path.normalize` of an absolute path. */
  function Normalize(p: string): string {
    "/" + Join(Walk([], Split(p, '/')), "/")
  }

  /** An absolute path without empty, `.` or `..` segments and without a
      trailing `/`, except for the root itself. */
  predicate IsNormalized(p: string) {
    p == "/" || (IsAbsolute(p) && AllGood(Split(p[1..], '/')))
  }

  /** The segments of a normalised path. */
  function Segments(p: string): seq<string>
    requires IsAbsolute(p)
  {
    if p == "/" then [] else Split(p[1..], '/')
  }

  /** `path.resolve(cwd, dir)` for an absolute `cwd`. */
  function Resolve(cwd: string, dir: string): string
    requires IsAbsolute(cwd)
  {
    if IsAbsolute(dir) then Normalize(dir) else Normalize(cwd + "/" + dir)
  }

  /** Normalisation yields a normalised path. */
  lemma NormalizeNormalized(p: string)
    ensures IsNormalized(Normalize(p))
  {
    var st := Walk([], Split(p, '/'));
    if st != [] {
      var r := Normalize(p);
      assert r[1..] == Join(st, ['/']);
      GoodFree(st);
      SplitJoin(st, '/');
      assert Split(r[1..], '/') == st;
    }
  }

  /** Kept segments hold no separator. */
  lemma GoodFree(segs: seq<string>)
    requires AllGood(segs)
    ensures forall x :: x in segs ==> '/' !in x
  {
    forall x | x in segs
      ensures '/' !in x
    {
      var i :| 0 <= i < |segs| && segs[i] == x;
      assert GoodSegment(segs[i]);
    }
  }

  lemma {:induction false} WalkAppend(stack: seq<string>, xs: seq<string>, ys: seq<string>)
    requires AllGood(stack)
    ensures Walk(stack, xs + ys) == Walk(Walk(stack, xs), ys)
    decreases |xs|
  {
    if xs != [] {
      assert (xs + ys)[1..] == xs[1..] + ys;
      var x := xs[0];
      if x == "" || x == "." || '/' in x {
        WalkAppend(stack, xs[1..], ys);
      } else if x == ".." {
        WalkAppend(if stack == [] then [] else stack[..|stack| - 1], xs[1..], ys);
      } else {
        WalkAppend(stack + [x], xs[1..], ys);
      }
    } else {
      assert xs + ys == ys;
    }
  }

  lemma {:induction false} WalkGood(stack: seq<string>, segs: seq<string>)
    requires AllGood(stack) && AllGood(segs)
    ensures Walk(stack, segs) == stack + segs
    decreases |segs|
  {
    if segs != [] {
      WalkGood(stack + [segs[0]], segs[1..]);
      assert stack + [segs[0]] + segs[1..] == stack + segs;
    }
  }

  /** A normalised path walks to its own segments and is their join. */
  lemma WalkNormalized(p: string)
    requires IsNormalized(p)
    ensures IsAbsolute(p)
    ensures Walk([], Split(p, '/')) == Segments(p)
    ensures p == "/" + Join(Segments(p), "/")
  {
    if p == "/" {
      assert p == [] + ['/'] + [];
      SplitAppend([], [], '/');
      assert Split([], '/') == [[]];
    } else {
      assert p == [] + ['/'] + p[1..];
      SplitAppend([], p[1..], '/');
      assert Split([], '/') == [[]];
      WalkGood([], Split(p[1..], '/'));
    }
  }

  /** Normalising a normalised path changes nothing. */
  lemma NormalizeFixed(p: string)
    requires IsNormalized(p)
    ensures Normalize(p) == p
  {
    WalkNormalized(p);
  }

  /** A relative directory is walked from the segments of the current one. */
  lemma ResolveRelative(cwd: string, dir: string)
    requires IsNormalized(cwd) && !IsAbsolute(dir)
    ensures IsAbsolute(cwd)
    ensures Resolve(cwd, dir) == "/" + Join(Walk(Segments(cwd), Split(dir, '/')), "/")
  {
    WalkNormalized(cwd);
    SplitAppend(cwd, dir, '/');
    assert cwd + "/" + dir == cwd + ['/'] + dir;
    WalkAppend([], Split(cwd, '/'), Split(dir, '/'));
  }

  /** `.` stays in place. */
  lemma ResolveDot(cwd: string)
    requires IsNormalized(cwd)
    ensures IsAbsolute(cwd) && Resolve(cwd, ".") == cwd
  {
    ResolveRelative(cwd, ".");
    assert Split(".", '/') == ["."];
    WalkNormalized(cwd);
  }

  /** `..` drops the last segment, and stays at the root. */
  lemma ResolveParent(cwd: string)
    requires IsNormalized(cwd)
    ensures IsAbsolute(cwd)
    ensures var segs := Segments(cwd);
      Resolve(cwd, "..") == "/" + Join(if segs == [] then [] else segs[..|segs| - 1], "/")
    ensures cwd == "/" ==> Resolve(cwd, "..") == "/"
  {
    ResolveRelative(cwd, "..");
    assert Split("..", '/') == [".."];
  }

  /** A plain name is appended as one more segment. */
  lemma ResolveChild(cwd: string, name: string)
    requires IsNormalized(cwd) && GoodSegment(name)
    ensures IsAbsolute(cwd)
    ensures Resolve(cwd, name) == if cwd == "/" then "/" + name else cwd + "/" + name
  {
    ResolveRelative(cwd, name);
    SplitPlain(name);
    var segs := Segments(cwd);
    WalkGood(segs, [name]);
    WalkNormalized(cwd);
    JoinChild(segs, name);
  }

  /** A name without a separator splits into itself. */
  lemma SplitPlain(name: string)
    requires '/' !in name
    ensures Split(name, '/') == [name]
  {
    CountAbsent(name, '/');
  }

  /** Joining one more segment onto a path's segments. */
  lemma JoinChild(segs: seq<string>, name: string)
    ensures "/" + Join(segs + [name], "/") ==
      if segs == [] then "/" + name else "/" + Join(segs, "/") + "/" + name
  {
    if segs != [] {
      JoinConcat(segs, [name], "/");
      Regroup("/", Join(segs, "/"), "/", name);
    } else {
      assert segs + [name] == [name];
    }
  }

  lemma Regroup(a: string, b: string, c: string, d: string)
    ensures a + (b + c + d) == (a + b) + c + d
  {
  }

  /** `getAbbreviatedCwd()` for the home directory `home`. */
  function Abbreviate(cwd: string, home: string): string {
    if cwd == home then "~"
    else if StartsWith(cwd, home + "/") then "~" + cwd[|home|..]
    else cwd
  }

  /** Expanding a leading `~` back to the home directory. */
  function Expand(shown: string, home: string): string {
    if shown == "~" then home
    else if StartsWith(shown, "~/") then home + shown[1..]
    else shown
  }

  /** An absolute directory is shown with `~` exactly when it is the home
      directory or lies below it, and expanding the display gives it back. */
  lemma AbbreviateExpand(cwd: string, home: string)
    requires IsAbsolute(cwd)
    ensures var r := Abbreviate(cwd, home);
      (|r| >= 1 && r[0] == '~' <==> cwd == home || StartsWith(cwd, home + "/")) &&
      Expand(r, home) == cwd
  {
    var r := Abbreviate(cwd, home);
    if cwd != home && StartsWith(cwd, home + "/") {
      assert cwd[|home|] == '/';
      assert r[..2] == "~/";
      assert home + r[1..] == cwd;
    }
  }

  /** A sibling sharing the home directory's name as a prefix is shown
      unchanged. */
  lemma AbbreviateSibling()
    ensures Abbreviate("/home/al", "/home/al") == "~"
    ensures Abbreviate("/home/al/src", "/home/al") == "~/src"
    ensures Abbreviate("/home/al2", "/home/al") == "/home/al2"
  {
    assert !StartsWith("/home/al2", "/home/al/") by {
      assert "/home/al2"[8] == '2';
    }
    assert "/home/al/src"[..9] == "/home/al/";
  }

  /** The tracked directory. */
  class Tracker {
    var cwd: string

    predicate Valid()
      reads this
    {
      IsNormalized(cwd)
    }

    /** Starts at the process's working directory. */
    constructor(start: string)
      requires IsNormalized(start)
      ensures cwd == start && Valid()
    {
      cwd := start;
    }

    /** `getCwd()` */
    method GetCwd() returns (r: string)
      ensures r == cwd
    {
      r := cwd;
    }

    /** `setCwd(dir)` */
    method SetCwd(dir: string)
      requires Valid()
      modifies this
      ensures Valid() && IsAbsolute(old(cwd)) && cwd == Resolve(old(cwd), dir)
    {
      WalkNormalized(cwd);
      cwd := Resolve(cwd, dir);
      NormalizeNormalized(if IsAbsolute(dir) then dir else old(cwd) + "/" + dir);
    }

    /** `getAbbreviatedCwd()` */
    function AbbreviatedCwd(home: string): string
      reads this
    {
      Abbreviate(cwd, home)
    }
  }
}
