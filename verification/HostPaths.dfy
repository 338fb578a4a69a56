/** Host paths: normalisation, the ancestor chain a transfer authorises, and the
  * resolution of a console path to a host path.
  *
  * A path is a list of segments behind an optional leading slash; `CleanPath` pushes
  * them on a stack. This is the POSIX build of the program: only a leading slash makes a
  * path absolute to `CleanPath`, and a ".." that has nothing to pop is kept.
  */
module HostPaths {

  // ---------- segments ----------

  function Split(s: string): (segs: seq<string>)
    ensures segs != []
    ensures forall x :: x in segs ==> '/' !in x
  {
    if s == "" then [""]
    else
      var rest := Split(s[1..]);
      if s[0] == '/' then [""] + rest else [[s[0]] + rest[0]] + rest[1..]
  }

  function Join(segs: seq<string>): string {
    if segs == [] then ""
    else if |segs| == 1 then segs[0]
    else segs[0] + "/" + Join(segs[1..])
  }

  /** Push one segment: empty and "." are dropped, ".." pops an ordinary segment. */
  function Push(stack: seq<string>, seg: string): seq<string> {
    if seg == "" || seg == "." then stack
    else if seg == ".." && stack != [] && stack[|stack| - 1] != ".." then stack[..|stack| - 1]
    else stack + [seg]
  }

  function Reduce(stack: seq<string>, segs: seq<string>): seq<string>
    decreases |segs|
  {
    if segs == [] then stack else Reduce(Push(stack, segs[0]), segs[1..])
  }

  function Render(absolute: bool, segs: seq<string>): string {
    if absolute then "/" + Join(segs) else if segs == [] then "." else Join(segs)
  }

  predicate IsAbsolute(s: string) {
    s != "" && s[0] == '/'
  }

  function CleanPath(s: string): string {
    if s == "" then "" else Render(IsAbsolute(s), Reduce([], Split(s)))
  }

  predicate Ordinary(seg: string) {
    seg != "" && seg != "." && '/' !in seg
  }

  /** Segments a clean path can have: ".." only in front of everything else. */
  predicate Proper(segs: seq<string>) {
    && (forall i :: 0 <= i < |segs| ==> Ordinary(segs[i]))
    && (forall i, j :: 0 <= i < j < |segs| && segs[j] == ".." ==> segs[i] == "..")
  }

  lemma {:induction false} ReduceIsProper(stack: seq<string>, segs: seq<string>)
    requires Proper(stack) && forall x :: x in segs ==> '/' !in x
    ensures Proper(Reduce(stack, segs))
    decreases |segs|
  {
    if segs != [] {
      assert segs[0] in segs;
      ReduceIsProper(Push(stack, segs[0]), segs[1..]);
    }
  }

  lemma {:induction false} ReduceProper(stack: seq<string>, segs: seq<string>)
    requires Proper(stack + segs)
    ensures Reduce(stack, segs) == stack + segs
    decreases |segs|
  {
    if segs == [] {
      assert stack + segs == stack;
    } else {
      assert (stack + segs)[|stack|] == segs[0];
      assert segs[0] == ".." && stack != [] ==> (stack + segs)[|stack| - 1] == "..";
      assert Push(stack, segs[0]) == stack + [segs[0]];
      assert stack + [segs[0]] + segs[1..] == stack + segs;
      ReduceProper(stack + [segs[0]], segs[1..]);
    }
  }

  lemma {:induction false} SplitPlain(s: string)
    requires '/' !in s
    ensures Split(s) == [s]
  {
    if s != "" {
      assert s[0] in s;
      assert [s[0]] + s[1..] == s;
      SplitPlain(s[1..]);
    }
  }

  /** Splitting distributes over a slash. */
  lemma {:induction false} SplitAtSlash(a: string, b: string)
    ensures Split(a + "/" + b) == Split(a) + Split(b)
  {
    var s := a + "/" + b;
    if a == "" {
      assert s[1..] == b;
    } else {
      assert s[1..] == a[1..] + "/" + b;
      SplitAtSlash(a[1..], b);
    }
  }

  lemma {:induction false} SplitOfJoin(segs: seq<string>)
    requires segs != [] && forall i :: 0 <= i < |segs| ==> '/' !in segs[i]
    ensures Split(Join(segs)) == segs
  {
    SplitPlain(segs[0]);
    if |segs| > 1 {
      hide Split;
      SplitOfJoin(segs[1..]);
      SplitAtSlash(segs[0], Join(segs[1..]));
      assert [segs[0]] + segs[1..] == segs;
    }
  }

  lemma ReduceSkipsEmpty(segs: seq<string>)
    ensures Reduce([], [""] + segs) == Reduce([], segs)
  {
    assert ([""] + segs)[1..] == segs;
  }

  /** Rendering proper segments gives a path that cleaning leaves alone. */
  lemma CleanOfRender(absolute: bool, segs: seq<string>)
    requires Proper(segs)
    ensures CleanPath(Render(absolute, segs)) == Render(absolute, segs)
    ensures IsAbsolute(Render(absolute, segs)) == absolute
    ensures Reduce([], Split(Render(absolute, segs))) == segs
  {
    hide Split, Reduce;
    assert [] + segs == segs;
    ReduceProper([], segs);
    if segs == [] {
      ReduceNothing(absolute);
    } else {
      SplitOfJoin(segs);
      StartOfJoin(segs);
      if absolute {
        assert "" + "/" + Join(segs) == Render(true, segs);
        SplitAtSlash("", Join(segs));
        SplitPlain("");
        ReduceSkipsEmpty(segs);
      }
    }
  }

  lemma ReduceNothing(absolute: bool)
    ensures Reduce([], Split(Render(absolute, []))) == []
    ensures IsAbsolute(Render(absolute, [])) == absolute
  {
    if absolute {
      assert "" + "/" + "" == Render(true, []);
      SplitAtSlash("", "");
      SplitPlain("");
      assert [""] + [""] == ["", ""];
    } else {
      SplitPlain(".");
    }
  }

  lemma StartOfJoin(segs: seq<string>)
    requires segs != [] && Ordinary(segs[0])
    ensures Join(segs) != "" && Join(segs)[0] == segs[0][0] != '/'
  {
    assert segs[0][0] in segs[0];
  }

  lemma CleanSegments(s: string)
    ensures Proper(Reduce([], Split(s)))
  {
    ReduceIsProper([], Split(s));
  }

  /** Cleaning twice is cleaning once. */
  lemma CleanIsIdempotent(s: string)
    ensures CleanPath(CleanPath(s)) == CleanPath(s)
  {
    hide Reduce, Split;
    if s != "" {
      CleanSegments(s);
      CleanOfRender(IsAbsolute(s), Reduce([], Split(s)));
    }
  }

  // ---------- the program's normalisation ----------

  predicate IsLetter(c: char) {
    'a' <= c <= 'z' || 'A' <= c <= 'Z'
  }

  function Slashes(s: string): (t: string)
    ensures |t| == |s|
  {
    seq(|s|, i requires 0 <= i < |s| => if s[i] == '\\' then '/' else s[i])
  }

  predicate IsBareDrive(s: string) {
    |s| == 2 && s[1] == ':' && IsLetter(s[0])
  }

  /** A bare drive letter means the root of the drive. */
  function WithRoot(s: string): string {
    if IsBareDrive(s) then s + "/" else s
  }

  function Normalise(p: string): string {
    WithRoot(CleanPath(Slashes(p)))
  }

  predicate LooksAbsolute(p: string) {
    IsAbsolute(p) || (|p| >= 2 && p[1] == ':' && IsLetter(p[0]))
  }

  predicate NoBackslash(segs: seq<string>) {
    forall i :: 0 <= i < |segs| ==> '\\' !in segs[i]
  }

  lemma {:induction false} SplitKeepsCharacters(s: string)
    requires '\\' !in s
    ensures NoBackslash(Split(s))
  {
    if s != "" {
      SplitKeepsCharacters(s[1..]);
    }
  }

  lemma {:induction false} ReduceKeepsCharacters(stack: seq<string>, segs: seq<string>)
    requires NoBackslash(stack) && NoBackslash(segs)
    ensures NoBackslash(Reduce(stack, segs))
    decreases |segs|
  {
    if segs != [] {
      ReduceKeepsCharacters(Push(stack, segs[0]), segs[1..]);
    }
  }

  lemma {:induction false} RenderKeepsCharacters(absolute: bool, segs: seq<string>)
    requires NoBackslash(segs)
    ensures '\\' !in Join(segs) && '\\' !in Render(absolute, segs)
  {
    if |segs| > 1 {
      RenderKeepsCharacters(absolute, segs[1..]);
    }
  }

  /** The segments behind a non-empty host path. */
  function Segments(p: string): seq<string> {
    Reduce([], Split(Slashes(p)))
  }

  lemma SegmentsAreClean(p: string)
    ensures Proper(Segments(p)) && NoBackslash(Segments(p))
  {
    CleanSegments(Slashes(p));
    SplitKeepsCharacters(Slashes(p));
    ReduceKeepsCharacters([], Split(Slashes(p)));
  }

  /** A path of the authorised chain, from its segments. */
  function HostPath(absolute: bool, segs: seq<string>): string {
    WithRoot(Render(absolute, segs))
  }

  lemma NormaliseIsStep(p: string)
    requires p != ""
    ensures Normalise(p) == HostPath(IsAbsolute(Slashes(p)), Segments(p))
    ensures Normalise(p) != ""
  {
    SegmentsAreClean(p);
    RenderIsNotEmpty(IsAbsolute(Slashes(p)), Segments(p));
  }

  lemma RenderIsNotEmpty(absolute: bool, segs: seq<string>)
    requires Proper(segs) || absolute
    ensures Render(absolute, segs) != ""
  {
    if segs != [] && !absolute {
      StartOfJoin(segs);
    }
  }

  lemma SlashesIsIdentity(s: string)
    requires '\\' !in s
    ensures Slashes(s) == s
  {
    forall i | 0 <= i < |s| ensures s[i] != '\\' {
      assert s[i] in s;
    }
  }

  /** What a rendered path means again: itself, and a bare drive its root. */
  lemma NormaliseOfRender(absolute: bool, segs: seq<string>)
    requires Proper(segs) && NoBackslash(segs)
    ensures Normalise(Render(absolute, segs)) == HostPath(absolute, segs)
    ensures Normalise(HostPath(absolute, segs)) == HostPath(absolute, segs)
  {
    hide Reduce, Split;
    var r := Render(absolute, segs);
    RenderKeepsCharacters(absolute, segs);
    SlashesIsIdentity(r);
    CleanOfRender(absolute, segs);
    if IsBareDrive(r) {
      DriveRoot(r);
      assert '\\' !in r + "/";
      SlashesIsIdentity(r + "/");
    }
  }

  lemma DriveRoot(d: string)
    requires IsBareDrive(d) && CleanPath(d) == d
    ensures CleanPath(d + "/") == d
  {
    hide Reduce;
    assert d + "/" + "" == d + "/";
    SplitAtSlash(d, "");
    SplitPlain("");
    ReduceAppend([], Split(d), [""]);
    ReduceSkip(Reduce([], Split(d)));
  }

  lemma ReduceSkip(stack: seq<string>)
    ensures Reduce(stack, [""]) == stack
  {
    assert [""][1..] == [];
  }

  lemma {:induction false} ReduceAppend(stack: seq<string>, a: seq<string>, b: seq<string>)
    ensures Reduce(stack, a + b) == Reduce(Reduce(stack, a), b)
    decreases |a|
  {
    if a == [] {
      assert a + b == b;
    } else {
      assert (a + b)[1..] == a[1..] + b;
      ReduceAppend(Push(stack, a[0]), a[1..], b);
    }
  }

  /** Normalising is idempotent. */
  lemma NormaliseIsIdempotent(p: string)
    ensures Normalise(Normalise(p)) == Normalise(p)
  {
    if p != "" {
      NormaliseIsStep(p);
      SegmentsAreClean(p);
      NormaliseOfRender(IsAbsolute(Slashes(p)), Segments(p));
    }
  }

  // ---------- the chain of a transfer ----------

  function ChainOf(absolute: bool, segs: seq<string>): (out: seq<string>)
    ensures out != [] && out[0] == HostPath(absolute, segs)
    decreases |segs|
  {
    [HostPath(absolute, segs)] + (if |segs| <= 1 then [] else ChainOf(absolute, segs[..|segs| - 1]))
  }

  /** The normalised path, then its ancestors up to its first segment. */
  function Chain(p: string): seq<string> {
    if p == "" then [] else ChainOf(IsAbsolute(Slashes(p)), Segments(p))
  }

  /** The position of the last slash, or -1. */
  function LastSlash(s: string): (i: int)
    ensures -1 <= i < |s|
    ensures i >= 0 ==> s[i] == '/'
    ensures forall k :: i < k < |s| ==> s[k] != '/'
  {
    if s == "" then -1
    else if s[|s| - 1] == '/' then |s| - 1
    else LastSlash(s[..|s| - 1])
  }

  lemma {:induction false} LastSlashIs(a: string, b: string)
    requires '/' !in b
    ensures LastSlash(a + "/" + b) == |a|
    decreases |b|
  {
    var s := a + "/" + b;
    if b != "" {
      assert b[|b| - 1] in b;
      assert s[..|s| - 1] == a + "/" + b[..|b| - 1];
      LastSlashIs(a, b[..|b| - 1]);
    }
  }

  lemma {:induction false} NoSlash(s: string)
    requires '/' !in s
    ensures LastSlash(s) == -1
    decreases |s|
  {
    if s != "" {
      assert s[|s| - 1] in s;
      NoSlash(s[..|s| - 1]);
    }
  }

  lemma {:induction false} JoinLast(segs: seq<string>, seg: string)
    requires segs != []
    ensures Join(segs + [seg]) == Join(segs) + "/" + seg
  {
    assert (segs + [seg])[1..] == segs[1..] + [seg];
    if |segs| > 1 {
      JoinLast(segs[1..], seg);
    } else {
      assert (segs + [seg])[1..] == [seg];
    }
  }

  lemma RenderLast(absolute: bool, segs: seq<string>)
    requires |segs| >= 2
    ensures Render(absolute, segs) == Render(absolute, segs[..|segs| - 1]) + "/" + segs[|segs| - 1]
  {
    assert segs == segs[..|segs| - 1] + [segs[|segs| - 1]];
    JoinLast(segs[..|segs| - 1], segs[|segs| - 1]);
  }

  /** Where the loop cuts a rendered path. */
  lemma CutAt(absolute: bool, segs: seq<string>)
    requires Proper(segs)
    ensures |segs| >= 2 ==> LastSlash(Render(absolute, segs)) == |Render(absolute, segs[..|segs| - 1])| > 0
    ensures |segs| <= 1 ==> LastSlash(Render(absolute, segs)) <= 0
    ensures |segs| != 1 ==> HostPath(absolute, segs) == Render(absolute, segs)
  {
    hide *;
    if |segs| >= 2 {
      CutLong(absolute, segs);
    } else if |segs| == 1 {
      if absolute {
        CutRootChild(segs);
      } else {
        CutName(segs);
      }
    } else {
      CutNone(absolute, segs);
    }
  }

  lemma CutName(segs: seq<string>)
    requires |segs| == 1 && Proper(segs)
    ensures LastSlash(Render(false, segs)) == -1
  {
    NoSlash(segs[0]);
  }

  lemma CutNone(absolute: bool, segs: seq<string>)
    requires segs == []
    ensures LastSlash(Render(absolute, segs)) <= 0
    ensures HostPath(absolute, segs) == Render(absolute, segs)
  {
    hide LastSlash;
    if absolute {
      assert "" + "/" + "" == Render(absolute, segs);
      LastSlashIs("", "");
    } else {
      NoSlash(".");
    }
  }

  lemma CutRootChild(segs: seq<string>)
    requires |segs| == 1 && Proper(segs)
    ensures LastSlash(Render(true, segs)) == 0
  {
    hide LastSlash;
    assert "" + "/" + segs[0] == Render(true, segs);
    LastSlashIs("", segs[0]);
  }

  lemma CutLong(absolute: bool, segs: seq<string>)
    requires Proper(segs) && |segs| >= 2
    ensures LastSlash(Render(absolute, segs)) == |Render(absolute, segs[..|segs| - 1])| > 0
    ensures |Render(absolute, segs)| > |Render(absolute, segs[..|segs| - 1])| + 1
    ensures HostPath(absolute, segs) == Render(absolute, segs)
  {
    hide LastSlash, Join;
    RenderLast(absolute, segs);
    RenderIsNotEmpty(absolute, segs[..|segs| - 1]);
    LastSlashIs(Render(absolute, segs[..|segs| - 1]), segs[|segs| - 1]);
    assert Ordinary(segs[|segs| - 1]);
  }

  lemma StepsShrink(absolute: bool, segs: seq<string>)
    requires |segs| >= 2 && Proper(segs)
    ensures |HostPath(absolute, segs[..|segs| - 1])| < |HostPath(absolute, segs)|
  {
    hide Render;
    CutLong(absolute, segs);
  }

  /** The walk of the loop: cut at the last slash, keep what is new. */
  function Walk(p: string, out: seq<string>): seq<string>
    decreases |p|
  {
    if LastSlash(p) <= 0 then out
    else
      var cut := p[..LastSlash(p)];
      Walk(cut, if Normalise(cut) in out then out else out + [Normalise(cut)])
  }

  lemma {:induction false} WalkIsChain(absolute: bool, segs: seq<string>, p: string, done: seq<string>)
    requires Proper(segs) && NoBackslash(segs)
    requires p == Render(absolute, segs) || p == HostPath(absolute, segs)
    requires forall x :: x in done ==> |x| >= |HostPath(absolute, segs)|
    ensures Walk(p, done + [HostPath(absolute, segs)]) == done + ChainOf(absolute, segs)
    decreases |p|
  {
    hide *;
    CutAt(absolute, segs);
    var here := HostPath(absolute, segs);
    if |segs| >= 2 {
      var init := segs[..|segs| - 1];
      PrefixIsProper(segs);
      CutLong(absolute, segs);
      RenderLast(absolute, segs);
      StepsShrink(absolute, segs);
      CutPrefix(Render(absolute, init), segs[|segs| - 1], p);
      NormaliseOfRender(absolute, init);
      WalkOn(p, done + [here]);
      NewStep(done, here, HostPath(absolute, init));
      WalkIsChain(absolute, init, Render(absolute, init), done + [here]);
      ChainUnfolds(absolute, segs);
      assert done + [here] + ChainOf(absolute, init) == done + ([here] + ChainOf(absolute, init));
    } else {
      ChainUnfolds(absolute, segs);
      if LastSlash(p) > 0 {
        DriveRootStep(absolute, segs, p);
        NormaliseOfRender(absolute, segs);
        WalkOn(p, done + [here]);
        WalkStops(Render(absolute, segs), done + [here]);
      } else {
        WalkStops(p, done + [here]);
      }
    }
  }

  lemma CutPrefix(a: string, b: string, p: string)
    requires p == a + "/" + b
    ensures p[..|a|] == a
  {
  }

  lemma NewStep(done: seq<string>, here: string, step: string)
    requires |step| < |here| && forall x :: x in done ==> |x| >= |here|
    ensures step !in done + [here]
    ensures forall x :: x in done + [here] ==> |x| >= |step|
  {
  }

  lemma WalkStops(p: string, out: seq<string>)
    requires LastSlash(p) <= 0
    ensures Walk(p, out) == out
  {
  }

  lemma WalkOn(p: string, out: seq<string>)
    requires LastSlash(p) > 0
    ensures var cut := p[..LastSlash(p)];
      Walk(p, out) == Walk(cut, if Normalise(cut) in out then out else out + [Normalise(cut)])
  {
  }

  lemma ChainUnfolds(absolute: bool, segs: seq<string>)
    ensures |segs| >= 2 ==> ChainOf(absolute, segs) == [HostPath(absolute, segs)] + ChainOf(absolute, segs[..|segs| - 1])
    ensures |segs| <= 1 ==> ChainOf(absolute, segs) == [HostPath(absolute, segs)]
  {
  }

  /** The loop over the last slash collects the chain. */
  method TransferPathChain(hostPath: string) returns (out: seq<string>)
    ensures out == Chain(hostPath)
  {
    hide *;
    var p := Normalise(hostPath);
    if p == "" {
      EmptyChain(hostPath);
      return [];
    }
    out := [p];
    ghost var start := p;
    while LastSlash(p) > 0
      invariant Walk(p, out) == Walk(start, [start])
      decreases |p|
    {
      WalkOn(p, out);
      p := p[..LastSlash(p)];
      var step := Normalise(p);
      if step !in out {
        out := out + [step];
      }
    }
    WalkStops(p, out);
    WalkFromStart(hostPath);
  }

  lemma EmptyChain(p: string)
    requires Normalise(p) == ""
    ensures Chain(p) == []
  {
    if p != "" {
      NormaliseIsStep(p);
    }
  }

  lemma WalkFromStart(p: string)
    requires Normalise(p) != ""
    ensures Walk(Normalise(p), [Normalise(p)]) == Chain(p)
  {
    assert p != "";
    NormaliseIsStep(p);
    SegmentsAreClean(p);
    hide Walk, ChainOf, Proper, NoBackslash, Render, HostPath, Reduce, Split;
    WalkIsChain(IsAbsolute(Slashes(p)), Segments(p), Normalise(p), []);
    assert [] + [Normalise(p)] == [Normalise(p)];
    assert [] + ChainOf(IsAbsolute(Slashes(p)), Segments(p)) == ChainOf(IsAbsolute(Slashes(p)), Segments(p));
  }

  lemma PrefixIsProper(segs: seq<string>)
    requires segs != [] && Proper(segs) && NoBackslash(segs)
    ensures Proper(segs[..|segs| - 1]) && NoBackslash(segs[..|segs| - 1])
  {
  }

  /** A single segment is only cut again when it is a drive whose root was added. */
  lemma DriveRootStep(absolute: bool, segs: seq<string>, p: string)
    requires Proper(segs) && |segs| <= 1 && LastSlash(p) > 0
    requires p == Render(absolute, segs) || p == HostPath(absolute, segs)
    ensures p == HostPath(absolute, segs) && p[..LastSlash(p)] == Render(absolute, segs)
  {
    hide *;
    CutAt(absolute, segs);
    StepOrRoot(absolute, segs);
    CutDrive(Render(absolute, segs), p);
  }

  lemma CutDrive(r: string, p: string)
    requires p == r + "/"
    ensures LastSlash(p) == |r| && p[..|r|] == r
  {
    hide LastSlash;
    assert p == r + "/" + "";
    LastSlashIs(r, "");
  }

  lemma StepOrRoot(absolute: bool, segs: seq<string>)
    ensures HostPath(absolute, segs) == Render(absolute, segs) || HostPath(absolute, segs) == Render(absolute, segs) + "/"
    ensures !IsBareDrive(Render(absolute, segs)) ==> HostPath(absolute, segs) == Render(absolute, segs)
  {
  }

  // ---------- the chain is the path and its ancestors ----------

  lemma {:induction false} ChainMembers(absolute: bool, segs: seq<string>, q: string)
    requires Proper(segs)
    ensures q in ChainOf(absolute, segs)
      <==> q == HostPath(absolute, segs) || exists n :: 1 <= n < |segs| && q == HostPath(absolute, segs[..n])
    decreases |segs|
  {
    hide HostPath;
    if |segs| >= 2 {
      var init := segs[..|segs| - 1];
      ChainMembers(absolute, init, q);
      forall n | 1 <= n < |segs| ensures segs[..n] == if n < |init| then init[..n] else init {
        assert n < |init| ==> segs[..n] == init[..n];
      }
    }
  }

  predicate Shrinking(c: seq<string>) {
    forall i, j :: 0 <= i < j < |c| ==> |c[j]| < |c[i]|
  }

  lemma ShrinkingCons(head: string, tail: seq<string>)
    requires Shrinking(tail) && tail != [] && |tail[0]| < |head|
    ensures Shrinking([head] + tail)
  {
    var c := [head] + tail;
    forall i, j | 0 <= i < j < |c| ensures |c[j]| < |c[i]| {
      assert c[j] == tail[j - 1];
      assert |tail[j - 1]| <= |tail[0]|;
      assert i > 0 ==> c[i] == tail[i - 1];
    }
  }

  /** No path is in the chain twice: each ancestor is shorter than the one before it. */
  lemma {:induction false} ChainHasNoDuplicates(absolute: bool, segs: seq<string>)
    requires Proper(segs)
    ensures Shrinking(ChainOf(absolute, segs))
    decreases |segs|
  {
    if |segs| >= 2 {
      var init := segs[..|segs| - 1];
      ChainHasNoDuplicates(absolute, init);
      StepsShrink(absolute, segs);
      ShrinkingCons(HostPath(absolute, segs), ChainOf(absolute, init));
    }
  }

  function Dir(q: string): string {
    if q != "" && q[|q| - 1] == '/' then q else q + "/"
  }

  /** A normalised path that is an ancestor of `p`; the POSIX root is none of them. */
  predicate IsAncestor(q: string, p: string) {
    q != "" && q != "/" && Normalise(q) == q && Dir(q) < p
  }

  lemma {:induction false} PrefixOfSplit(xs: seq<string>, zs: seq<string>, ys: seq<string>)
    requires xs + zs == ys && zs != []
    ensures |xs| < |ys| && ys[..|xs|] == xs
  {
  }

  /** Segment-wise reading of a textual prefix that ends in a slash. */
  lemma PrefixIsSegments(a: bool, xs: seq<string>, b: bool, ys: seq<string>, rest: string)
    requires Proper(xs) && Proper(ys) && (a ==> xs != [])
    requires Render(a, xs) + "/" + rest == Render(b, ys)
    ensures a == b && xs != [] && |xs| < |ys| && ys[..|xs|] == xs
  {
    hide Split, Proper, Reduce;
    var p := Render(b, ys);
    CleanOfRender(a, xs);
    CleanOfRender(b, ys);
    RenderIsNotEmpty(a, xs);
    assert p[0] == Render(a, xs)[0];
    assert a == b;
    SplitAtSlash(Render(a, xs), rest);
    SplitOfRender(a, xs);
    SplitOfRender(b, ys);
    if xs == [] {
      DotIsNotProper(ys, Split(rest));
    } else if ys != [] {
      var front := if a then [""] else [];
      assert front + xs + Split(rest) == front + ys;
      assert (front + xs + Split(rest))[|front|..] == xs + Split(rest);
      assert (front + ys)[|front|..] == ys;
      PrefixOfSplit(xs, Split(rest), ys);
    }
  }

  lemma DotIsNotProper(ys: seq<string>, zs: seq<string>)
    requires Proper(ys)
    ensures ys != [] ==> ["."] + zs != ys
    ensures zs != [] ==> ["."] + zs != ["."]
  {
    if ys != [] {
      assert Ordinary(ys[0]);
    }
  }

  lemma SplitOfRender(absolute: bool, segs: seq<string>)
    requires Proper(segs)
    ensures segs != [] ==> Split(Render(absolute, segs)) == (if absolute then [""] else []) + segs
    ensures segs == [] && !absolute ==> Split(Render(absolute, segs)) == ["."]
  {
    hide Split, Reduce;
    if segs == [] {
      SplitPlain(".");
    } else {
      assert forall i :: 0 <= i < |segs| ==> Ordinary(segs[i]);
      SplitOfJoin(segs);
      if absolute {
        assert "" + "/" + Join(segs) == Render(true, segs);
        SplitAtSlash("", Join(segs));
        SplitPlain("");
      }
    }
  }

  /** The chain holds exactly the normalised path and its ancestors. */
  lemma ChainIsPathAndAncestors(host: string, q: string)
    requires host != ""
    ensures q in Chain(host) <==> q == Normalise(host) || IsAncestor(q, Normalise(host))
    ensures Shrinking(Chain(host))
  {
    var absolute, segs := IsAbsolute(Slashes(host)), Segments(host);
    SegmentsAreClean(host);
    NormaliseIsStep(host);
    ChainHasNoDuplicates(absolute, segs);
    ChainMembers(absolute, segs, q);
    forall n | 1 <= n < |segs| ensures IsAncestor(HostPath(absolute, segs[..n]), HostPath(absolute, segs)) {
      PrefixIsAncestor(absolute, segs, n);
    }
    if IsAncestor(q, Normalise(host)) {
      AncestorIsPrefix(absolute, segs, q);
    }
  }

  lemma PrefixIsAncestor(absolute: bool, segs: seq<string>, n: nat)
    requires Proper(segs) && NoBackslash(segs) && 1 <= n < |segs|
    ensures IsAncestor(HostPath(absolute, segs[..n]), HostPath(absolute, segs))
  {
    var xs := segs[..n];
    hide Normalise, Join, HostPath;
    NormaliseOfRender(absolute, xs);
    CutLong(absolute, segs);
    hide Proper, NoBackslash;
    RenderSplits(absolute, segs, n);
    RenderEnds(absolute, xs);
    DirOfStep(absolute, xs);
  }

  lemma RenderSplits(absolute: bool, segs: seq<string>, n: nat)
    requires 1 <= n < |segs|
    ensures Render(absolute, segs) == Render(absolute, segs[..n]) + "/" + Join(segs[n..])
  {
    hide Join;
    JoinSplits(segs[..n], segs[n..]);
    assert segs[..n] + segs[n..] == segs;
    AfterSlash(Join(segs[..n]), Join(segs[n..]));
  }

  lemma AfterSlash(a: string, b: string)
    ensures "/" + (a + "/" + b) == ("/" + a) + "/" + b
  {
  }

  lemma {:induction false} JoinSplits(a: seq<string>, b: seq<string>)
    requires a != [] && b != []
    ensures Join(a + b) == Join(a) + "/" + Join(b)
  {
    assert (a + b)[1..] == a[1..] + b;
    if |a| > 1 {
      JoinSplits(a[1..], b);
    } else {
      assert a[1..] + b == b;
    }
  }

  /** A rendered path with segments does not end in a slash. */
  lemma RenderEnds(absolute: bool, segs: seq<string>)
    requires segs != [] && Proper(segs)
    ensures Render(absolute, segs) != "" && Render(absolute, segs)[|Render(absolute, segs)| - 1] != '/'
  {
    JoinEnds(segs);
  }

  lemma {:induction false} JoinEnds(segs: seq<string>)
    requires segs != [] && Proper(segs)
    ensures Join(segs) != "" && Join(segs)[|Join(segs)| - 1] != '/'
  {
    assert Ordinary(segs[0]);
    if |segs| > 1 {
      JoinEnds(segs[1..]);
    } else {
      assert segs[0][|segs[0]| - 1] in segs[0];
    }
  }

  lemma DirOfStep(absolute: bool, segs: seq<string>)
    requires Render(absolute, segs) != "" && Render(absolute, segs)[|Render(absolute, segs)| - 1] != '/'
    ensures Dir(HostPath(absolute, segs)) == Render(absolute, segs) + "/"
    ensures HostPath(absolute, segs) != "" && HostPath(absolute, segs) != "/"
  {
  }

  lemma AncestorIsPrefix(absolute: bool, segs: seq<string>, q: string)
    requires Proper(segs) && NoBackslash(segs) && IsAncestor(q, HostPath(absolute, segs))
    ensures exists n :: 1 <= n < |segs| && q == HostPath(absolute, segs[..n])
  {
    hide Proper, NoBackslash, Normalise, Segments, Slashes, HostPath, Render, Dir;
    var a, xs := IsAbsolute(Slashes(q)), Segments(q);
    NormaliseIsStep(q);
    SegmentsAreClean(q);
    PrefixOfHostPath(a, xs, absolute, segs);
  }

  lemma DirIsRendered(a: bool, xs: seq<string>, p: string)
    requires Proper(xs) && IsAncestor(HostPath(a, xs), p)
    ensures Render(a, xs) + "/" < p && (a ==> xs != [])
  {
    hide Proper, Normalise, HostPath, Dir;
    if xs == [] {
      StepOfNothing(a);
    } else {
      RenderEnds(a, xs);
      DirOfStep(a, xs);
    }
  }

  lemma SplitOff(d: string, p: string)
    requires d + "/" <= p
    ensures p == d + "/" + p[|d| + 1..]
  {
  }

  lemma PrefixOfHostPath(a: bool, xs: seq<string>, absolute: bool, segs: seq<string>)
    requires Proper(xs) && NoBackslash(xs) && Proper(segs) && NoBackslash(segs)
    requires IsAncestor(HostPath(a, xs), HostPath(absolute, segs))
    ensures 1 <= |xs| < |segs| && HostPath(a, xs) == HostPath(absolute, segs[..|xs|])
  {
    hide Proper, NoBackslash, Normalise, Render, HostPath, Dir;
    var d, r := Render(a, xs), Render(absolute, segs);
    DirIsRendered(a, xs, HostPath(absolute, segs));
    var rest := HostPath(absolute, segs)[|d| + 1..];
    SplitOff(d, HostPath(absolute, segs));
    RenderIsNotEmpty(a, xs);
    assert rest != "";
    if HostPath(absolute, segs) != r {
      StepOrRoot(absolute, segs);
      ShortDrive(d, rest, r);
    }
    PrefixIsSegments(a, xs, absolute, segs, rest);
  }

  lemma StepOfNothing(absolute: bool)
    ensures absolute ==> HostPath(absolute, []) == "/"
    ensures !absolute ==> HostPath(absolute, []) == "." == Render(absolute, []) && Dir(".") == "./"
  {
  }

  /** Nothing lies above the root of a drive. */
  lemma ShortDrive(d: string, rest: string, r: string)
    requires d != "" && d + "/" + rest == r + "/" && rest != ""
    ensures !IsBareDrive(r)
  {
    assert (d + "/" + rest)[|d|] == '/';
    assert r[|d|] == (r + "/")[|d|];
  }

  // ---------- resolving what the console asks for ----------

  const APP_HOME: string := "/app_home"

  function DropSlashes(s: string): (t: string)
    ensures !IsAbsolute(t)
  {
    if IsAbsolute(s) then DropSlashes(s[1..]) else s
  }

  function StripAppHome(path: string): string {
    var p := if APP_HOME + "/" <= path then path[10..] else if path == APP_HOME then "" else path;
    DropSlashes(Slashes(p))
  }

  /** The host path a console path stands for, or "" when it is not served: an authorised
    * transfer path as it is, anything else below the serving root. */
  function Resolve(authorised: set<string>, root: string, kitPath: string): string {
    var rel := StripAppHome(kitPath);
    if LooksAbsolute(rel) && Normalise(rel) in authorised then Normalise(rel)
    else if root == "" then ""
    else
      var combined := if LooksAbsolute(rel) then CleanPath(rel) else CleanPath(root + "/" + rel);
      var prefix := if root[|root| - 1] == '/' then root else root + "/";
      if combined + "/" == prefix || combined == root then root
      else if prefix <= combined then combined
      else ""
  }

  /** `p` is below the root `rs`: the root's segments and then at least one more. */
  predicate Below(p: string, absolute: bool, rs: seq<string>, tail: seq<string>) {
    tail != [] && Proper(rs + tail) && p == Render(absolute, rs + tail)
  }

  /** Everything the server may touch for a console path. */
  ghost predicate Contained(p: string, authorised: set<string>, absolute: bool, rs: seq<string>) {
    p == "" || p in authorised || p == Render(absolute, rs) || exists tail :: Below(p, absolute, rs, tail) && ".." !in tail
  }

  /** A path that resolves below the root carries the root's own segments in front. */
  lemma ResolvesBelow(authorised: set<string>, absolute: bool, rs: seq<string>, kitPath: string)
    requires Proper(rs)
    ensures var p := Resolve(authorised, Render(absolute, rs), kitPath);
      p == "" || p in authorised || p == Render(absolute, rs)
      || ((absolute || rs != []) && exists tail :: Below(p, absolute, rs, tail))
  {
    var root := Render(absolute, rs);
    var rel := StripAppHome(kitPath);
    var p := Resolve(authorised, root, kitPath);
    hide StripAppHome, Normalise;
    CleanOfRender(absolute, rs);
    RenderIsNotEmpty(absolute, rs);
    if p != "" && p !in authorised && p != root {
      var from := if LooksAbsolute(rel) then rel else root + "/" + rel;
      var segs := Reduce([], Split(from));
      CleanSegments(from);
      assert p == CleanPath(from);
      if rs != [] {
        RenderEnds(absolute, rs);
      }
      BelowRoot(IsAbsolute(from), segs, absolute, rs, p);
    }
  }

  lemma BelowRoot(a: bool, segs: seq<string>, absolute: bool, rs: seq<string>, p: string)
    requires Proper(segs) && Proper(rs) && p == Render(a, segs) && p != Render(absolute, rs)
    requires (if absolute && rs == [] then "/" else Render(absolute, rs) + "/") <= p
    ensures (absolute || rs != []) && exists tail :: Below(p, absolute, rs, tail)
  {
    if absolute && rs == [] {
      CleanOfRender(a, segs);
      assert IsAbsolute(p);
      assert [] + segs == segs;
      assert Below(p, absolute, rs, segs);
    } else {
      var rest := p[|Render(absolute, rs)| + 1..];
      SplitOff(Render(absolute, rs), p);
      PrefixIsSegments(absolute, rs, a, segs, rest);
      assert rs + segs[|rs|..] == segs;
      assert Below(p, absolute, rs, segs[|rs|..]);
    }
  }

  /** A root that is not made of ".." alone admits no ".." below it. */
  lemma NoDotDotBelow(rs: seq<string>, tail: seq<string>, i: nat)
    requires Proper(rs + tail) && i < |rs| && rs[i] != ".."
    ensures ".." !in tail
  {
    forall j | 0 <= j < |tail| ensures tail[j] != ".." {
      assert (rs + tail)[|rs| + j] == tail[j];
      assert (rs + tail)[i] == rs[i];
    }
  }

  /** A root that cannot be climbed out of: it has a segment other than "..", or it is the
    * working directory, below which nothing is served at all. */
  predicate Holding(absolute: bool, rs: seq<string>) {
    (!absolute && rs == []) || exists i :: 0 <= i < |rs| && rs[i] != ".."
  }

  /** Every console path stays within the authorised paths and the serving root, with no
    * ".." left below it, if and only if the root has a segment other than ".." or is ".".
    * Only "/" and roots like "/.." or "../.." are left: there ".." climbs and is served. */
  lemma StaysInsideIff(absolute: bool, rs: seq<string>)
    requires Proper(rs)
    ensures (forall authorised, kitPath ::
               Contained(Resolve(authorised, Render(absolute, rs), kitPath), authorised, absolute, rs))
      <==> Holding(absolute, rs)
  {
    var root := Render(absolute, rs);
    if Holding(absolute, rs) {
      forall authorised, kitPath ensures Contained(Resolve(authorised, root, kitPath), authorised, absolute, rs) {
        HoldsInside(authorised, absolute, rs, kitPath);
      }
    } else {
      GoesUp(absolute, rs);
      assert !Contained(Resolve({}, root, "../x"), {}, absolute, rs);
    }
  }

  lemma HoldsInside(authorised: set<string>, absolute: bool, rs: seq<string>, kitPath: string)
    requires Proper(rs) && Holding(absolute, rs)
    ensures Contained(Resolve(authorised, Render(absolute, rs), kitPath), authorised, absolute, rs)
  {
    ResolvesBelow(authorised, absolute, rs, kitPath);
    hide Resolve, Render;
    var p := Resolve(authorised, Render(absolute, rs), kitPath);
    if rs != [] {
      if tail :| Below(p, absolute, rs, tail) {
        var i :| 0 <= i < |rs| && rs[i] != "..";
        NoDotDotBelow(rs, tail, i);
      }
    }
  }

  lemma RenderIsInjective(absolute: bool, xs: seq<string>, ys: seq<string>)
    requires Proper(xs) && Proper(ys) && Render(absolute, xs) == Render(absolute, ys)
    ensures xs == ys
  {
    CleanOfRender(absolute, xs);
    CleanOfRender(absolute, ys);
  }

  const UP: seq<string> := ["..", "x"]

  lemma GoesUp(absolute: bool, rs: seq<string>)
    requires Proper(rs) && !Holding(absolute, rs)
    ensures !Contained(Resolve({}, Render(absolute, rs), "../x"), {}, absolute, rs)
  {
    var root := Render(absolute, rs);
    var p := Render(absolute, rs + UP);
    assert Proper(rs + UP);
    UpIsServed(absolute, rs);
    RenderIsNotEmpty(absolute, rs + UP);
    if p == root {
      RenderIsInjective(absolute, rs, rs + UP);
    }
    forall tail | Below(p, absolute, rs, tail) ensures ".." in tail {
      RenderIsInjective(absolute, rs + tail, rs + UP);
      assert (rs + tail)[|rs|..] == (rs + UP)[|rs|..];
      assert tail == UP;
      assert tail[0] == "..";
    }
  }

  lemma UpIsServed(absolute: bool, rs: seq<string>)
    requires Proper(rs) && Proper(rs + UP) && (absolute || rs != [])
    ensures Resolve({}, Render(absolute, rs), "../x") == Render(absolute, rs + UP)
  {
    hide Reduce, Split, Proper, Render, CleanPath, Normalise;
    UpAsAsked();
    CleanBelowRoot(absolute, rs, UP);
    PathIsBelow(absolute, rs, UP);
    RenderIsNotEmpty(absolute, rs);
  }

  lemma UpAsAsked()
    ensures StripAppHome("../x") == "../x" == Join(UP) && !LooksAbsolute("../x") && Proper(UP)
  {
    assert "../x"[0] == '.';
    SlashesIsIdentity("../x");
    assert ".." + "/" + "x" == "../x";
  }

  lemma SameBeforeSlash(a: string, b: string)
    ensures a + "/" == b + "/" ==> a == b
  {
    assert (a + "/")[..|a + "/"| - 1] == a;
    assert (b + "/")[..|b + "/"| - 1] == b;
  }

  // ---------- an authorised transfer resolves to itself ----------

  /** A path the console can name back to us: it starts with a drive letter. */
  predicate HasDrive(p: string) {
    |p| >= 2 && p[1] == ':' && IsLetter(p[0])
  }

  /** A drive path of some chain that is authorised, by whatever, resolves to itself when it is
    * asked for below /app_home/, whichever way its slashes lean. */
  lemma OneAuthorisedIsEnough(host: string, authorised: set<string>, root: string, a: string, asked: string)
    requires a in Chain(host) && a in authorised && HasDrive(a) && Slashes(asked) == a
    ensures Resolve(authorised, root, APP_HOME + "/" + asked) == a
  {
    StripsAppHome(asked);
    assert host != "";
    hide Chain;
    ChainIsPathAndAncestors(host, a);
    NormaliseIsIdempotent(host);
  }

  /** Once a drive path is authorised, asking for any path of its chain below /app_home/
    * gives that host path back, whichever way its slashes lean. */
  lemma AuthorisedResolvesToItself(host: string, authorised: set<string>, root: string, a: string, asked: string)
    requires a in Chain(host) && HasDrive(a) && Slashes(asked) == a
    requires forall x :: x in Chain(host) ==> x in authorised
    ensures Resolve(authorised, root, APP_HOME + "/" + asked) == a
  {
    hide Chain, Resolve;
    OneAuthorisedIsEnough(host, authorised, root, a, asked);
  }

  /** What is asked below /app_home/ loses its leading slashes on the way in, so authorised
    * paths make no difference to it, whatever they are and whatever is served, if and only
    * if no drive letter follows those slashes. No POSIX path has one. */
  lemma PosixPathsAreNotAuthorised(a: string)
    ensures (forall authorised: set<string>, root: string ::
               Resolve(authorised, root, APP_HOME + "/" + a) == Resolve({}, root, APP_HOME + "/" + a))
      <==> !HasDrive(DropSlashes(Slashes(a)))
  {
    var kitPath, rel := APP_HOME + "/" + a, DropSlashes(Slashes(a));
    StripsAppHome(a);
    if HasDrive(rel) {
      NormaliseIsStep(rel);
      hide Normalise, StripAppHome;
      assert Resolve({Normalise(rel)}, "", kitPath) == Normalise(rel) != "" == Resolve({}, "", kitPath);
    } else {
      hide Normalise, CleanPath, StripAppHome;
      assert !LooksAbsolute(rel);
      forall authorised: set<string>, root: string ensures Resolve(authorised, root, kitPath) == Resolve({}, root, kitPath) {
      }
    }
  }

  lemma StripsAppHome(a: string)
    ensures StripAppHome(APP_HOME + "/" + a) == DropSlashes(Slashes(a))
  {
    var kitPath := APP_HOME + "/" + a;
    assert kitPath[10..] == a;
    assert APP_HOME + "/" <= kitPath;
  }

  /** Where a POSIX path ends up instead: below the serving root, so it resolves to itself,
    * authorised or not, if and only if the root is "/". */
  lemma PosixPathsResolveBelowTheRoot(authorised: set<string>, rs: seq<string>, segs: seq<string>)
    requires segs != [] && Proper(rs + segs) && Proper(segs) && NoBackslash(segs) && !HasDrive(Join(segs))
    ensures var p := Resolve(authorised, Render(true, rs), APP_HOME + "/" + Render(true, segs));
      p == Render(true, rs + segs) && (p == Render(true, segs) <==> rs == [])
  {
    hide Reduce, Split, Proper, NoBackslash, Join, Normalise, Slashes;
    var root, rel := Render(true, rs), Join(segs);
    PrefixIsProperToo(rs, segs);
    PosixStripped(segs);
    StripsAppHome(Render(true, segs));
    assert !LooksAbsolute(rel);
    CleanBelowRoot(true, rs, segs);
    PathIsBelow(true, rs, segs);
    RenderIsNotEmpty(true, rs);
    if Render(true, rs + segs) == Render(true, segs) {
      RenderIsInjective(true, rs + segs, segs);
    }
    assert rs == [] ==> rs + segs == segs;
  }

  lemma PrefixIsProperToo(rs: seq<string>, segs: seq<string>)
    requires Proper(rs + segs)
    ensures Proper(rs)
  {
    forall i | 0 <= i < |rs| ensures rs[i] == (rs + segs)[i] {
    }
  }

  lemma PosixStripped(segs: seq<string>)
    requires segs != [] && Proper(segs) && NoBackslash(segs)
    ensures DropSlashes(Slashes(Render(true, segs))) == Join(segs)
  {
    RenderKeepsCharacters(true, segs);
    SlashesIsIdentity(Render(true, segs));
    assert Ordinary(segs[0]);
    assert segs[0][0] in segs[0];
    assert Render(true, segs)[1..] == Join(segs);
  }

  lemma CleanBelowRoot(absolute: bool, rs: seq<string>, segs: seq<string>)
    requires segs != [] && Proper(rs) && Proper(rs + segs) && Proper(segs)
    ensures CleanPath(Render(absolute, rs) + "/" + Join(segs)) == Render(absolute, rs + segs)
  {
    hide Reduce, Split, Join;
    var root := Render(absolute, rs);
    CleanOfRender(absolute, rs);
    RenderIsNotEmpty(absolute, rs);
    SplitAtSlash(root, Join(segs));
    assert forall i :: 0 <= i < |segs| ==> Ordinary(segs[i]);
    SplitOfJoin(segs);
    ReduceAppend([], Split(root), segs);
    ReduceProper(rs, segs);
  }

  /** The root with its slash is a proper prefix of anything below it. */
  lemma PathIsBelow(absolute: bool, rs: seq<string>, segs: seq<string>)
    requires segs != [] && Proper(rs + segs) && Proper(rs) && (absolute || rs != [])
    ensures Render(absolute, rs) != ""
    ensures var root, p := Render(absolute, rs), Render(absolute, rs + segs);
      var prefix := if root[|root| - 1] == '/' then root else root + "/";
      prefix <= p && p != root && p + "/" != prefix
  {
    hide Proper, Join;
    var root, p := Render(absolute, rs), Render(absolute, rs + segs);
    RenderIsNotEmpty(absolute, rs);
    if rs != [] {
      RenderSplits(absolute, rs + segs, |rs|);
      assert (rs + segs)[..|rs|] == rs;
      RenderEnds(absolute, rs);
    } else {
      EmptyRoot();
    }
    if p == root {
      RenderIsInjective(absolute, rs + segs, rs);
    }
    RenderEnds(absolute, rs + segs);
    SameBeforeSlash(p, root);
  }

  lemma EmptyRoot()
    ensures Render(true, []) == "/"
  {
  }
}
