/** Paths told by walking: what cleaning ignores, and where a console path leads from the
  * serving root.
  */
module HostPathWalk {
  import opened HostPaths

  // ---------- what cleaning ignores ----------

  lemma Pushed(stack: seq<string>, x: string)
    ensures Reduce(stack, [x]) == Push(stack, x)
    ensures x != ".." && Ordinary(x) ==> Reduce(stack, [x, ".."]) == stack
  {
    assert [x][1..] == [];
    assert [x, ".."][1..] == [".."];
    assert [".."][1..] == [];
  }

  lemma ReducedLater(p: string, xs: seq<string>)
    ensures Reduce([], Split(p) + xs) == Reduce(Reduce([], Split(p)), xs)
  {
    ReduceAppend([], Split(p), xs);
  }

  /** A slash at the end, a dot segment, a doubled slash, and a step down and up again change
    * nothing. */
  lemma CleaningIgnores(p: string, q: string, x: string)
    requires p != "" && Ordinary(x) && x != ".."
    ensures CleanPath(p + "/") == CleanPath(p)
    ensures CleanPath(p + "/" + ".") == CleanPath(p)
    ensures CleanPath(p + "/" + ("" + "/" + q)) == CleanPath(p + "/" + q)
    ensures CleanPath(p + "/" + (x + "/" + "..")) == CleanPath(p)
  {
    hide Reduce, Split, Render, Push;
    assert p + "/" + "" == p + "/";
    SplitAtSlash(p, "");
    SplitAtSlash(p, ".");
    SplitAtSlash(p, q);
    SplitAtSlash("", q);
    SplitAtSlash(p, "" + "/" + q);
    SplitAtSlash(x, "..");
    SplitAtSlash(p, x + "/" + "..");
    SplitPlain("");
    SplitPlain(".");
    SplitPlain("..");
    SplitPlain(x);
    var stack := Reduce([], Split(p));
    ReducedLater(p, [""]);
    ReducedLater(p, ["."]);
    ReducedLater(p, Split(q));
    ReducedLater(p, [""] + Split(q));
    ReduceAppend(stack, [""], Split(q));
    ReducedLater(p, [x] + [".."]);
    assert [x] + [".."] == [x, ".."];
    Pushed(stack, "");
    Pushed(stack, ".");
    Pushed(stack, x);
    Unpushed(stack);
  }

  lemma Unpushed(stack: seq<string>)
    ensures Push(stack, "") == stack && Push(stack, ".") == stack
  {
  }

  /** Normalising takes either slash for the same, and a bare drive for its root. */
  lemma EitherSlash(p: string, q: string, c: char)
    requires |p| == |q| && forall i :: 0 <= i < |p| ==> q[i] == if p[i] == '\\' then '/' else p[i]
    requires IsLetter(c)
    ensures Normalise(p) == Normalise(q)
    ensures Normalise([c, ':']) == [c, ':', '/'] && Normalise([c, ':', '\\']) == [c, ':', '/']
  {
    hide Split, Reduce;
    assert Slashes(p) == q == Slashes(q);
    var d := [c, ':'];
    assert Slashes(d) == d && Slashes([c, ':', '\\']) == d + "/" && d + "/" == [c, ':', '/'];
    DriveIsClean(c);
    DriveRoot(d);
  }

  lemma DriveIsClean(c: char)
    requires IsLetter(c)
    ensures CleanPath([c, ':']) == [c, ':']
  {
    var d := [c, ':'];
    assert Render(false, [d]) == d;
    CleanOfRender(false, [d]);
  }

  // ---------- where a console path leads ----------

  /** The ways to ask for `a`: below /app_home/, /app_home itself, or without that prefix. */
  predicate AsksFor(kitPath: string, a: string) {
    || kitPath == "/app_home/" + a
    || (kitPath == "/app_home" && a == "")
    || (kitPath == a && a != "/app_home" && !("/app_home/" <= a))
  }

  lemma Stripped(kitPath: string, a: string)
    requires AsksFor(kitPath, a)
    ensures StripAppHome(kitPath) == DropSlashes(Slashes(a))
  {
    if kitPath == "/app_home/" + a {
      assert kitPath == APP_HOME + "/" + a;
      StripsAppHome(a);
    } else if kitPath == "/app_home" {
      assert Slashes("") == "";
    }
  }

  /** A path with no drive letter is walked from the serving root, dots and all. It is served
    * when the walk does not leave the root's segments, and then as the place it leads to; the
    * working directory as root serves nothing but itself. */
  lemma ResolvesByWalking(authorised: set<string>, absolute: bool, rs: seq<string>, kitPath: string, a: string)
    requires Proper(rs) && AsksFor(kitPath, a) && !HasDrive(DropSlashes(Slashes(a)))
    ensures var walked := Reduce(rs, Split(DropSlashes(Slashes(a))));
            Resolve(authorised, Render(absolute, rs), kitPath) ==
              if rs <= walked && (absolute || rs != [] || walked == []) then Render(absolute, walked) else ""
  {
    hide Reduce, Split, Proper, Render, CleanPath, Normalise, DropSlashes, Slashes, StripAppHome;
    var rel := DropSlashes(Slashes(a));
    var walked := Reduce(rs, Split(rel));
    Stripped(kitPath, a);
    WalkIsClean(absolute, rs, rel);
    RenderIsNotEmpty(absolute, rs);
    RenderIsNotEmpty(absolute, walked);
    WhenPrefix(absolute, rs, walked);
  }

  lemma WalkIsClean(absolute: bool, rs: seq<string>, rel: string)
    requires Proper(rs)
    ensures var walked := Reduce(rs, Split(rel));
            Proper(walked) && CleanPath(Render(absolute, rs) + "/" + rel) == Render(absolute, walked)
  {
    hide Reduce, Split, Render;
    var root := Render(absolute, rs);
    CleanOfRender(absolute, rs);
    RenderIsNotEmpty(absolute, rs);
    SplitAtSlash(root, rel);
    ReduceAppend([], Split(root), Split(rel));
    ReduceIsProper(rs, Split(rel));
  }

  lemma RootText(absolute: bool, rs: seq<string>)
    requires Proper(rs)
    ensures var root := Render(absolute, rs);
            root != "" && (root[|root| - 1] == '/' <==> absolute && rs == [])
            && (absolute && rs == [] ==> root == "/")
  {
    RenderIsNotEmpty(absolute, rs);
    if rs != [] {
      RenderEnds(absolute, rs);
    }
  }

  lemma HereOnly(absolute: bool, rs: seq<string>, walked: seq<string>)
    requires Proper(rs) && Proper(walked)
    ensures var root, p := Render(absolute, rs), Render(absolute, walked);
            root != "" &&
            var prefix := if root[|root| - 1] == '/' then root else root + "/";
            (p + "/" == prefix || p == root <==> walked == rs)
  {
    hide Proper, Render;
    var root, p := Render(absolute, rs), Render(absolute, walked);
    RootText(absolute, rs);
    RootText(absolute, walked);
    SameBeforeSlash(p, root);
    if p == root {
      RenderIsInjective(absolute, rs, walked);
    }
    if absolute && rs == [] {
      assert |p + "/"| > |root|;
    }
  }

  lemma SlashBelow(absolute: bool, rs: seq<string>, walked: seq<string>)
    requires Proper(rs) && Proper(walked) && walked != rs && !(absolute && rs == [])
    ensures Render(absolute, rs) + "/" <= Render(absolute, walked) <==> rs <= walked && rs != []
  {
    hide Proper, Render;
    var root, p := Render(absolute, rs), Render(absolute, walked);
    if root + "/" <= p {
      SplitOff(root, p);
      PrefixIsSegments(absolute, rs, absolute, walked, p[|root| + 1..]);
    }
    if rs <= walked && rs != [] {
      assert rs + walked[|rs|..] == walked;
      RootText(absolute, rs);
      PathIsBelow(absolute, rs, walked[|rs|..]);
    }
  }

  /** When the text of one place starts with the text of another and a slash. */
  lemma WhenPrefix(absolute: bool, rs: seq<string>, walked: seq<string>)
    requires Proper(rs) && Proper(walked)
    ensures var root, p := Render(absolute, rs), Render(absolute, walked);
            root != "" && p != "" &&
            var prefix := if root[|root| - 1] == '/' then root else root + "/";
            (p + "/" == prefix || p == root <==> walked == rs)
            && (walked != rs ==> (prefix <= p <==> rs <= walked && (absolute || rs != [])))
  {
    hide Proper, Render;
    var root, p := Render(absolute, rs), Render(absolute, walked);
    RootText(absolute, rs);
    RootText(absolute, walked);
    HereOnly(absolute, rs, walked);
    if walked != rs {
      if absolute && rs == [] {
        RootIsAbsolute(walked);
      } else {
        SlashBelow(absolute, rs, walked);
      }
    }
  }

  lemma RootIsAbsolute(walked: seq<string>)
    ensures "/" <= Render(true, walked)
  {
  }

  /** /app_home, with or without slashes behind it, is the serving root, whatever the root. */
  lemma RootIsServed(authorised: set<string>, absolute: bool, rs: seq<string>, kitPath: string)
    requires Proper(rs) && (kitPath == "/app_home" || kitPath == "/app_home/" || kitPath == "/app_home//")
    ensures Resolve(authorised, Render(absolute, rs), kitPath) == Render(absolute, rs) != ""
  {
    hide Reduce, Split, Proper, Render, Resolve;
    var a := if kitPath == "/app_home//" then "/" else "";
    assert AsksFor(kitPath, a);
    assert DropSlashes(Slashes(a)) == "" by {
      assert Slashes("/") == "/";
    }
    SplitPlain("");
    ReduceSkip(rs);
    RenderIsNotEmpty(absolute, rs);
    ResolvesByWalking(authorised, absolute, rs, kitPath, a);
  }
}
