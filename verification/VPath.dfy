/** Path containment, kernel/src/capabilities/vpath.ts.

    `resolveIn` compares strings: it resolves the request against the root and tests prefixes with a
    separator appended.  The specification works on lists of segments.  POSIX `path.resolve` is
    modelled as splitting at "/", dropping empty and "." segments and letting ".." take the segment
    before it.
 */
module VPath {

  type Path = string

  datatype Resolved = Ok(full: Path) | Escapes | ControlPlane

  const SEP := "/"

  // ----- strings and segments -----

  function Split(s: string): (r: seq<string>)
    ensures |r| >= 1
  {
    if s == "" then [""]
    else
      var rest := Split(s[1..]);
      if s[0] == '/' then [""] + rest else [[s[0]] + rest[0]] + rest[1..]
  }

  function Join(segs: seq<string>): string {
    if segs == [] then "" else if |segs| == 1 then segs[0] else segs[0] + SEP + Join(segs[1..])
  }

  predicate HasNoSep(s: string) {
    forall i :: 0 <= i < |s| ==> s[i] != '/'
  }

  /** A segment that normalisation keeps. */
  predicate Plain(s: string) {
    s != "" && s != "." && s != ".." && HasNoSep(s)
  }

  predicate AllPlain(segs: seq<string>) {
    forall i :: 0 <= i < |segs| ==> Plain(segs[i])
  }

  function Absolute(segs: seq<string>): Path {
    SEP + Join(segs)
  }

  lemma {:induction false} SplitConcat(a: string, b: string)
    ensures Split(a + SEP + b) == Split(a) + Split(b)
  {
    if a == "" {
      assert (a + SEP + b)[1..] == b;
    } else {
      assert (a + SEP + b)[1..] == a[1..] + SEP + b;
      SplitConcat(a[1..], b);
    }
  }

  lemma {:induction false} SplitOne(s: string)
    requires HasNoSep(s)
    ensures Split(s) == [s]
  {
    if s != "" {
      SplitOne(s[1..]);
      assert s == [s[0]] + s[1..];
    }
  }

  lemma {:induction false} SplitJoin(segs: seq<string>)
    requires segs != [] && AllPlain(segs)
    ensures Split(Join(segs)) == segs
  {
    SplitOne(segs[0]);
    if |segs| > 1 {
      SplitJoin(segs[1..]);
      SplitConcat(segs[0], Join(segs[1..]));
    }
  }

  lemma {:induction false} JoinSplit(s: string)
    ensures Join(Split(s)) == s
  {
    if s != "" {
      JoinSplit(s[1..]);
      var rest := Split(s[1..]);
      if s[0] == '/' {
        assert Split(s)[1..] == rest;
      } else {
        assert Split(s)[1..] == rest[1..];
      }
      assert s == [s[0]] + s[1..];
    }
  }

  lemma {:induction false} SplitHasNoSep(s: string)
    ensures forall i :: 0 <= i < |Split(s)| ==> HasNoSep(Split(s)[i])
  {
    if s != "" {
      SplitHasNoSep(s[1..]);
    }
  }

  lemma {:induction false} JoinConcat(a: seq<string>, b: seq<string>)
    requires a != [] && b != []
    ensures Join(a + b) == Join(a) + SEP + Join(b)
  {
    assert (a + b)[1..] == a[1..] + b;
    if |a| > 1 {
      JoinConcat(a[1..], b);
    } else {
      assert a[1..] + b == b;
    }
  }

  // ----- path.resolve -----

  function Normalize(done: seq<string>, segs: seq<string>): seq<string>
    decreases |segs|
  {
    if segs == [] then done
    else if segs[0] == "" || segs[0] == "." then Normalize(done, segs[1..])
    else if segs[0] == ".." then Normalize(if done == [] then [] else done[..|done| - 1], segs[1..])
    else Normalize(done + [segs[0]], segs[1..])
  }

  /** `path.resolve(root, p)` in the working directory cwd. */
  function Resolve(cwd: Path, root: Path, p: Path): Path {
    var whole :=
      if SEP <= p then p else if SEP <= root then root + SEP + p else cwd + SEP + root + SEP + p;
    Absolute(Normalize([], Split(whole)))
  }

  /** `replace(/^[/\\]+/, "")` */
  function StripLead(p: Path): Path {
    if p != "" && (p[0] == '/' || p[0] == '\\') then StripLead(p[1..]) else p
  }

  function ResolveIn(cwd: Path, root: Path, p: Path): Resolved {
    var full := Resolve(cwd, root, StripLead(p));
    if full != root && !(root + SEP <= full) then Escapes
    else
      var control := Resolve(cwd, root, ".void");
      if full == control || control + SEP <= full then ControlPlane
      else Ok(full)
  }

  lemma {:induction false} StripLeadLeavesNoSep(p: Path)
    ensures !(SEP <= StripLead(p)) && |StripLead(p)| <= |p|
  {
    if p != "" && (p[0] == '/' || p[0] == '\\') {
      StripLeadLeavesNoSep(p[1..]);
    }
  }

  lemma {:induction false} NormalizeConcat(done: seq<string>, a: seq<string>, b: seq<string>)
    ensures Normalize(done, a + b) == Normalize(Normalize(done, a), b)
    decreases |a|
  {
    if a == [] {
      assert a + b == b;
    } else {
      assert (a + b)[1..] == a[1..] + b;
      if a[0] == "" || a[0] == "." {
        NormalizeConcat(done, a[1..], b);
      } else if a[0] == ".." {
        NormalizeConcat(if done == [] then [] else done[..|done| - 1], a[1..], b);
      } else {
        NormalizeConcat(done + [a[0]], a[1..], b);
      }
    }
  }

  lemma {:induction false} NormalizePlain(done: seq<string>, segs: seq<string>)
    requires AllPlain(segs)
    ensures Normalize(done, segs) == done + segs
    decreases |segs|
  {
    if segs != [] {
      NormalizePlain(done + [segs[0]], segs[1..]);
      assert done + [segs[0]] + segs[1..] == done + segs;
    }
  }

  lemma {:induction false} NormalizeIsPlain(done: seq<string>, segs: seq<string>)
    requires AllPlain(done) && forall i :: 0 <= i < |segs| ==> HasNoSep(segs[i])
    ensures AllPlain(Normalize(done, segs))
    decreases |segs|
  {
    if segs != [] {
      if segs[0] == "" || segs[0] == "." {
        NormalizeIsPlain(done, segs[1..]);
      } else if segs[0] == ".." {
        NormalizeIsPlain(if done == [] then [] else done[..|done| - 1], segs[1..]);
      } else {
        NormalizeIsPlain(done + [segs[0]], segs[1..]);
      }
    }
  }

  // The rules of path normalisation, in any context: "." and empty segments go, ".." goes with the
  // segment before it, and alone at the top, and all else stays (NormalizePlain).

  lemma DotGoes(a: seq<string>, s: string, b: seq<string>)
    requires s == "" || s == "."
    ensures Normalize([], a + [s] + b) == Normalize([], a + b)
  {
    NormalizeConcat([], a + [s], b);
    NormalizeConcat([], a, [s]);
    NormalizeConcat([], a, b);
    assert [s][1..] == [];
  }

  lemma ParentTakesChild(a: seq<string>, s: string, b: seq<string>)
    requires Plain(s)
    ensures Normalize([], a + [s, ".."] + b) == Normalize([], a + b)
  {
    var done := Normalize([], a);
    NormalizeConcat([], a + [s, ".."], b);
    NormalizeConcat([], a, [s, ".."]);
    NormalizeConcat([], a, b);
    assert [s, ".."][1..] == [".."] && [".."][1..] == [];
    assert (done + [s])[..|done|] == done;
    assert Normalize(done, [s, ".."]) == Normalize(done + [s], [".."]) == Normalize(done, []);
  }

  lemma TopHasNoParent(b: seq<string>)
    ensures Normalize([], [".."] + b) == Normalize([], b)
  {
    assert ([".."] + b)[1..] == b;
  }

  // ----- the string tests are segment tests -----

  lemma SplitAbsolute(segs: seq<string>)
    requires segs != [] && AllPlain(segs)
    ensures Split(Absolute(segs)) == [""] + segs
  {
    SplitConcat("", Join(segs));
    assert "" + SEP + Join(segs) == Absolute(segs);
    SplitJoin(segs);
  }

  lemma AbsoluteIsInjective(a: seq<string>, b: seq<string>)
    requires AllPlain(a) && AllPlain(b) && Absolute(a) == Absolute(b)
    ensures a == b
  {
    assert Absolute(a)[1..] == Join(a) && Absolute(b)[1..] == Join(b);
    if a != [] && b != [] {
      SplitJoin(a);
      SplitJoin(b);
    } else if a != [] {
      JoinIsNotEmpty(a);
    } else if b != [] {
      JoinIsNotEmpty(b);
    }
  }

  lemma JoinIsNotEmpty(a: seq<string>)
    requires a != [] && AllPlain(a)
    ensures Join(a) != ""
  {}

  lemma LongerPath(root: seq<string>, full: seq<string>)
    requires root != [] && AllPlain(root) && AllPlain(full)
    requires Absolute(root) + SEP <= Absolute(full)
    ensures root <= full
  {
    var r, f := Absolute(root), Absolute(full);
    assert |f| >= |r| + 1 >= 2;
    assert full != [];
    var t := f[|r| + 1..];
    assert f == r + SEP + t;
    SplitConcat(r, t);
    SplitAbsolute(root);
    SplitAbsolute(full);
    SameTail("", full, root, Split(t));
  }

  lemma SameTail<T>(head: T, a: seq<T>, b: seq<T>, c: seq<T>)
    requires [head] + a == [head] + b + c
    ensures a == b + c && b <= a
  {
    assert a == ([head] + a)[1..];
    assert b + c == ([head] + b + c)[1..];
  }

  lemma PathBelow(root: seq<string>, more: seq<string>)
    requires root != [] && more != []
    ensures Absolute(root + more) == Absolute(root) + SEP + Join(more)
  {
    JoinConcat(root, more);
  }

  /** `full === root || full.startsWith(root + sep)` says that root's segments begin full's. */
  lemma PrefixTest(root: seq<string>, full: seq<string>)
    requires root != [] && AllPlain(root) && AllPlain(full)
    ensures (Absolute(full) == Absolute(root) || Absolute(root) + SEP <= Absolute(full)) <==> root <= full
  {
    if Absolute(root) + SEP <= Absolute(full) {
      LongerPath(root, full);
    }
    if Absolute(full) == Absolute(root) {
      AbsoluteIsInjective(full, root);
    }
    if root <= full && root != full {
      PathBelow(root, full[|root|..]);
      assert full == root + full[|root|..];
    }
  }

  /** A root as the specification wants it: absolute and normalised. */
  predicate IsRoot(root: Path, segs: seq<string>) {
    AllPlain(segs) && root == Absolute(segs)
  }

  /** The segments a request resolves to. */
  function Target(root: seq<string>, p: Path): seq<string> {
    Normalize(root, Split(StripLead(p)))
  }

  lemma ResolveFromRoot(cwd: Path, root: seq<string>, p: Path)
    requires AllPlain(root) && !(SEP <= p)
    ensures Resolve(cwd, Absolute(root), p) == Absolute(Normalize(root, Split(p)))
    ensures AllPlain(Normalize(root, Split(p)))
  {
    SplitConcat(Absolute(root), p);
    NormalizeConcat([], Split(Absolute(root)), Split(p));
    if root == [] {
      assert Split(Absolute(root)) == ["", ""] by { assert SEP[1..] == ""; }
      assert ["", ""][1..] == [""] && [""][1..] == [];
      assert Normalize([], [""]) == [];
    } else {
      SplitAbsolute(root);
      assert ([""] + root)[1..] == root;
      NormalizePlain([], root);
      assert [] + root == root;
    }
    SplitHasNoSep(p);
    NormalizeIsPlain(root, Split(p));
  }

  /** For a normalised root other than "/": a request is accepted exactly when its segments extend the
      root's and do not enter ".void", and the result is those segments, none of them "." or "..". */
  lemma ResolveInSpec(cwd: Path, root: Path, segs: seq<string>, p: Path)
    requires IsRoot(root, segs) && segs != []
    ensures AllPlain(Target(segs, p))
    ensures ResolveIn(cwd, root, p) ==
      var t := Target(segs, p);
      if !(segs <= t) then Escapes
      else if |t| > |segs| && t[|segs|] == ".void" then ControlPlane
      else Ok(Absolute(t))
  {
    StripLeadLeavesNoSep(p);
    ResolveFromRoot(cwd, segs, StripLead(p));
    var t := Target(segs, p);
    PrefixTest(segs, t);
    ControlSegments(cwd, segs);
    PrefixTest(segs + [".void"], t);
    if segs <= t && |t| > |segs| {
      assert t[..|segs|] == segs;
      assert segs + [".void"] <= t <==> t[|segs|] == ".void";
    }
  }

  /** ".." climbs out of every root, and a plain name stays below it. */
  lemma ParentEscapes(cwd: Path, root: Path, segs: seq<string>, name: string)
    requires IsRoot(root, segs) && segs != [] && Plain(name) && name[0] != '\\'
    ensures ResolveIn(cwd, root, "..") == Escapes
    ensures ResolveIn(cwd, root, name) == if name == ".void" then ControlPlane else Ok(root + SEP + name)
  {
    ResolveInSpec(cwd, root, segs, "..");
    SplitOne("..");
    assert StripLead("..") == ".." && [".."][1..] == [];
    assert Target(segs, "..") == segs[..|segs| - 1];
    ResolveInSpec(cwd, root, segs, name);
    SplitOne(name);
    assert name[0] != '/' && StripLead(name) == name;
    NormalizePlain(segs, [name]);
    assert Target(segs, name) == segs + [name];
    PathBelow(segs, [name]);
  }

  lemma ControlSegments(cwd: Path, root: seq<string>)
    requires AllPlain(root)
    ensures AllPlain(root + [".void"])
    ensures Resolve(cwd, Absolute(root), ".void") == Absolute(root + [".void"])
  {
    assert ".void"[0] == '.';
    ResolveFromRoot(cwd, root, ".void");
    SplitOne(".void");
    NormalizePlain(root, [".void"]);
  }

  /** Under "/" itself only requests that resolve to "/" are accepted. */
  lemma ResolveInAtTop(cwd: Path, p: Path)
    ensures ResolveIn(cwd, SEP, p) == if Target([], p) == [] then Ok(SEP) else Escapes
  {
    StripLeadLeavesNoSep(p);
    assert Absolute([]) == SEP;
    ResolveFromRoot(cwd, [], StripLead(p));
    ControlSegments(cwd, []);
    TopTests(Target([], p));
  }

  lemma TopTests(t: seq<string>)
    requires AllPlain(t)
    ensures Absolute(t) == SEP <==> t == []
    ensures !(SEP + SEP <= Absolute(t))
    ensures t == [] ==> Absolute(t) != Absolute([] + [".void"]) && !(Absolute([] + [".void"]) + SEP <= Absolute(t))
  {
    if t != [] {
      JoinStartsWith(t);
      assert t[0][0] != '/';
      assert Absolute(t)[1] == Join(t)[0];
    }
    assert |Absolute([] + [".void"])| > 1;
  }

  lemma JoinStartsWith(a: seq<string>)
    requires a != [] && AllPlain(a)
    ensures Join(a) != "" && Join(a)[0] == a[0][0]
  {}

  // ----- roots that are not normalised -----

  /** A non-empty root that accepts anything, even to refuse it as ".void", is an absolute and
      normalised path. */
  lemma AcceptingRootIsNormal(cwd: Path, root: Path, p: Path) returns (segs: seq<string>)
    requires root != "" && ResolveIn(cwd, root, p) != Escapes
    ensures IsRoot(root, segs)
  {
    StripLeadLeavesNoSep(p);
    var q := StripLead(p);
    var whole := if SEP <= root then root + SEP + q else cwd + SEP + root + SEP + q;
    var t := Normalize([], Split(whole));
    SplitHasNoSep(whole);
    NormalizeIsPlain([], Split(whole));
    var full := Absolute(t);
    assert full == Resolve(cwd, root, q);
    if full == root {
      segs := t;
    } else {
      segs := RootOfPrefix(root, t);
    }
  }

  lemma RootOfPrefix(root: Path, t: seq<string>) returns (segs: seq<string>)
    requires root != "" && AllPlain(t) && root + SEP <= Absolute(t)
    ensures IsRoot(root, segs)
  {
    var full := Absolute(t);
    assert |full| >= |root| + 1 >= 2;
    assert t != [];
    var u := full[|root| + 1..];
    assert full == root + SEP + u;
    SplitConcat(root, u);
    JoinSplit(root);
    SplitAbsolute(t);
    var rs := Split(root);
    assert [""] + t == rs + Split(u);
    assert rs == ([""] + t)[..|rs|] && rs[0] == "";
    assert |rs| > 1;
    segs := rs[1..];
    assert segs == t[..|rs| - 1];
    assert root == SEP + Join(segs);
  }

  ghost predicate AcceptsSomething(cwd: Path, root: Path) {
    exists p :: ResolveIn(cwd, root, p) != Escapes
  }

  ghost predicate IsNormalRoot(root: Path) {
    exists segs :: IsRoot(root, segs)
  }

  /** A root given as a relative path, or with a trailing or doubled separator, or with "." or ".."
      in it, refuses every request; all others accept at least their own root. */
  lemma RootWorksIffNormal(cwd: Path, root: Path)
    requires root != ""
    ensures AcceptsSomething(cwd, root) <==> IsNormalRoot(root)
  {
    if AcceptsSomething(cwd, root) {
      var p :| ResolveIn(cwd, root, p) != Escapes;
      var segs := AcceptingRootIsNormal(cwd, root, p);
      assert IsRoot(root, segs);
    }
    if IsNormalRoot(root) {
      var segs :| IsRoot(root, segs);
      assert Split("") == [""] && [""][1..] == [];
      assert Normalize(segs, []) == segs;
      assert Target(segs, "") == segs;
      if segs == [] {
        assert root == SEP;
        ResolveInAtTop(cwd, "");
      } else {
        ResolveInSpec(cwd, root, segs, "");
      }
      assert ResolveIn(cwd, root, "") != Escapes;
    }
  }

  /** An empty root is the remaining case: it stands for the working directory when resolving and for
      every absolute path when testing, so no request escapes it. */
  lemma EmptyRootNeverEscapes(cwd: Path, p: Path)
    ensures ResolveIn(cwd, "", p) != Escapes
  {
    assert "" + SEP == SEP;
    assert SEP <= Resolve(cwd, "", StripLead(p));
  }

  // ----- resolving a result again -----

  /** What follows the root in an accepted path. */
  function Relative(root: Path, full: Path): Path
    requires |root| <= |full|
  {
    full[|root|..]
  }

  lemma {:induction false} NormalizeLength(done: seq<string>, segs: seq<string>)
    ensures |Join(Normalize(done, segs))| <= |Join(done)| + TotalLength(segs)
    decreases |segs|
  {
    if segs != [] {
      if segs[0] == "" || segs[0] == "." {
        NormalizeLength(done, segs[1..]);
      } else if segs[0] == ".." {
        var d := if done == [] then [] else done[..|done| - 1];
        NormalizeLength(d, segs[1..]);
        if |done| > 1 {
          assert done == d + [done[|done| - 1]];
          JoinConcat(d, [done[|done| - 1]]);
        }
      } else {
        NormalizeLength(done + [segs[0]], segs[1..]);
        if done != [] {
          JoinConcat(done, [segs[0]]);
        } else {
          assert done + [segs[0]] == [segs[0]];
        }
      }
    }
  }

  /** The length of the segments with a separator before each. */
  function TotalLength(segs: seq<string>): nat {
    if segs == [] then 0 else 1 + |segs[0]| + TotalLength(segs[1..])
  }

  lemma {:induction false} SplitLength(s: string)
    ensures TotalLength(Split(s)) == |s| + 1
  {
    if s != "" {
      SplitLength(s[1..]);
      var rest := Split(s[1..]);
      if s[0] == '/' {
        assert Split(s)[1..] == rest;
      } else {
        assert Split(s)[1..] == rest[1..];
      }
    }
  }

  /** Resolving the root-relative part of a result gives the same result, except exactly when its
      first segment begins with a backslash: that one is stripped like a separator. */
  lemma ResolveAgain(cwd: Path, root: Path, segs: seq<string>, p: Path)
    requires IsRoot(root, segs) && segs != [] && ResolveIn(cwd, root, p).Ok?
    ensures var full := ResolveIn(cwd, root, p).full;
            && |root| <= |full|
            && (ResolveIn(cwd, root, Relative(root, full)) == Ok(full)
                <==> !(|full| > |root| + 1 && full[|root| + 1] == '\\'))
  {
    ResolveInSpec(cwd, root, segs, p);
    var t := Target(segs, p);
    var full := Absolute(t);
    if t == segs {
      assert Relative(root, full) == "";
      ResolveInSpec(cwd, root, segs, "");
      assert Split("")[1..] == [];
    } else {
      var more := t[|segs|..];
      assert t == segs + more;
      PathBelow(segs, more);
      JoinStartsWith(more);
      var rel := Relative(root, full);
      assert rel == SEP + Join(more) && full[|root| + 1] == Join(more)[0];
      ResolveInSpec(cwd, root, segs, rel);
      if Join(more)[0] == '\\' {
        StrippedIsShorter(segs, more);
        LengthsDiffer(Target(segs, rel), t);
      } else {
        PlainTarget(segs, more);
      }
    }
  }

  lemma LengthsDiffer(a: seq<string>, b: seq<string>)
    requires |Join(a)| < |Join(b)|
    ensures Absolute(a) != Absolute(b)
  {
    assert |Absolute(a)| == 1 + |Join(a)| && |Absolute(b)| == 1 + |Join(b)|;
  }

  lemma PlainTarget(segs: seq<string>, more: seq<string>)
    requires AllPlain(segs) && more != [] && AllPlain(more) && Join(more) != ""
    requires Join(more)[0] != '/' && Join(more)[0] != '\\'
    ensures Target(segs, SEP + Join(more)) == segs + more
  {
    var rel := SEP + Join(more);
    assert rel[1..] == Join(more);
    assert StripLead(rel) == StripLead(Join(more)) == Join(more);
    SplitJoin(more);
    NormalizePlain(segs, more);
  }

  /** With a backslash in front, stripping loses characters that resolving never gives back. */
  lemma StrippedIsShorter(segs: seq<string>, more: seq<string>)
    requires segs != [] && more != [] && Join(more) != "" && Join(more)[0] == '\\'
    ensures |Join(Target(segs, SEP + Join(more)))| < |Join(segs + more)|
  {
    var rel, j := SEP + Join(more), Join(more);
    assert rel[1..] == j;
    assert StripLead(rel) == StripLead(j) == StripLead(j[1..]);
    StripLeadLeavesNoSep(j[1..]);
    NormalizeLength(segs, Split(StripLead(rel)));
    SplitLength(StripLead(rel));
    JoinConcat(segs, more);
  }

  /** Such a request: "./\x" is accepted as a file named "\x" under the root, which the next
      resolution takes for "x". */
  lemma BackslashIsLost(cwd: Path, root: Path, segs: seq<string>)
    requires IsRoot(root, segs) && segs != []
    ensures var full := root + SEP + "\\x";
            && ResolveIn(cwd, root, "./\\x") == Ok(full)
            && ResolveIn(cwd, root, Relative(root, full)) != Ok(full)
  {
    SplitConcat(".", "\\x");
    assert "." + SEP + "\\x" == "./\\x";
    SplitOne(".");
    SplitOne("\\x");
    assert Split("./\\x") == [".", "\\x"];
    assert [".", "\\x"][1..] == ["\\x"];
    NormalizePlain(segs, ["\\x"]);
    assert Target(segs, "./\\x") == segs + ["\\x"];
    ResolveInSpec(cwd, root, segs, "./\\x");
    PathBelow(segs, ["\\x"]);
    ResolveAgain(cwd, root, segs, "./\\x");
  }
}
