/**
 * plugin/appstore/supervisor.go: resolveUnder, the check that a manifest's
 * binary path stays inside the app's directory. filepath.Clean, Join and Abs are
 * modelled by their documented rules for Unix paths.
 */
module Paths {
  import opened Text

  /** A component an absolute clean path may hold. */
  predicate Proper(c: string)
  {
    c != "" && c != "." && c != ".." && '/' !in c
  }

  predicate AllProper(comps: seq<string>)
  {
    forall i :: 0 <= i < |comps| ==> Proper(comps[i])
  }

  /** Where one path element leads from a directory; the root is its own parent. */
  function Step(at: seq<string>, c: string): seq<string>
  {
    if c == "" || c == "." then at
    else if c == ".." then (if at == [] then [] else at[..|at| - 1])
    else at + [c]
  }

  /** Where a list of path elements leads from a directory. */
  function Walk(at: seq<string>, elems: seq<string>): seq<string>
  {
    if elems == [] then at else Step(Walk(at, elems[..|elems| - 1]), elems[|elems| - 1])
  }

  /** "/a/b" for [a, b]; empty for the root. */
  function Body(comps: seq<string>): string
  {
    if comps == [] then "" else Body(comps[..|comps| - 1]) + "/" + comps[|comps| - 1]
  }

  /** The text of an absolute directory. */
  function Render(comps: seq<string>): string
  {
    if comps == [] then "/" else Body(comps)
  }

  /** filepath.Clean of a rooted path. */
  function Clean(path: string): string
  {
    Render(Walk([], Split(path, '/')))
  }

  /** filepath.Join of a rooted path and a relative one. */
  function JoinPath(base: string, rel: string): string
  {
    Clean(base + "/" + rel)
  }

  /** The components of filepath.Abs(base) in working directory `cwd`. */
  function AbsComps(cwd: seq<string>, base: string): seq<string>
  {
    if base != "" && base[0] == '/' then Walk([], Split(base, '/')) else Walk(cwd, Split(base, '/'))
  }

  datatype Resolved = Path(path: string) | EmptyPath | AbsolutePath | Escapes

  function ResolveUnder(cwd: seq<string>, base: string, rel: string): Resolved
  {
    if rel == "" then EmptyPath
    else if rel[0] == '/' then AbsolutePath
    else
      var absBase := Render(AbsComps(cwd, base));
      var joined := Clean(JoinPath(absBase, rel));
      if joined != absBase && !HasPrefix(joined, absBase + "/") then Escapes else Path(joined)
  }

  // ---- walking ----

  /**
   * An empty element and a dot stay, two dots undo the step before, also from the
   * root, which has no parent, and any other element leads one down.
   */
  lemma {:induction false} WalkSteps(at: seq<string>, c: string)
    requires Proper(c)
    ensures Walk(at, [""]) == at && Walk(at, ["."]) == at
    ensures Walk(at, [c]) == at + [c] && Walk(at, [c, ".."]) == at
    ensures Walk([], [".."]) == [] && (at != [] ==> Walk(at, [".."]) == at[..|at| - 1])
  {
    WalkOne(at, "");
    WalkOne(at, ".");
    WalkOne(at, c);
    WalkOne(at, "..");
    WalkOne([], "..");
    var elems := [c, ".."];
    assert elems[..|elems| - 1] == [c];
    assert (at + [c])[..|at|] == at;
  }

  lemma WalkOne(at: seq<string>, c: string)
    ensures Walk(at, [c]) == Step(at, c)
  {
    var elems := [c];
    assert elems[..|elems| - 1] == [];
  }

  lemma {:induction false} WalkConcat(at: seq<string>, a: seq<string>, b: seq<string>)
    ensures Walk(at, a + b) == Walk(Walk(at, a), b)
  {
    if b == [] {
      assert a + b == a;
    } else {
      assert (a + b)[..|a + b| - 1] == a + b[..|b| - 1];
      WalkConcat(at, a, b[..|b| - 1]);
    }
  }

  /** Elements without a separator lead from a proper directory to a proper one. */
  lemma {:induction false} WalkProper(at: seq<string>, elems: seq<string>)
    requires AllProper(at) && forall i :: 0 <= i < |elems| ==> '/' !in elems[i]
    ensures AllProper(Walk(at, elems))
  {
    if elems != [] {
      WalkProper(at, elems[..|elems| - 1]);
    }
  }

  /** Proper elements are walked one by one, never up. */
  lemma {:induction false} WalkDown(at: seq<string>, comps: seq<string>)
    requires AllProper(comps)
    ensures Walk(at, comps) == at + comps
  {
    if comps != [] {
      WalkDown(at, comps[..|comps| - 1]);
      assert comps == comps[..|comps| - 1] + [comps[|comps| - 1]];
    }
  }

  // ---- text and components ----

  /** Splitting the text of a directory gives back its components, after the leading empty piece. */
  lemma {:induction false} SplitBody(comps: seq<string>)
    requires AllProper(comps)
    ensures Split(Body(comps), '/') == [""] + comps
  {
    if comps == [] {
      assert Split("", '/') == [""];
    } else {
      var n := |comps| - 1;
      SplitBody(comps[..n]);
      SplitBodySnoc(Body(comps[..n]), comps[..n], comps[n]);
      assert comps == comps[..n] + [comps[n]];
    }
  }

  lemma SplitBodySnoc(body: string, comps: seq<string>, c: string)
    requires Split(body, '/') == [""] + comps && '/' !in c
    ensures Split(body + "/" + c, '/') == [""] + (comps + [c])
  {
    SplitConcat(body, c, '/');
    SplitWhole(c, '/');
    Associate([""], comps, [c]);
  }

  lemma {:induction false} BodyConcat(a: seq<string>, b: seq<string>)
    ensures Body(a + b) == Body(a) + Body(b)
  {
    if b == [] {
      assert a + b == a;
    } else {
      assert (a + b)[..|a + b| - 1] == a + b[..|b| - 1];
      BodyConcat(a, b[..|b| - 1]);
    }
  }

  /** Walking the text of a directory leads to it, so Clean leaves it alone. */
  lemma WalkRendered(comps: seq<string>)
    requires AllProper(comps)
    ensures Walk([], Split(Render(comps), '/')) == comps
  {
    SplitBody(comps);
    if comps == [] {
      SplitConcat("", "", '/');
      assert "" + "/" + "" == "/";
      assert Split("/", '/') == ["", ""];
      assert ["", ""][..1] == [""];
      assert [""][..0] == [];
      assert Walk([], [""]) == [];
    } else {
      WalkConcat([], [""], comps);
      assert [""][..0] == [];
      assert Walk([], [""]) == [];
      WalkDown([], comps);
      assert [] + comps == comps;
    }
  }

  /** Joining and cleaning is walking the relative elements from the base. */
  lemma JoinWalks(base: seq<string>, rel: string)
    requires AllProper(base)
    ensures AllProper(Walk(base, Split(rel, '/')))
    ensures Clean(JoinPath(Render(base), rel)) == Render(Walk(base, Split(rel, '/')))
  {
    SplitConcat(Render(base), rel, '/');
    WalkConcat([], Split(Render(base), '/'), Split(rel, '/'));
    WalkRendered(base);
    SplitLacks(rel, '/');
    WalkProper(base, Split(rel, '/'));
    WalkRendered(Walk(base, Split(rel, '/')));
  }

  /** A component prefix shows as a textual prefix up to a separator. */
  lemma PrefixShows(base: seq<string>, tail: seq<string>)
    requires tail != []
    ensures HasPrefix(Body(base + tail), Body(base) + "/")
  {
    BodyConcat(base, tail);
    BodyConcat([tail[0]], tail[1..]);
    assert tail == [tail[0]] + tail[1..];
    assert [tail[0]][..0] == [];
    assert Body([tail[0]]) == "" + "/" + tail[0];
    assert Body(tail)[0] == '/';
  }

  /** A textual prefix up to a separator is a component prefix. */
  lemma PrefixRead(base: seq<string>, w: seq<string>)
    requires AllProper(base) && AllProper(w)
    requires HasPrefix(Body(w), Body(base) + "/")
    ensures base <= w
  {
    var rest := Body(w)[|Body(base) + "/"|..];
    PrefixRest(Body(w), Body(base) + "/");
    PiecesPrefix(base, w, Body(base), Body(w), rest);
  }

  lemma PiecesPrefix(base: seq<string>, w: seq<string>, baseText: string, text: string, rest: string)
    requires AllProper(base) && AllProper(w)
    requires baseText == Body(base) && text == Body(w) && text == baseText + "/" + rest
    ensures base <= w
  {
    SplitBody(base);
    SplitBody(w);
    SplitConcat(baseText, rest, '/');
    Associate([""], base, Split(rest, '/'));
    SameTail(w, base + Split(rest, '/'));
  }

  lemma SameTail(a: seq<string>, b: seq<string>)
    requires [""] + a == [""] + b
    ensures a == b
  {
    assert a == ([""] + a)[1..] && b == ([""] + b)[1..];
  }

  lemma BodyInjective(a: seq<string>, b: seq<string>)
    requires AllProper(a) && AllProper(b) && Body(a) == Body(b)
    ensures a == b
  {
    SplitBody(a);
    SplitBody(b);
    SameTail(a, b);
  }

  /** The separator-prefix test on texts agrees with component prefix, for any directory but the root. */
  lemma TextAgreesWithComponents(base: seq<string>, w: seq<string>)
    requires AllProper(base) && AllProper(w) && base != []
    ensures Render(w) == Render(base) || HasPrefix(Render(w), Render(base) + "/") <==> base <= w
  {
    if w == [] {
      BodyLong(base);
    } else if base <= w {
      var tail := w[|base|..];
      assert w == base + tail;
      if tail == [] {
        assert w == base;
      } else {
        PrefixShows(base, tail);
      }
    } else if Body(w) == Body(base) {
      BodyInjective(w, base);
    } else if HasPrefix(Body(w), Body(base) + "/") {
      PrefixRead(base, w);
    }
  }

  lemma {:induction false} BodyLong(comps: seq<string>)
    requires AllProper(comps) && comps != []
    ensures |Body(comps)| >= 2 && Body(comps)[0] == '/' && Body(comps)[1] != '/'
  {
    if |comps| == 1 {
      assert comps[..0] == [];
      assert Body(comps) == "" + "/" + comps[0];
      assert comps[0][0] in comps[0];
    } else {
      BodyLong(comps[..|comps| - 1]);
    }
  }

  // ---- the theorem ----

  lemma AbsProper(cwd: seq<string>, base: string)
    requires AllProper(cwd)
    ensures AllProper(AbsComps(cwd, base))
  {
    SplitLacks(base, '/');
    WalkProper([], Split(base, '/'));
    WalkProper(cwd, Split(base, '/'));
  }

  /**
   * For every base other than the root and every non-empty relative path, the
   * check succeeds exactly when walking the path's elements from the base ends at
   * or below it, and then it returns where the walk ends. Paths that leave the
   * base and come back are accepted.
   */
  lemma ResolveUnderIsContainment(cwd: seq<string>, base: string, rel: string)
    requires AllProper(cwd) && rel != "" && rel[0] != '/'
    requires AbsComps(cwd, base) != []
    ensures var dir := AbsComps(cwd, base);
            var end := Walk(dir, Split(rel, '/'));
            ResolveUnder(cwd, base, rel) == if dir <= end then Path(Render(end)) else Escapes
  {
    var dir := AbsComps(cwd, base);
    AbsProper(cwd, base);
    JoinWalks(dir, rel);
    TextAgreesWithComponents(dir, Walk(dir, Split(rel, '/')));
  }

  lemma RootTest(w: seq<string>)
    requires AllProper(w)
    ensures Render(w) == "/" || HasPrefix(Render(w), "//") <==> w == []
  {
    if w != [] {
      BodyLong(w);
    }
  }

  /** Under the root the same test accepts only paths that end at the root itself. */
  lemma ResolveUnderRoot(cwd: seq<string>, base: string, rel: string)
    requires AllProper(cwd) && rel != "" && rel[0] != '/'
    requires AbsComps(cwd, base) == []
    ensures ResolveUnder(cwd, base, rel).Path? <==> Walk([], Split(rel, '/')) == []
  {
    JoinWalks([], rel);
    RootTest(Walk([], Split(rel, '/')));
  }

  /** An absolute base is walked from the root and any other from the working directory. */
  lemma AbsMeans(cwd: seq<string>, base: string)
    requires AllProper(cwd)
    ensures Render(AbsComps(cwd, "/" + base)) == Clean("/" + base)
    ensures base == "" || base[0] != '/' ==> Render(AbsComps(cwd, base)) == Clean(JoinPath(Render(cwd), base))
  {
    JoinWalks(cwd, base);
  }

  /** So whatever the base, a path that is resolved ends at or below it. */
  lemma ResolvedInside(cwd: seq<string>, base: string, rel: string) returns (end: seq<string>)
    requires AllProper(cwd) && ResolveUnder(cwd, base, rel).Path?
    ensures AbsComps(cwd, base) <= end && ResolveUnder(cwd, base, rel).path == Render(end)
  {
    var at := AbsComps(cwd, base);
    end := Walk(at, Split(rel, '/'));
    AbsProper(cwd, base);
    JoinWalks(at, rel);
    if at != [] {
      ResolveUnderIsContainment(cwd, base, rel);
    }
  }

  /** Elements without ".." never leave the directory they start from. */
  lemma {:induction false} NoDotsStaysInside(at: seq<string>, elems: seq<string>)
    requires ".." !in elems
    ensures at <= Walk(at, elems)
  {
    if elems != [] {
      NoDotsStaysInside(at, elems[..|elems| - 1]);
    }
  }

  /** A ".." element shows in the text. */
  lemma {:induction false} DotsShow(s: string)
    requires ".." in Split(s, '/')
    ensures Contains(s, "..")
    decreases |s|
  {
    var i := IndexOf(s, '/');
    if i == |s| {
      assert HasPrefix(s[0..], "..");
    } else if s[..i] == ".." {
      assert HasPrefix(s[0..], "..");
    } else {
      var rest := s[i + 1..];
      DotsShow(rest);
      var k :| 0 <= k <= |rest| && HasPrefix(rest[k..], "..");
      assert s[i + 1 + k..] == rest[k..];
    }
  }
}
