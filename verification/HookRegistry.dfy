/**
 * pkg/extend/extend.go: the hook registry. Each hook point's list is kept sorted
 * by re-sorting on every Register and filtering in place on every removal; it is
 * proved to be one stable sort of the surviving registrations.
 */
module HookRegistry {
  import opened Seqs
  import opened Text

  datatype Flag = Flag(name: string, kind: string, help: string)

  datatype Extension = Extension(
    appID: string, primitive: string, methodName: string, addsFlags: seq<Flag>, order: int, version: string)

  // ---- the stable sort ----

  /** Puts `x` behind every element whose Order is not greater. */
  function Insert(s: seq<Extension>, x: Extension): (r: seq<Extension>)
    ensures |r| == |s| + 1
  {
    if s == [] || s[|s| - 1].order <= x.order then s + [x]
    else Insert(s[..|s| - 1], x) + [s[|s| - 1]]
  }

  function StableSort(xs: seq<Extension>): (r: seq<Extension>)
    ensures |r| == |xs|
  {
    if xs == [] then [] else Insert(StableSort(xs[..|xs| - 1]), xs[|xs| - 1])
  }

  ghost predicate Sorted(s: seq<Extension>)
  {
    |s| <= 1 || (Sorted(s[..|s| - 1]) && s[|s| - 2].order <= s[|s| - 1].order)
  }

  /** The elements with one Order, in list order. */
  function OfOrder(s: seq<Extension>, o: int): seq<Extension>
  {
    if s == [] then []
    else if s[|s| - 1].order == o then OfOrder(s[..|s| - 1], o) + [s[|s| - 1]]
    else OfOrder(s[..|s| - 1], o)
  }

  lemma {:induction false} InsertSorted(s: seq<Extension>, x: Extension)
    requires Sorted(s)
    ensures Sorted(Insert(s, x))
    ensures Insert(s, x)[|s|].order == if s == [] || s[|s| - 1].order <= x.order then x.order else s[|s| - 1].order
  {
    if s == [] || s[|s| - 1].order <= x.order {
      assert (s + [x])[..|s|] == s;
    } else {
      var n := |s| - 1;
      InsertSorted(s[..n], x);
      assert (Insert(s[..n], x) + [s[n]])[..|s|] == Insert(s[..n], x);
    }
  }

  /** Nothing in a sorted list is above its last Order, which it does hold. */
  lemma {:induction false} SortedLast(s: seq<Extension>, o: int)
    requires Sorted(s)
    ensures s != [] && s[|s| - 1].order < o ==> OfOrder(s, o) == []
    ensures s != [] ==> OfOrder(s, s[|s| - 1].order) != []
  {
    if |s| > 1 {
      SortedLast(s[..|s| - 1], o);
    } else if |s| == 1 {
      assert s[..0] == [];
    }
  }

  lemma OfOrderSnoc(s: seq<Extension>, x: Extension, o: int)
    ensures OfOrder(s + [x], o) == if x.order == o then OfOrder(s, o) + [x] else OfOrder(s, o)
  {
    assert (s + [x])[..|s|] == s;
  }

  lemma {:induction false} InsertStable(s: seq<Extension>, x: Extension, o: int)
    requires Sorted(s)
    ensures OfOrder(Insert(s, x), o) == OfOrder(s + [x], o)
  {
    OfOrderSnoc(s, x, o);
    if s != [] && s[|s| - 1].order > x.order {
      var n := |s| - 1;
      InsertStable(s[..n], x, o);
      OfOrderSnoc(s[..n], x, o);
      OfOrderSnoc(Insert(s[..n], x), s[n], o);
    }
  }

  /** StableSort sorts, and keeps the list order among equals. */
  lemma {:induction false} StableSortSpec(xs: seq<Extension>, o: int)
    ensures Sorted(StableSort(xs))
    ensures OfOrder(StableSort(xs), o) == OfOrder(xs, o)
  {
    if xs != [] {
      var n := |xs| - 1;
      StableSortSpec(xs[..n], o);
      InsertSorted(StableSort(xs[..n]), xs[n]);
      InsertStable(StableSort(xs[..n]), xs[n], o);
      OfOrderSnoc(StableSort(xs[..n]), xs[n], o);
    }
  }

  ghost predicate AgreeAt(s: seq<Extension>, t: seq<Extension>, o: int)
  {
    OfOrder(s, o) == OfOrder(t, o)
  }

  /** Sorted lists that agree Order by Order end alike. */
  lemma SameLastOrder(s: seq<Extension>, t: seq<Extension>)
    requires Sorted(s) && Sorted(t)
    requires forall o :: AgreeAt(s, t, o)
    ensures s == [] <==> t == []
    ensures s != [] && t != [] ==> s[|s| - 1].order == t[|t| - 1].order
  {
    assert t != [] ==> AgreeAt(s, t, t[|t| - 1].order);
    assert s != [] ==> AgreeAt(s, t, s[|s| - 1].order);
    SortedLast(s, if t == [] then 0 else t[|t| - 1].order);
    SortedLast(t, if s == [] then 0 else s[|s| - 1].order);
  }

  /** Sorted lists that agree Order by Order are equal, so any stable sort is this one. */
  lemma {:induction false} StableSortUnique(s: seq<Extension>, t: seq<Extension>)
    requires Sorted(s) && Sorted(t)
    requires forall o :: AgreeAt(s, t, o)
    ensures s == t
    decreases |s|
  {
    SameLastOrder(s, t);
    if s != [] {
      var x, y := s[|s| - 1], t[|t| - 1];
      var front, back := s[..|s| - 1], t[..|t| - 1];
      assert AgreeAt(s, t, x.order);
      SnocInjective(OfOrder(front, x.order), OfOrder(back, x.order), x, y);
      forall o ensures AgreeAt(front, back, o) {
        assert AgreeAt(s, t, o);
      }
      StableSortUnique(front, back);
      assert s == front + [x] && t == back + [y];
    }
  }

  lemma SnocInjective(a: seq<Extension>, b: seq<Extension>, x: Extension, y: Extension)
    requires a + [x] == b + [y]
    ensures a == b && x == y
  {
    assert a == (a + [x])[..|a + [x]| - 1] && b == (b + [y])[..|b + [y]| - 1];
    assert x == (a + [x])[|a|] && y == (b + [y])[|b|];
  }

  lemma {:induction false} SortedIsFixed(s: seq<Extension>)
    requires Sorted(s)
    ensures StableSort(s) == s
  {
    if s != [] {
      SortedIsFixed(s[..|s| - 1]);
      assert s == s[..|s| - 1] + [s[|s| - 1]];
    }
  }

  // ---- removals ----

  /** What a removal call names: all hooks of an app, or one (app, point, method) triple. */
  datatype Removal = OfApp(appID: string) | OneHook(appID: string, primitive: string, methodName: string)

  predicate Keeps(d: Removal, e: Extension)
  {
    match d
    case OfApp(a) => e.appID != a
    case OneHook(a, p, m) => !(e.appID == a && e.primitive == p && e.methodName == m)
  }

  /** A list without what a removal names. */
  function Without(s: seq<Extension>, d: Removal): (r: seq<Extension>)
  {
    if s == [] then []
    else if Keeps(d, s[|s| - 1]) then Without(s[..|s| - 1], d) + [s[|s| - 1]]
    else Without(s[..|s| - 1], d)
  }

  /** The registrations at one hook point. */
  function At(s: seq<Extension>, p: string): (r: seq<Extension>)
  {
    if s == [] then []
    else if s[|s| - 1].primitive == p then At(s[..|s| - 1], p) + [s[|s| - 1]]
    else At(s[..|s| - 1], p)
  }

  lemma WithoutSnoc(s: seq<Extension>, x: Extension, d: Removal)
    ensures Without(s + [x], d) == if Keeps(d, x) then Without(s, d) + [x] else Without(s, d)
  {
    assert (s + [x])[..|s|] == s;
  }

  lemma AtSnoc(s: seq<Extension>, x: Extension, p: string)
    ensures At(s + [x], p) == if x.primitive == p then At(s, p) + [x] else At(s, p)
  {
    assert (s + [x])[..|s|] == s;
  }

  lemma {:induction false} AtWithout(s: seq<Extension>, p: string, d: Removal)
    ensures At(Without(s, d), p) == Without(At(s, p), d)
  {
    if s != [] {
      var n := |s| - 1;
      AtWithout(s[..n], p, d);
      AtSnoc(Without(s[..n], d), s[n], p);
      WithoutSnoc(At(s[..n], p), s[n], d);
    }
  }

  lemma {:induction false} WithoutElsewhere(s: seq<Extension>, p: string, d: Removal)
    requires d.OneHook? && d.primitive != p
    ensures Without(At(s, p), d) == At(s, p)
  {
    if s != [] {
      var n := |s| - 1;
      WithoutElsewhere(s[..n], p, d);
      WithoutSnoc(At(s[..n], p), s[n], d);
    }
  }

  lemma InsertBelow(w: seq<Extension>, last: Extension, x: Extension)
    requires last.order > x.order
    ensures Insert(w + [last], x) == Insert(w, x) + [last]
  {
    assert (w + [last])[..|w|] == w;
  }

  /** Filtering before or after an insertion is the same. */
  lemma {:induction false} InsertWithout(s: seq<Extension>, x: Extension, d: Removal)
    requires Sorted(s)
    ensures Without(Insert(s, x), d) == if Keeps(d, x) then Insert(Without(s, d), x) else Without(s, d)
  {
    if s == [] || s[|s| - 1].order <= x.order {
      WithoutSnoc(s, x, d);
      WithoutBounded(s, d, x.order);
    } else {
      var n := |s| - 1;
      InsertWithout(s[..n], x, d);
      WithoutSnoc(Insert(s[..n], x), s[n], d);
      InsertBelow(Without(s[..n], d), s[n], x);
    }
  }

  /** A filtered sorted list still ends at or below its last Order. */
  lemma {:induction false} WithoutBounded(s: seq<Extension>, d: Removal, o: int)
    requires Sorted(s) && (s != [] ==> s[|s| - 1].order <= o)
    ensures var w := Without(s, d); w != [] ==> w[|w| - 1].order <= o
  {
    if s != [] {
      WithoutBounded(s[..|s| - 1], d, o);
    }
  }

  /** The in-place filters lose, duplicate and reorder nothing: they commute with the sort. */
  lemma {:induction false} SortWithout(xs: seq<Extension>, d: Removal)
    ensures Without(StableSort(xs), d) == StableSort(Without(xs, d))
  {
    if xs != [] {
      var n := |xs| - 1;
      SortWithout(xs[..n], d);
      StableSortSpec(xs[..n], 0);
      InsertWithout(StableSort(xs[..n]), xs[n], d);
      if Keeps(d, xs[n]) {
        var w := Without(xs[..n], d);
        assert (w + [xs[n]])[..|w|] == w;
      }
    }
  }

  // ---- histories ----

  datatype Op = Add(ext: Extension) | Remove(removal: Removal)

  /** The i-th call added a hook that no later call removed. */
  ghost predicate Survives(ops: seq<Op>, i: nat)
    requires i < |ops|
  {
    ops[i].Add? && forall j :: i < j < |ops| && ops[j].Remove? ==> Keeps(ops[j].removal, ops[i].ext)
  }

  /** The surviving registrations among the first n calls, in registration order. */
  ghost function SurvivorsAmong(ops: seq<Op>, n: nat): seq<Extension>
    requires n <= |ops|
  {
    if n == 0 then []
    else if Survives(ops, n - 1) then SurvivorsAmong(ops, n - 1) + [ops[n - 1].ext]
    else SurvivorsAmong(ops, n - 1)
  }

  ghost function Survivors(ops: seq<Op>): seq<Extension>
  {
    SurvivorsAmong(ops, |ops|)
  }

  lemma SurvivesStep(ops: seq<Op>, op: Op, i: nat)
    requires i < |ops|
    ensures Survives(ops + [op], i) <==> Survives(ops, i) && (op.Remove? ==> Keeps(op.removal, ops[i].ext))
  {
    var ops' := ops + [op];
    if Survives(ops', i) {
      forall j | i < j < |ops| && ops[j].Remove? ensures Keeps(ops[j].removal, ops[i].ext) {
        assert ops'[j] == ops[j];
      }
      assert ops'[|ops|] == op;
    }
  }

  lemma {:induction false} SurvivorsStep(ops: seq<Op>, op: Op, n: nat)
    requires n <= |ops|
    ensures SurvivorsAmong(ops + [op], n)
         == if op.Remove? then Without(SurvivorsAmong(ops, n), op.removal) else SurvivorsAmong(ops, n)
  {
    if n > 0 {
      SurvivorsStep(ops, op, n - 1);
      SurvivesStep(ops, op, n - 1);
      if Survives(ops, n - 1) && op.Remove? {
        WithoutSnoc(SurvivorsAmong(ops, n - 1), ops[n - 1].ext, op.removal);
      }
    }
  }

  lemma SurvivorsAfter(ops: seq<Op>, op: Op)
    ensures Survivors(ops + [op]) == match op
      case Add(e) => Survivors(ops) + [e]
      case Remove(d) => Without(Survivors(ops), d)
  {
    SurvivorsStep(ops, op, |ops|);
  }

  // ---- what a removal takes, and what it leaves ----

  /** The extension is this app's hook of this method at this point. */
  predicate IsTriple(x: Extension, appID: string, primitive: string, methodName: string)
  {
    x.appID == appID && x.primitive == primitive && x.methodName == methodName
  }

  /** Removing a triple takes every registration of it, and leaves every other as often as it was. */
  lemma {:induction false} WithoutTriple(s: seq<Extension>, appID: string, primitive: string, methodName: string,
                                         x: Extension)
    ensures multiset(Without(s, OneHook(appID, primitive, methodName)))[x]
         == if IsTriple(x, appID, primitive, methodName) then 0 else multiset(s)[x]
  {
    if s != [] {
      var n := |s| - 1;
      WithoutTriple(s[..n], appID, primitive, methodName, x);
      assert s == s[..n] + [s[n]];
    }
  }

  /** Removing an app takes every registration of it, and leaves every other as often as it was. */
  lemma {:induction false} WithoutApp(s: seq<Extension>, appID: string, x: Extension)
    ensures multiset(Without(s, OfApp(appID)))[x] == if x.appID == appID then 0 else multiset(s)[x]
  {
    if s != [] {
      var n := |s| - 1;
      WithoutApp(s[..n], appID, x);
      assert s == s[..n] + [s[n]];
    }
  }

  /** The call removes this extension: its app, or exactly its triple. */
  predicate Takes(op: Op, x: Extension)
  {
    || op == Remove(OfApp(x.appID))
    || op == Remove(OneHook(x.appID, x.primitive, x.methodName))
  }

  /** A registration survives if and only if no later call removes its app or its triple. */
  lemma SurvivesIff(ops: seq<Op>, i: nat)
    requires i < |ops|
    ensures Survives(ops, i) <==> ops[i].Add? && forall j :: i < j < |ops| ==> !Takes(ops[j], ops[i].ext)
  {
    if ops[i].Add? {
      forall j | i < j < |ops| && ops[j].Remove?
        ensures Keeps(ops[j].removal, ops[i].ext) <==> !Takes(ops[j], ops[i].ext)
      {
      }
    }
  }

  lemma {:induction false} InsertMultiset(s: seq<Extension>, x: Extension)
    ensures multiset(Insert(s, x)) == multiset(s) + multiset{x}
  {
    if s != [] && s[|s| - 1].order > x.order {
      var n := |s| - 1;
      InsertMultiset(s[..n], x);
      assert s == s[..n] + [s[n]];
    }
  }

  lemma {:induction false} SortMultiset(xs: seq<Extension>)
    ensures multiset(StableSort(xs)) == multiset(xs)
  {
    if xs != [] {
      var n := |xs| - 1;
      SortMultiset(xs[..n]);
      InsertMultiset(StableSort(xs[..n]), xs[n]);
      assert xs == xs[..n] + [xs[n]];
    }
  }

  lemma {:induction false} AtMultiset(s: seq<Extension>, p: string, x: Extension)
    ensures multiset(At(s, p))[x] == if x.primitive == p then multiset(s)[x] else 0
  {
    if s != [] {
      var n := |s| - 1;
      AtMultiset(s[..n], p, x);
      assert s == s[..n] + [s[n]];
    }
  }

  /** The hooks of a point, in run order, after a history of the registry. */
  ghost function HooksAt(ops: seq<Op>, point: string): seq<Extension>
  {
    StableSort(At(Survivors(ops), point))
  }

  /** A point runs each surviving registration of its own exactly as often as it survives, and no other. */
  lemma HooksMultiset(ops: seq<Op>, p: string, x: Extension)
    ensures multiset(HooksAt(ops, p))[x] == if x.primitive == p then multiset(Survivors(ops))[x] else 0
  {
    SortMultiset(At(Survivors(ops), p));
    AtMultiset(Survivors(ops), p, x);
  }

  /** Every point runs what it ran, as often, but for that triple. */
  ghost predicate OnlyTripleGone(was: seq<Op>, ops: seq<Op>, appID: string, primitive: string, methodName: string)
  {
    forall p, x :: multiset(HooksAt(ops, p))[x] ==
      if IsTriple(x, appID, primitive, methodName) then 0 else multiset(HooksAt(was, p))[x]
  }

  /** Every point runs what it ran, as often, but for that app's hooks. */
  ghost predicate OnlyAppGone(was: seq<Op>, ops: seq<Op>, appID: string)
  {
    forall p, x :: multiset(HooksAt(ops, p))[x] == if x.appID == appID then 0 else multiset(HooksAt(was, p))[x]
  }

  lemma HooksAfterUnregisterOne(ops: seq<Op>, appID: string, primitive: string, methodName: string)
    ensures OnlyTripleGone(ops, ops + [Remove(OneHook(appID, primitive, methodName))], appID, primitive, methodName)
  {
    var op := Remove(OneHook(appID, primitive, methodName));
    SurvivorsAfter(ops, op);
    forall p, x ensures multiset(HooksAt(ops + [op], p))[x] ==
        (if IsTriple(x, appID, primitive, methodName) then 0 else multiset(HooksAt(ops, p))[x]) {
      WithoutTriple(Survivors(ops), appID, primitive, methodName, x);
      HooksMultiset(ops, p, x);
      HooksMultiset(ops + [op], p, x);
    }
  }

  lemma HooksAfterUnregister(ops: seq<Op>, appID: string)
    ensures OnlyAppGone(ops, ops + [Remove(OfApp(appID))], appID)
  {
    var op := Remove(OfApp(appID));
    SurvivorsAfter(ops, op);
    forall p, x ensures multiset(HooksAt(ops + [op], p))[x] ==
        (if x.appID == appID then 0 else multiset(HooksAt(ops, p))[x]) {
      WithoutApp(Survivors(ops), appID, x);
      HooksMultiset(ops, p, x);
      HooksMultiset(ops + [op], p, x);
    }
  }

  // ---- counting ----

  function CountApp(s: seq<Extension>, appID: string): nat
  {
    if s == [] then 0 else CountApp(s[..|s| - 1], appID) + (if s[|s| - 1].appID == appID then 1 else 0)
  }

  lemma CountSnoc(s: seq<Extension>, x: Extension, appID: string)
    ensures CountApp(s + [x], appID) == CountApp(s, appID) + (if x.appID == appID then 1 else 0)
  {
    assert (s + [x])[..|s|] == s;
  }

  lemma {:induction false} CountSorted(xs: seq<Extension>, appID: string)
    ensures CountApp(StableSort(xs), appID) == CountApp(xs, appID)
  {
    if xs != [] {
      CountSorted(xs[..|xs| - 1], appID);
      CountInsert(StableSort(xs[..|xs| - 1]), xs[|xs| - 1], appID);
    }
  }

  lemma {:induction false} CountInsert(s: seq<Extension>, x: Extension, appID: string)
    ensures CountApp(Insert(s, x), appID) == CountApp(s, appID) + (if x.appID == appID then 1 else 0)
  {
    CountSnoc(s, x, appID);
    if s != [] && s[|s| - 1].order > x.order {
      CountInsert(s[..|s| - 1], x, appID);
      CountSnoc(Insert(s[..|s| - 1], x), s[|s| - 1], appID);
    }
  }

  /** The hooks of an app at the given points. */
  function CountAtPoints(s: seq<Extension>, appID: string, points: set<string>): nat
  {
    if s == [] then 0
    else CountAtPoints(s[..|s| - 1], appID, points)
         + (if s[|s| - 1].appID == appID && s[|s| - 1].primitive in points then 1 else 0)
  }

  /** One more point adds the hooks at that point. */
  lemma {:induction false} CountOnePoint(s: seq<Extension>, appID: string, points: set<string>, p: string)
    requires p !in points
    ensures CountAtPoints(s, appID, points + {p}) == CountAtPoints(s, appID, points) + CountApp(At(s, p), appID)
  {
    if s != [] {
      var n := |s| - 1;
      CountOnePoint(s[..n], appID, points, p);
      CountSnoc(At(s[..n], p), s[n], appID);
    }
  }

  lemma {:induction false} CountAllPoints(s: seq<Extension>, appID: string, points: set<string>)
    requires forall i :: 0 <= i < |s| ==> s[i].primitive in points
    ensures CountAtPoints(s, appID, points) == CountApp(s, appID)
  {
    if s != [] {
      CountAllPoints(s[..|s| - 1], appID, points);
    }
  }

  lemma {:induction false} CountNoPoints(s: seq<Extension>, appID: string)
    ensures CountAtPoints(s, appID, {}) == 0
  {
    if s != [] {
      CountNoPoints(s[..|s| - 1], appID);
    }
  }

  lemma {:induction false} AtHolds(s: seq<Extension>, i: nat)
    requires i < |s|
    ensures At(s, s[i].primitive) != []
  {
    if i < |s| - 1 {
      AtHolds(s[..|s| - 1], i);
    }
  }

  // ---- shapes Register accepts ----

  predicate IsSegmentChar(c: char)
  {
    'a' <= c <= 'z' || '0' <= c <= '9' || c == '_' || c == '-'
  }

  predicate IsSegment(s: string)
  {
    s != "" && forall i :: 0 <= i < |s| ==> IsSegmentChar(s[i])
  }

  /** "<segment>(.<segment>)*.(pre|post)" */
  predicate IsValid(s: string)
  {
    var parts := Split(s, '.');
    && |parts| >= 2
    && parts[|parts| - 1] in {"pre", "post"}
    && forall i :: 0 <= i < |parts| - 1 ==> IsSegment(parts[i])
  }

  predicate FlagOk(f: Flag)
  {
    HasPrefix(f.name, "--") && f.kind in {"string", "bool", "int"}
  }

  datatype Registered = Accepted | MalformedPoint | MethodRequired | AppRequired | BadFlag(flag: Flag)

  /** What Register answers, by its checks in order. */
  predicate Acceptable(e: Extension)
  {
    && IsValid(e.primitive)
    && TrimSpace(e.methodName) != "" && TrimSpace(e.appID) != ""
    && forall i :: 0 <= i < |e.addsFlags| ==> FlagOk(e.addsFlags[i])
  }

  /** Segments that are words, and then a phase, joined by dots. */
  ghost predicate Spells(s: string, segments: seq<string>, phase: string)
  {
    && segments != [] && (phase == "pre" || phase == "post")
    && (forall i :: 0 <= i < |segments| ==> IsWord(segments[i]))
    && s == Join(segments + [phase], '.')
  }

  ghost predicate Pointed(s: string)
  {
    exists segments, phase :: Spells(s, segments, phase)
  }

  /** Lower-case letters, digits, the hyphen and the underscore, by their codes. */
  predicate IsWord(s: string)
  {
    |s| > 0 && forall i :: 0 <= i < |s| ==>
      var n := s[i] as int; 97 <= n <= 122 || 48 <= n <= 57 || n == 45 || n == 95
  }

  lemma WordIsSegment(s: string)
    ensures IsWord(s) <==> IsSegment(s)
  {
    forall i | 0 <= i < |s| ensures IsSegmentChar(s[i]) <==>
      var n := s[i] as int; 97 <= n <= 122 || 48 <= n <= 57 || n == 45 || n == 95 {
    }
  }

  lemma ValidIsSpelled(s: string)
    requires IsValid(s)
    ensures Pointed(s)
  {
    var parts := Split(s, '.');
    var segments, phase := parts[..|parts| - 1], parts[|parts| - 1];
    JoinSplit(s, '.');
    assert parts == segments + [phase];
    forall i | 0 <= i < |segments| ensures IsWord(segments[i]) {
      WordIsSegment(segments[i]);
    }
    assert Spells(s, segments, phase);
  }

  lemma SpelledIsValid(s: string, segments: seq<string>, phase: string)
    requires Spells(s, segments, phase)
    ensures IsValid(s)
  {
    var parts := segments + [phase];
    forall i | 0 <= i < |segments| ensures IsSegment(segments[i]) && '.' !in segments[i] {
      WordIsSegment(segments[i]);
    }
    assert '.' !in phase;
    SplitJoin(parts, '.');
  }

  /** The well-formed points are exactly those. */
  lemma ValidIff(s: string)
    ensures IsValid(s) <==> Pointed(s)
  {
    if IsValid(s) {
      ValidIsSpelled(s);
    }
    if Pointed(s) {
      var segments, phase :| Spells(s, segments, phase);
      SpelledIsValid(s, segments, phase);
    }
  }

  /** Nothing but white space. */
  predicate Blank(s: string)
  {
    forall i :: 0 <= i < |s| ==> IsSpace(s[i])
  }

  lemma TrimmedBlank(s: string)
    ensures TrimSpace(s) == "" <==> Blank(s)
  {
    TrimLeftBlank(s);
    if TrimLeft(s) != "" {
      TrimRightKeeps(TrimLeft(s));
    }
  }

  lemma {:induction false} TrimLeftBlank(s: string)
    ensures TrimLeft(s) == "" <==> Blank(s)
    ensures TrimLeft(s) != "" ==> !IsSpace(TrimLeft(s)[0])
  {
    if s != [] && IsSpace(s[0]) {
      TrimLeftBlank(s[1..]);
      assert forall i :: 0 <= i < |s| - 1 ==> s[i + 1] == s[1..][i];
    }
  }

  lemma {:induction false} TrimRightKeeps(s: string)
    requires s != "" && !IsSpace(s[0])
    ensures TrimRight(s) != ""
  {
    if |s| > 1 && IsSpace(s[|s| - 1]) {
      TrimRightKeeps(s[..|s| - 1]);
    }
  }

  /** A flag starts with two hyphens and is of one of three kinds. */
  predicate Flagged(f: Flag)
  {
    && |f.name| >= 2 && f.name[0] == '-' && f.name[1] == '-'
    && (f.kind == "string" || f.kind == "bool" || f.kind == "int")
  }

  lemma FlagOkIff(f: Flag)
    ensures FlagOk(f) <==> Flagged(f)
  {
    if |f.name| >= 2 {
      assert f.name[..2] == [f.name[0], f.name[1]];
    }
  }

  /** A segment and a phase make a well-formed point. */
  lemma SegmentPoint(segment: string)
    requires IsSegment(segment)
    ensures IsValid(segment + ['.'] + "pre")
  {
    assert '.' !in segment;
    SplitPiece(segment, "pre", '.');
    SplitWhole("pre", '.');
  }

  lemma NotBlank(s: string)
    requires s != "" && !IsSpace(s[0]) && !IsSpace(s[|s| - 1])
    ensures TrimSpace(s) != ""
  {
  }

  /** There are acceptable extensions of every app, segment and method that are words. */
  lemma SomeAcceptable(appID: string, segment: string, methodName: string) returns (e: Extension)
    requires IsSegment(appID) && IsSegment(segment) && IsSegment(methodName)
    ensures Acceptable(e) && e.appID == appID
  {
    e := Extension(appID, segment + ['.'] + "pre", methodName, [], 0, "");
    SegmentPoint(segment);
    NotBlank(appID);
    NotBlank(methodName);
  }

  predicate AllFlagged(flags: seq<Flag>)
  {
    forall i :: 0 <= i < |flags| ==> Flagged(flags[i])
  }

  predicate FirstBadAt(flags: seq<Flag>, i: nat)
  {
    i < |flags| && !Flagged(flags[i]) && AllFlagged(flags[..i])
  }

  /** What Register refuses an extension for: the first of its checks that fails. */
  ghost predicate FirstRefusal(r: Registered, e: Extension)
  {
    if !Pointed(e.primitive) then r == MalformedPoint
    else if Blank(e.methodName) then r == MethodRequired
    else if Blank(e.appID) then r == AppRequired
    else if AllFlagged(e.addsFlags) then r == Accepted
    else exists i: nat :: FirstBadAt(e.addsFlags, i) && r == BadFlag(e.addsFlags[i])
  }

  lemma AcceptableIff(e: Extension)
    ensures Acceptable(e) <==>
      Pointed(e.primitive) && !Blank(e.methodName) && !Blank(e.appID) && AllFlagged(e.addsFlags)
  {
    ValidIff(e.primitive);
    TrimmedBlank(e.methodName);
    TrimmedBlank(e.appID);
    forall i | 0 <= i < |e.addsFlags| ensures FlagOk(e.addsFlags[i]) <==> Flagged(e.addsFlags[i]) {
      FlagOkIff(e.addsFlags[i]);
    }
  }

  /** Accepts exactly the well-formed extensions, and otherwise names what fails first. */
  method CheckExtension(ext: Extension) returns (r: Registered)
    ensures r.Accepted? <==> Acceptable(ext)
    ensures FirstRefusal(r, ext)
  {
    AcceptableIff(ext);
    ValidIff(ext.primitive);
    TrimmedBlank(ext.methodName);
    TrimmedBlank(ext.appID);
    if !IsValid(ext.primitive) {
      return MalformedPoint;
    }
    if TrimSpace(ext.methodName) == "" {
      return MethodRequired;
    }
    if TrimSpace(ext.appID) == "" {
      return AppRequired;
    }
    for i := 0 to |ext.addsFlags|
      invariant AllFlagged(ext.addsFlags[..i])
    {
      var f := ext.addsFlags[i];
      FlagOkIff(f);
      if !HasPrefix(f.name, "--") || f.kind !in {"string", "bool", "int"} {
        assert FirstBadAt(ext.addsFlags, i);
        return BadFlag(f);
      }
    }
    assert ext.addsFlags[..|ext.addsFlags|] == ext.addsFlags;
    return Accepted;
  }

  /** sort.SliceStable by Order, as repeated stable insertion. */
  method SliceStable(list: seq<Extension>) returns (sorted: seq<Extension>)
    ensures sorted == StableSort(list)
  {
    sorted := [];
    for i := 0 to |list|
      invariant sorted == StableSort(list[..i])
    {
      assert list[..i + 1][..i] == list[..i];
      sorted := Insert(sorted, list[i]);
    }
    assert list[..|list|] == list;
  }

  function ListAt(byPoint: map<string, seq<Extension>>, p: string): seq<Extension>
  {
    if p in byPoint then byPoint[p] else []
  }

  /** A point's list is one stable sort of its surviving registrations. */
  ghost predicate Reflects(byPoint: map<string, seq<Extension>>, live: seq<Extension>, p: string)
  {
    ListAt(byPoint, p) == StableSort(At(live, p))
  }

  function KeepsTest(d: Removal): Extension -> bool { (e: Extension) => Keeps(d, e) }

  lemma {:induction false} WithoutIsFilter(s: seq<Extension>, d: Removal)
    ensures Filter(s, KeepsTest(d)) == Without(s, d)
  {
    if s != [] {
      WithoutIsFilter(s[..|s| - 1], d);
    }
  }

  /** The in-place filter of Unregister and UnregisterOne. */
  method FilterList(list: seq<Extension>, d: Removal) returns (kept: seq<Extension>)
    ensures kept == Without(list, d)
  {
    var buf := new Extension[|list|](i requires 0 <= i < |list| => list[i]);
    assert buf[..] == list;
    var n := CompactInPlace(buf, KeepsTest(d));
    WithoutIsFilter(list, d);
    kept := buf[..n];
  }

  lemma ReflectsAdd(byPoint: map<string, seq<Extension>>, live: seq<Extension>, e: Extension, p: string)
    requires Reflects(byPoint, live, p) && Reflects(byPoint, live, e.primitive)
    ensures Reflects(byPoint[e.primitive := StableSort(ListAt(byPoint, e.primitive) + [e])], live + [e], p)
  {
    AtSnoc(live, e, p);
    if p == e.primitive {
      var xs := At(live, p);
      StableSortSpec(xs, 0);
      SortedIsFixed(StableSort(xs));
      assert (StableSort(xs) + [e])[..|xs|] == StableSort(xs);
      assert (xs + [e])[..|xs|] == xs;
    }
  }

  lemma ReflectsRemove(byPoint: map<string, seq<Extension>>, byPoint': map<string, seq<Extension>>,
                       live: seq<Extension>, d: Removal, p: string)
    requires Reflects(byPoint, live, p)
    requires ListAt(byPoint', p) ==
               if d.OneHook? && d.primitive != p then ListAt(byPoint, p) else Without(ListAt(byPoint, p), d)
    ensures Reflects(byPoint', Without(live, d), p)
  {
    AtWithout(live, p, d);
    SortWithout(At(live, p), d);
    if d.OneHook? && d.primitive != p {
      WithoutElsewhere(live, p, d);
    }
  }

  class Registry {
    var byPoint: map<string, seq<Extension>>

    /** Every accepted Register and every removal so far. */
    ghost var ops: seq<Op>

    ghost predicate Valid()
      reads this
    {
      forall p :: Reflects(byPoint, Survivors(ops), p)
    }

    constructor ()
      ensures Valid() && ops == []
    {
      byPoint, ops := map[], [];
    }

    /** The hooks of a point in run order: one stable sort of the surviving registrations. */
    method HooksFor(p: string) returns (hooks: seq<Extension>)
      requires Valid()
      ensures hooks == HooksAt(ops, p)
    {
      assert Reflects(byPoint, Survivors(ops), p);
      hooks := ListAt(byPoint, p);
    }

    method Register(ext: Extension) returns (r: Registered)
      requires Valid()
      modifies this
      ensures Valid()
      ensures r.Accepted? <==> Acceptable(ext)
      ensures ops == if r.Accepted? then old(ops) + [Add(ext)] else old(ops)
      ensures !r.Accepted? ==> byPoint == old(byPoint)
    {
      r := CheckExtension(ext);
      if !r.Accepted? {
        return;
      }
      ghost var live := Survivors(ops);
      ghost var was := byPoint;
      var list := SliceStable(ListAt(byPoint, ext.primitive) + [ext]);
      byPoint := byPoint[ext.primitive := list];
      SurvivorsAfter(ops, Add(ext));
      ops := ops + [Add(ext)];
      forall p ensures Reflects(byPoint, Survivors(ops), p) {
        assert Reflects(was, live, p) && Reflects(was, live, ext.primitive);
        ReflectsAdd(was, live, ext, p);
      }
    }

    /** Removes every hook of an app. */
    method Unregister(appID: string)
      requires Valid()
      modifies this
      ensures Valid()
      ensures ops == old(ops) + [Remove(OfApp(appID))]
      ensures OnlyAppGone(old(ops), ops, appID)
    {
      HooksAfterUnregister(ops, appID);
      ghost var live := Survivors(ops);
      ghost var was := byPoint;
      ghost var d := OfApp(appID);
      var todo := byPoint.Keys;
      while todo != {}
        invariant todo <= byPoint.Keys == was.Keys
        invariant ops == old(ops)
        invariant forall p :: p in todo ==> byPoint[p] == was[p]
        invariant forall p :: p in was && p !in todo ==> byPoint[p] == Without(was[p], d)
        decreases |todo|
      {
        var p :| p in todo;
        todo := todo - {p};
        var kept := FilterList(byPoint[p], OfApp(appID));
        byPoint := byPoint[p := kept];
      }
      SurvivorsAfter(ops, Remove(d));
      ops := ops + [Remove(d)];
      forall p ensures Reflects(byPoint, Survivors(ops), p) {
        assert Reflects(was, live, p);
        ReflectsRemove(was, byPoint, live, d, p);
      }
    }

    /** Removes one (app, point, method) triple, as often as it is registered. */
    method UnregisterOne(appID: string, primitive: string, methodName: string)
      requires Valid()
      modifies this
      ensures Valid()
      ensures ops == old(ops) + [Remove(OneHook(appID, primitive, methodName))]
      ensures OnlyTripleGone(old(ops), ops, appID, primitive, methodName)
    {
      HooksAfterUnregisterOne(ops, appID, primitive, methodName);
      ghost var live := Survivors(ops);
      ghost var was := byPoint;
      var d := OneHook(appID, primitive, methodName);
      var kept := FilterList(ListAt(byPoint, primitive), d);
      byPoint := byPoint[primitive := kept];
      SurvivorsAfter(ops, Remove(d));
      ops := ops + [Remove(d)];
      forall p ensures Reflects(byPoint, Survivors(ops), p) {
        assert Reflects(was, live, p);
        ReflectsRemove(was, byPoint, live, d, p);
      }
    }

    /** The number of surviving registrations of an app, over all points. */
    method CountForApp(appID: string) returns (n: nat)
      requires Valid()
      ensures n == CountApp(Survivors(ops), appID)
    {
      n := 0;
      ghost var live := Survivors(ops);
      ghost var seen: set<string> := {};
      var todo := byPoint.Keys;
      CountNoPoints(live, appID);
      while todo != {}
        invariant todo <= byPoint.Keys && seen == byPoint.Keys - todo
        invariant n == CountAtPoints(live, appID, seen)
        decreases |todo|
      {
        var p :| p in todo;
        todo := todo - {p};
        assert Reflects(byPoint, live, p);
        CountSorted(At(live, p), appID);
        CountOnePoint(live, appID, seen, p);
        seen := seen + {p};
        var here := CountList(byPoint[p], appID);
        n := n + here;
      }
      forall i | 0 <= i < |live| ensures live[i].primitive in seen {
        AtHolds(live, i);
        assert Reflects(byPoint, live, live[i].primitive);
      }
      CountAllPoints(live, appID, seen);
    }

    method CountList(list: seq<Extension>, appID: string) returns (n: nat)
      ensures n == CountApp(list, appID)
    {
      n := 0;
      for i := 0 to |list|
        invariant n == CountApp(list[..i], appID)
      {
        assert list[..i + 1][..i] == list[..i];
        if list[i].appID == appID {
          n := n + 1;
        }
      }
      assert list[..|list|] == list;
    }
  }

  /** A removal leaves every hook of every other app in place and in order. */
  lemma {:induction false} OthersUntouched(s: seq<Extension>, d: Removal, other: string)
    requires other != d.appID
    ensures Without(Without(s, d), OfApp(d.appID)) == Without(s, OfApp(d.appID))
    ensures CountApp(Without(s, d), other) == CountApp(s, other)
  {
    if s != [] {
      var n := |s| - 1;
      OthersUntouched(s[..n], d, other);
      WithoutSnoc(Without(s[..n], d), s[n], OfApp(d.appID));
      CountSnoc(Without(s[..n], d), s[n], other);
    }
  }
}
