/**
 * Where compareVersions agrees with section 11 of Semantic Versioning 2.0.0, and
 * exactly where it does not: prereleases are compared as text and not identifier
 * by identifier, and a component too large for an int reads as zero.
 */
module Semver {
  import opened Text
  import opened Versions

  // ---- precedence, as the standard defines it ----

  predicate IsIdentifierChar(c: char)
  {
    IsDigit(c) || 'A' <= c <= 'Z' || 'a' <= c <= 'z' || c == '-'
  }

  predicate InIdentifier(s: string)
  {
    forall i :: 0 <= i < |s| ==> IsIdentifierChar(s[i])
  }

  /** Section 9 of the standard: not empty, letters, digits and hyphens, and no leading zero in a number. */
  predicate Identifier(s: string)
  {
    s != [] && InIdentifier(s) && (AllDigits(s) && |s| > 1 ==> s[0] != '0')
  }

  predicate Identifiers(ids: seq<string>)
  {
    forall i :: 0 <= i < |ids| ==> Identifier(ids[i])
  }

  /** Item 4 on one identifier: numbers by value and below the others, the others as text. */
  function CompareIdentifiers(a: string, b: string): int
  {
    if AllDigits(a) && AllDigits(b) then CompareInts(Value(a), Value(b))
    else if AllDigits(a) then -1
    else if AllDigits(b) then 1
    else Compare(a, b)
  }

  /** Item 4: the first identifiers that differ decide; a list is above its proper prefixes. */
  function CompareLists(x: seq<string>, y: seq<string>): int
  {
    if x == [] then (if y == [] then 0 else -1)
    else if y == [] then 1
    else
      var c := CompareIdentifiers(x[0], y[0]);
      if c != 0 then c else CompareLists(x[1..], y[1..])
  }

  /** A version; a release has no prerelease identifiers. */
  datatype Version = Version(major: nat, minor: nat, patch: nat, pre: seq<string>)

  function Part(v: Version, i: nat): nat
    requires i < 3
  {
    if i == 0 then v.major else if i == 1 then v.minor else v.patch
  }

  /** Item 3 and then item 4. */
  function ComparePrereleases(x: seq<string>, y: seq<string>): int
  {
    if x == [] && y != [] then 1
    else if x != [] && y == [] then -1
    else CompareLists(x, y)
  }

  /** Item 2 from component i on, then items 3 and 4. */
  function PrecedenceFrom(a: Version, b: Version, i: nat): int
    decreases 3 - i
  {
    if i >= 3 then ComparePrereleases(a.pre, b.pre)
    else if Part(a, i) != Part(b, i) then CompareInts(Part(a, i), Part(b, i))
    else PrecedenceFrom(a, b, i + 1)
  }

  function Precedence(a: Version, b: Version): int { PrecedenceFrom(a, b, 0) }

  // ---- numbers ----

  function Pow10(n: nat): (p: nat)
    ensures p >= 1
  {
    if n == 0 then 1 else 10 * Pow10(n - 1)
  }

  lemma {:induction false} ValueBelow(s: string)
    requires AllDigits(s)
    ensures Value(s) < Pow10(|s|)
  {
    if s != [] {
      ValueBelow(s[..|s| - 1]);
    }
  }

  lemma {:induction false} ValueAtLeast(s: string)
    requires AllDigits(s) && s != [] && s[0] != '0'
    ensures Value(s) >= Pow10(|s| - 1)
  {
    if |s| > 1 {
      ValueAtLeast(s[..|s| - 1]);
    }
  }

  lemma {:induction false} PowGrows(m: nat, n: nat)
    requires m <= n
    ensures Pow10(m) <= Pow10(n)
  {
    if m < n {
      PowGrows(m, n - 1);
    }
  }

  /** Texts of one length compare by their fronts, and by their last characters when those are equal. */
  lemma {:induction false} CompareSnoc(a: string, b: string, c: char, d: char)
    requires |a| == |b|
    ensures Compare(a + [c], b + [d]) ==
      if a == b then CompareInts(c as int, d as int) else Compare(a, b)
  {
    if a != [] {
      assert (a + [c])[1..] == a[1..] + [c] && (b + [d])[1..] == b[1..] + [d];
      assert a == [a[0]] + a[1..] && b == [b[0]] + b[1..];
      CompareSnoc(a[1..], b[1..], c, d);
    }
  }

  /** Numbers written with as many digits compare as their texts do. */
  lemma {:induction false} SameLengthByText(a: string, b: string)
    requires AllDigits(a) && AllDigits(b) && |a| == |b|
    ensures CompareInts(Value(a), Value(b)) == Compare(a, b)
  {
    if a != [] {
      var n := |a| - 1;
      SameLengthByText(a[..n], b[..n]);
      CompareSnoc(a[..n], b[..n], a[n], b[n]);
      CompareFlips(a[..n], b[..n]);
      assert a == a[..n] + [a[n]] && b == b[..n] + [b[n]];
    }
  }

  /** Without leading zeros, fewer digits are a smaller number. */
  lemma ShorterIsLess(a: string, b: string)
    requires Identifier(a) && Identifier(b) && AllDigits(a) && AllDigits(b) && |a| < |b|
    ensures Value(a) < Value(b)
  {
    ValueBelow(a);
    ValueAtLeast(b);
    PowGrows(|a|, |b| - 1);
  }

  /** Only equal identifiers have equal precedence. */
  lemma IdentifiersDiffer(a: string, b: string)
    requires Identifier(a) && Identifier(b)
    ensures CompareIdentifiers(a, b) == 0 <==> a == b
  {
    CompareFlips(a, b);
    if AllDigits(a) && AllDigits(b) {
      if |a| == |b| {
        SameLengthByText(a, b);
      } else if |a| < |b| {
        ShorterIsLess(a, b);
      } else {
        ShorterIsLess(b, a);
      }
    }
  }

  // ---- when the text order agrees with item 4 ----

  /** `b` continues `a` with a hyphen, which sorts below the dot that follows `a`. */
  predicate Overtaken(a: string, more: bool, b: string)
  {
    more && |a| < |b| && b[..|a|] == a && b[|a|] == '-'
  }

  /** As text, of two numbers the one with fewer digits comes first, and a number comes before anything else. */
  predicate NumbersInOrder(a: string, b: string)
  {
    if AllDigits(a) && AllDigits(b) then |a| == |b| || (|a| < |b| <==> Compare(a, b) < 0)
    else if AllDigits(a) then Compare(a, b) < 0
    else if AllDigits(b) then Compare(a, b) > 0
    else true
  }

  /** The condition on the first identifiers that differ, and on whether more follow them. */
  predicate TextDecides(a: string, moreA: bool, b: string, moreB: bool)
  {
    !Overtaken(a, moreA, b) && !Overtaken(b, moreB, a) && NumbersInOrder(a, b)
  }

  predicate TextAgrees(x: seq<string>, y: seq<string>)
  {
    x == [] || y == [] ||
    if x[0] == y[0] then TextAgrees(x[1..], y[1..]) else TextDecides(x[0], |x| > 1, y[0], |y| > 1)
  }

  /** Two different identifiers as text, each with what follows it: nothing, or a dot. */
  lemma {:induction false} CompareTails(a: string, b: string, u: string, v: string)
    requires InIdentifier(a) && InIdentifier(b) && a != b
    requires (u != [] ==> u[0] == '.') && (v != [] ==> v[0] == '.')
    ensures Compare(a + u, b + v) ==
      if Overtaken(a, u != [], b) then 1
      else if Overtaken(b, v != [], a) then -1
      else Compare(a, b)
  {
    if a == [] {
      assert a + u == u;
    } else if b == [] {
      assert b + v == v;
    } else if a[0] == b[0] {
      assert (a + u)[1..] == a[1..] + u && (b + v)[1..] == b[1..] + v;
      assert a == [a[0]] + a[1..] && b == [b[0]] + b[1..];
      OvertakenTail(a, u != [], b);
      OvertakenTail(b, v != [], a);
      CompareTails(a[1..], b[1..], u, v);
    }
  }

  lemma OvertakenTail(a: string, more: bool, b: string)
    requires a != [] && b != [] && a[0] == b[0]
    ensures Overtaken(a, more, b) <==> Overtaken(a[1..], more, b[1..])
  {
    if |a| < |b| {
      assert b[1..][..|a| - 1] == b[..|a|][1..];
      assert b[..|a|] == [b[0]] + b[..|a|][1..];
      assert a == [a[0]] + a[1..];
    }
  }

  lemma {:induction false} ComparePrefix(p: string, u: string, v: string)
    ensures Compare(p + u, p + v) == Compare(u, v)
  {
    if p == [] {
      assert p + u == u && p + v == v;
    } else {
      assert (p + u)[1..] == p[1..] + u && (p + v)[1..] == p[1..] + v;
      ComparePrefix(p[1..], u, v);
    }
  }

  /** What follows the first identifier of a prerelease text. */
  function Rest(x: seq<string>): string
    requires x != []
  {
    if |x| == 1 then [] else ['.'] + Join(x[1..], '.')
  }

  lemma JoinRest(x: seq<string>)
    requires x != []
    ensures Join(x, '.') == x[0] + Rest(x)
  {
    if |x| > 1 {
      Associate(x[0], ['.'], Join(x[1..], '.'));
    }
  }

  /** A proper prefix comes first. */
  lemma {:induction false} PrefixFirst(a: string, b: string)
    requires |a| < |b| && b[..|a|] == a
    ensures Compare(a, b) == -1
  {
    if a != [] {
      assert b[1..][..|a| - 1] == b[..|a|][1..];
      PrefixFirst(a[1..], b[1..]);
    }
  }

  lemma NotANumber(b: string, i: nat)
    requires i < |b| && b[i] == '-'
    ensures !AllDigits(b)
  {
    assert !IsDigit(b[i]);
  }

  /** On the first identifiers that differ, text and item 4 agree exactly under the condition. */
  lemma DifferenceDecides(a: string, moreA: bool, b: string, moreB: bool)
    requires Identifier(a) && Identifier(b) && a != b
    ensures var c := if Overtaken(a, moreA, b) then 1 else if Overtaken(b, moreB, a) then -1 else Compare(a, b);
            c == CompareIdentifiers(a, b) <==> TextDecides(a, moreA, b, moreB)
  {
    CompareFlips(a, b);
    if Overtaken(a, moreA, b) {
      PrefixFirst(a, b);
      NotANumber(b, |a|);
    } else if Overtaken(b, moreB, a) {
      PrefixFirst(b, a);
      NotANumber(a, |b|);
    } else if AllDigits(a) && AllDigits(b) {
      if |a| == |b| {
        SameLengthByText(a, b);
      } else if |a| < |b| {
        ShorterIsLess(a, b);
      } else {
        ShorterIsLess(b, a);
      }
    }
  }

  /** Text and item 4 agree on two prereleases if and only if the condition holds where they first differ. */
  lemma {:induction false} TextAgreesIff(x: seq<string>, y: seq<string>)
    requires Identifiers(x) && Identifiers(y) && x != [] && y != []
    ensures Compare(Join(x, '.'), Join(y, '.')) == CompareLists(x, y) <==> TextAgrees(x, y)
  {
    JoinRest(x);
    JoinRest(y);
    IdentifiersDiffer(x[0], y[0]);
    if x[0] != y[0] {
      CompareTails(x[0], y[0], Rest(x), Rest(y));
      DifferenceDecides(x[0], |x| > 1, y[0], |y| > 1);
    } else {
      ComparePrefix(x[0], Rest(x), Rest(y));
      if |x| > 1 && |y| > 1 {
        ComparePrefix(['.'], Join(x[1..], '.'), Join(y[1..], '.'));
        TextAgreesIff(x[1..], y[1..]);
      }
    }
  }

  // ---- when compareVersions agrees with the whole of items 2 to 4 ----

  /** What a component is read as. */
  function Fit(n: nat): int { if n <= MAX_INT then n else 0 }

  function PreText(ids: seq<string>): string { if ids == [] then "" else Join(ids, '.') }

  /** The version as a manifest writes it. */
  function Written(v: Version): string
  {
    Show(v.major, v.minor, v.patch, PreText(v.pre))
  }

  /** A component is read as the number it shows exactly when it fits an int; beyond that it reads as zero. */
  lemma ComponentFits(n: nat)
    ensures AtoiOrZero(Decimal(n)) == Fit(n)
    ensures AtoiOrZero(Decimal(n)) == n <==> n <= MAX_INT
  {
    AtoiDecimal(n);
  }

  /** Reading back a written version, whatever its components. */
  lemma KeyOfShow(major: nat, minor: nat, patch: nat, pre: string)
    ensures KeyOf(Show(major, minor, patch, pre)) == Key(Fit(major), Fit(minor), Fit(patch), pre)
  {
    var parts := [Decimal(major), Decimal(minor), Decimal(patch)];
    forall i | 0 <= i < 3 ensures '.' !in parts[i] {
      DigitsLack(parts[i], '.');
    }
    SplitJoin(parts, '.');
    JoinLacks(parts, '-');
    SplitShown(Join(parts, '.'), pre);
    ComponentFits(major);
    ComponentFits(minor);
    ComponentFits(patch);
  }

  /** What the comparison sees from component i on. */
  function ReadFrom(a: Version, b: Version, i: nat): int
    decreases 3 - i
  {
    if i >= 3 then ComparePre(PreText(a.pre), PreText(b.pre))
    else if Fit(Part(a, i)) != Fit(Part(b, i)) then CompareInts(Fit(Part(a, i)), Fit(Part(b, i)))
    else ReadFrom(a, b, i + 1)
  }

  lemma ComparesAsRead(a: Version, b: Version)
    ensures CompareVersions(Written(a), Written(b)) == ReadFrom(a, b, 0)
  {
    KeyOfShow(a.major, a.minor, a.patch, PreText(a.pre));
    KeyOfShow(b.major, b.minor, b.patch, PreText(b.pre));
    CompareByKey(Written(a), Written(b));
    assert ReadFrom(a, b, 3) == ComparePre(PreText(a.pre), PreText(b.pre));
    assert ReadFrom(a, b, 2) ==
      if Fit(a.patch) != Fit(b.patch) then CompareInts(Fit(a.patch), Fit(b.patch)) else ReadFrom(a, b, 3);
    assert ReadFrom(a, b, 1) ==
      if Fit(a.minor) != Fit(b.minor) then CompareInts(Fit(a.minor), Fit(b.minor)) else ReadFrom(a, b, 2);
  }

  /**
   * The condition, from component i on. Where the components first differ, both
   * fit an int, or both read as the same number and the first later part that is
   * read differently goes the right way: `ReadFrom` is the comparison of what the
   * later components and the prerelease texts are read as. Where none differs, at
   * most one side is a prerelease, or their first differing identifiers meet the
   * condition above.
   */
  predicate AgreesFrom(a: Version, b: Version, i: nat)
    decreases 3 - i
  {
    if i >= 3 then TextAgrees(a.pre, b.pre)
    else
      var m, n := Part(a, i), Part(b, i);
      if m == n then AgreesFrom(a, b, i + 1)
      else (m <= MAX_INT && n <= MAX_INT) || (Fit(m) == Fit(n) && ReadFrom(a, b, i + 1) == CompareInts(m, n))
  }

  lemma {:induction false} AgreesFromIff(a: Version, b: Version, i: nat)
    requires Identifiers(a.pre) && Identifiers(b.pre)
    ensures ReadFrom(a, b, i) == PrecedenceFrom(a, b, i) <==> AgreesFrom(a, b, i)
    decreases 3 - i
  {
    if i < 3 {
      AgreesFromIff(a, b, i + 1);
    } else {
      PreTextEmpty(a.pre);
      PreTextEmpty(b.pre);
      if a.pre != [] && b.pre != [] {
        TextAgreesIff(a.pre, b.pre);
      }
    }
  }

  lemma PreTextEmpty(ids: seq<string>)
    requires Identifiers(ids)
    ensures PreText(ids) == "" <==> ids == []
  {
    if ids != [] {
      JoinRest(ids);
      assert Identifier(ids[0]);
    }
  }

  /** On every pair of versions, compareVersions is the standard's precedence if and only if the condition holds. */
  lemma AgreesIff(a: Version, b: Version)
    requires Identifiers(a.pre) && Identifiers(b.pre)
    ensures CompareVersions(Written(a), Written(b)) == Precedence(a, b) <==> AgreesFrom(a, b, 0)
  {
    ComparesAsRead(a, b);
    AgreesFromIff(a, b, 0);
  }

  /**
   * When every component fits an int, it disagrees only on two prereleases of one
   * triple whose first differing identifiers fail the condition.
   */
  lemma FittingAgreesIff(a: Version, b: Version)
    requires Identifiers(a.pre) && Identifiers(b.pre)
    requires forall i :: 0 <= i < 3 ==> Part(a, i) <= MAX_INT && Part(b, i) <= MAX_INT
    ensures CompareVersions(Written(a), Written(b)) == Precedence(a, b) <==>
      ((forall i :: 0 <= i < 3 ==> Part(a, i) == Part(b, i)) ==> TextAgrees(a.pre, b.pre))
  {
    AgreesIff(a, b);
    assert AgreesFrom(a, b, 3) == TextAgrees(a.pre, b.pre);
    assert AgreesFrom(a, b, 2) == (Part(a, 2) == Part(b, 2) ==> AgreesFrom(a, b, 3));
    assert AgreesFrom(a, b, 1) == (Part(a, 1) == Part(b, 1) ==> AgreesFrom(a, b, 2));
  }

  // ---- inputs that show the difference ----

  lemma SameTriple(a: Version, b: Version)
    requires forall i :: 0 <= i < 3 ==> Part(a, i) == Part(b, i)
    ensures CompareVersions(Written(a), Written(b)) == ComparePre(PreText(a.pre), PreText(b.pre))
    ensures Precedence(a, b) == ComparePrereleases(a.pre, b.pre)
  {
    ComparesAsRead(a, b);
    assert ReadFrom(a, b, 1) == ReadFrom(a, b, 2) == ReadFrom(a, b, 3);
    assert PrecedenceFrom(a, b, 1) == PrecedenceFrom(a, b, 2) == PrecedenceFrom(a, b, 3);
  }

  /** Of two numbers, one with fewer digits and a larger text is put above the other; by item 4 it is below. */
  lemma NumbersAsText(a: Version, b: Version)
    requires forall i :: 0 <= i < 3 ==> Part(a, i) == Part(b, i)
    requires |a.pre| == |b.pre| == 1 && Identifiers(a.pre) && Identifiers(b.pre)
    requires AllDigits(a.pre[0]) && AllDigits(b.pre[0]) && |a.pre[0]| < |b.pre[0]| && Compare(a.pre[0], b.pre[0]) > 0
    ensures CompareVersions(Written(a), Written(b)) == 1 && Precedence(a, b) == -1
  {
    SameTriple(a, b);
    PreTextEmpty(a.pre);
    PreTextEmpty(b.pre);
    ShorterIsLess(a.pre[0], b.pre[0]);
  }

  /** An identifier with more after it is put above one that continues it with a hyphen; by item 4 it is below. */
  lemma HyphenBeforeDot(a: Version, b: Version)
    requires forall i :: 0 <= i < 3 ==> Part(a, i) == Part(b, i)
    requires |a.pre| > 1 && |b.pre| == 1 && Identifiers(a.pre) && Identifiers(b.pre)
    requires Overtaken(a.pre[0], true, b.pre[0])
    ensures CompareVersions(Written(a), Written(b)) == 1 && Precedence(a, b) == -1
  {
    SameTriple(a, b);
    PreTextEmpty(a.pre);
    PreTextEmpty(b.pre);
    JoinRest(a.pre);
    JoinRest(b.pre);
    assert Identifier(a.pre[0]) && Identifier(b.pre[0]);
    CompareTails(a.pre[0], b.pre[0], Rest(a.pre), Rest(b.pre));
    PrefixFirst(a.pre[0], b.pre[0]);
    NotANumber(b.pre[0], |a.pre[0]|);
  }

  /** Such an input: -9 against -10, under any triple. */
  lemma NineAboveTen(a: Version, b: Version)
    requires forall i :: 0 <= i < 3 ==> Part(a, i) == Part(b, i)
    requires a.pre == ["9"] && b.pre == ["10"]
    ensures CompareVersions(Written(a), Written(b)) == 1 && Precedence(a, b) == -1
  {
    assert Compare("9", "10") == 1;
    NumbersAsText(a, b);
  }

  /** Such an input: -a.b against -a-b, under any triple. */
  lemma DottedAboveHyphened(a: Version, b: Version)
    requires forall i :: 0 <= i < 3 ==> Part(a, i) == Part(b, i)
    requires a.pre == ["a", "b"] && b.pre == ["a-b"]
    ensures CompareVersions(Written(a), Written(b)) == 1 && Precedence(a, b) == -1
  {
    assert "a-b"[..1] == "a";
    HyphenBeforeDot(a, b);
  }

  /** A major version too large for an int is put below every positive one that fits: the upgrade is a downgrade. */
  lemma OverflowIsDowngrade(a: Version, b: Version)
    requires a.major > MAX_INT >= b.major > 0
    ensures CompareVersions(Written(a), Written(b)) == -1 && Precedence(a, b) == 1
  {
    ComparesAsRead(a, b);
  }

  // ---- versions that are not written as three numbers ----

  /** A component that is missing reads as zero. */
  lemma MissingParts(major: nat, minor: nat)
    ensures KeyOf(Decimal(major)) == Key(Fit(major), 0, 0, "")
    ensures KeyOf(Join([Decimal(major), Decimal(minor)], '.')) == Key(Fit(major), Fit(minor), 0, "")
  {
    var one, two := [Decimal(major)], [Decimal(major), Decimal(minor)];
    forall i | 0 <= i < 2 ensures '.' !in two[i] {
      DigitsLack(two[i], '.');
    }
    JoinLacks(one, '-');
    JoinLacks(two, '-');
    SplitJoin(one, '.');
    SplitJoin(two, '.');
    SplitShown(Join(one, '.'), "");
    SplitShown(Join(two, '.'), "");
    ComponentFits(major);
    ComponentFits(minor);
    ComponentFits(0);
    assert Decimal(0) == "0";
  }

  /** One that is not a number reads as zero too. */
  lemma NonNumberIsZero(s: string, i: nat)
    requires i < |s| && !IsDigit(s[i]) && (i > 0 || (s[0] != '-' && s[0] != '+'))
    ensures AtoiOrZero(s) == 0
  {
    if s[0] == '-' || s[0] == '+' {
      assert s[1..][i - 1] == s[i];
    }
  }
}
