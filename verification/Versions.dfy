/** plugin/appstore/supervisor.go: compareVersions, the order behind downgrade protection. */
module Versions {
  import opened Text

  function SplitSemver(v: string): (string, string)
  {
    var idx := IndexOf(v, '-');
    if idx == |v| then (v, "") else (v[..idx], v[idx + 1..])
  }

  function IndexOrEmpty(parts: seq<string>, i: nat): string
  {
    if i < |parts| then parts[i] else "0"
  }

  /** Anything Atoi refuses counts as zero, numbers too large for an int included. */
  function AtoiOrZero(s: string): int
  {
    match Atoi(s)
    case Parsed(n) => n
    case Malformed => 0
  }

  function CompareInts(a: int, b: int): (r: int)
  {
    if a < b then -1 else if a > b then 1 else 0
  }

  /** The number the comparison reads at position i of a dotted list. */
  function Component(parts: seq<string>, i: nat): int
  {
    AtoiOrZero(IndexOrEmpty(parts, i))
  }

  /** Compares the components at i, i+1, ... up to the third. */
  function ComparePartsFrom(a: seq<string>, b: seq<string>, i: nat): (r: int)
    decreases 3 - i
  {
    if i >= 3 then 0
    else
      var av, bv := Component(a, i), Component(b, i);
      if av < bv then -1 else if av > bv then 1 else ComparePartsFrom(a, b, i + 1)
  }

  function CompareNumericParts(a: string, b: string): (r: int)
  {
    ComparePartsFrom(Split(a, '.'), Split(b, '.'), 0)
  }

  function CompareVersions(a: string, b: string): (r: int)
  {
    if a == b then 0
    else
      var ((aNum, aPre), (bNum, bPre)) := (SplitSemver(a), SplitSemver(b));
      var c := CompareNumericParts(aNum, bNum);
      if c != 0 then c
      else if aPre == "" && bPre != "" then 1
      else if aPre != "" && bPre == "" then -1
      else Compare(aPre, bPre)
  }

  // ---- the order as a key ----

  /** What the comparison sees of a version: three numbers and a prerelease text. */
  datatype Key = Key(major: int, minor: int, patch: int, pre: string)

  function KeyOf(v: string): Key
  {
    var (num, pre) := SplitSemver(v);
    var parts := Split(num, '.');
    Key(Component(parts, 0), Component(parts, 1), Component(parts, 2), pre)
  }

  /** A release is above every prerelease; prereleases go by text. */
  function ComparePre(a: string, b: string): int
  {
    if a == "" && b != "" then 1
    else if a != "" && b == "" then -1
    else Compare(a, b)
  }

  /** Items 2 and 3 of section 11 of Semantic Versioning 2.0.0: numbers left to right, then release above prerelease. */
  function CompareKeys(a: Key, b: Key): int
  {
    if a.major != b.major then CompareInts(a.major, b.major)
    else if a.minor != b.minor then CompareInts(a.minor, b.minor)
    else if a.patch != b.patch then CompareInts(a.patch, b.patch)
    else ComparePre(a.pre, b.pre)
  }

  /** The loop over the three components is the comparison of the three numbers. */
  lemma PartsByNumber(x: seq<string>, y: seq<string>)
    ensures ComparePartsFrom(x, y, 0) ==
      CompareKeys(Key(Component(x, 0), Component(x, 1), Component(x, 2), ""),
                  Key(Component(y, 0), Component(y, 1), Component(y, 2), ""))
  {
    assert ComparePartsFrom(x, y, 3) == 0;
    assert ComparePartsFrom(x, y, 2) == CompareInts(Component(x, 2), Component(y, 2));
    assert ComparePartsFrom(x, y, 1) ==
      if Component(x, 1) != Component(y, 1) then CompareInts(Component(x, 1), Component(y, 1))
      else ComparePartsFrom(x, y, 2);
  }

  lemma CompareByKey(a: string, b: string)
    ensures CompareVersions(a, b) == CompareKeys(KeyOf(a), KeyOf(b))
  {
    PartsByNumber(Split(SplitSemver(a).0, '.'), Split(SplitSemver(b).0, '.'));
    CompareFlips(SplitSemver(a).1, SplitSemver(b).1);
  }

  lemma KeysAntisymmetric(a: Key, b: Key)
    ensures CompareKeys(a, b) == -CompareKeys(b, a)
    ensures CompareKeys(a, b) == 0 <==> a == b
  {
    CompareFlips(a.pre, b.pre);
  }

  /** compareVersions orders all strings: it is total and antisymmetric in sign. */
  lemma CompareAntisymmetric(a: string, b: string)
    ensures CompareVersions(a, b) == -CompareVersions(b, a)
    ensures CompareVersions(a, b) == 0 <==> KeyOf(a) == KeyOf(b)
  {
    CompareByKey(a, b);
    CompareByKey(b, a);
    KeysAntisymmetric(KeyOf(a), KeyOf(b));
  }

  lemma KeysTransitive(a: Key, b: Key, c: Key)
    requires CompareKeys(a, b) <= 0 && CompareKeys(b, c) <= 0
    ensures CompareKeys(a, c) <= 0
    ensures CompareKeys(a, b) < 0 || CompareKeys(b, c) < 0 ==> CompareKeys(a, c) < 0
  {
    CompareFlips(a.pre, b.pre);
    CompareFlips(b.pre, c.pre);
    CompareFlips(a.pre, c.pre);
    if Compare(a.pre, b.pre) <= 0 && Compare(b.pre, c.pre) <= 0 {
      Text.CompareTransitive(a.pre, b.pre, c.pre);
    }
  }

  /** ... and transitive, strictly so when either step is strict. */
  lemma CompareTransitive(a: string, b: string, c: string)
    requires CompareVersions(a, b) <= 0 && CompareVersions(b, c) <= 0
    ensures CompareVersions(a, c) <= 0
    ensures CompareVersions(a, b) < 0 || CompareVersions(b, c) < 0 ==> CompareVersions(a, c) < 0
  {
    CompareByKey(a, b);
    CompareByKey(b, c);
    CompareByKey(a, c);
    KeysTransitive(KeyOf(a), KeyOf(b), KeyOf(c));
  }

  // ---- written versions ----

  /** The version string of a triple with a prerelease, if it is not empty. */
  function Show(major: nat, minor: nat, patch: nat, pre: string): string
  {
    var num := Join([Decimal(major), Decimal(minor), Decimal(patch)], '.');
    if pre == "" then num else num + "-" + pre
  }

  lemma DigitsLack(s: string, c: char)
    requires AllDigits(s) && !IsDigit(c)
    ensures c !in s
  {
  }

  /** The shown prerelease is split off, whatever it contains. */
  lemma SplitShown(num: string, pre: string)
    requires '-' !in num
    ensures SplitSemver(if pre == "" then num else num + "-" + pre) == (num, pre)
  {
    if pre == "" {
      IndexOfAbsent(num, '-');
    } else {
      var v := num + ['-'] + pre;
      IndexOfPiece(num, pre, '-');
      assert v[..|num|] == num && v[|num| + 1..] == pre;
    }
  }

  lemma {:induction false} JoinLacks(parts: seq<string>, c: char)
    requires parts != [] && forall i :: 0 <= i < |parts| ==> AllDigits(parts[i])
    requires !IsDigit(c) && c != '.'
    ensures c !in Join(parts, '.')
  {
    DigitsLack(parts[0], c);
    if |parts| > 1 {
      JoinLacks(parts[1..], c);
    }
  }
}
