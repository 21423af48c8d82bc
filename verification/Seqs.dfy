/** Filtering sequences, and the in-place compaction loop the repository uses to do it. */
module Seqs {

  /** The elements of `s` that `keep` accepts, in their original order. */
  function Filter<T(!new)>(s: seq<T>, keep: T -> bool): (r: seq<T>)
    ensures |r| <= |s|
  {
    if s == [] then []
    else
      var n := |s| - 1;
      if keep(s[n]) then Filter(s[..n], keep) + [s[n]] else Filter(s[..n], keep)
  }

  lemma FilterSnoc<T(!new)>(a: seq<T>, x: T, keep: T -> bool)
    ensures Filter(a + [x], keep) == if keep(x) then Filter(a, keep) + [x] else Filter(a, keep)
  {
    assert (a + [x])[..|a|] == a;
  }

  /**
   * Filtering a slice over its own backing array: survivors are copied down, so
   * the write index never passes the read index.
   */
  method CompactInPlace<T(!new)>(a: array<T>, keep: T -> bool) returns (kept: nat)
    modifies a
    ensures kept <= a.Length
    ensures a[..kept] == Filter(old(a[..]), keep)
  {
    kept := 0;
    ghost var was := a[..];
    for i := 0 to a.Length
      invariant kept <= i
      invariant a[..kept] == Filter(was[..i], keep)
      invariant a[i..] == was[i..]
    {
      assert a[i] == a[i..][0] == was[i];
      FilterSnoc(was[..i], was[i], keep);
      assert was[..i + 1] == was[..i] + [was[i]];
      ghost var before := a[..kept];
      if keep(a[i]) {
        a[kept] := a[i];
        kept := kept + 1;
        assert a[..kept] == before + [was[i]];
      }
      assert a[i + 1..] == was[i + 1..];
    }
    assert was[..a.Length] == was;
  }

  // ---- ascending lists ----

  ghost predicate Ascending(ts: seq<int>)
  {
    |ts| <= 1 || (Ascending(ts[..|ts| - 1]) && ts[|ts| - 2] <= ts[|ts| - 1])
  }

  /** In an ascending list, later is not before. */
  lemma {:induction false} AscendingOrder(ts: seq<int>, i: nat, j: nat)
    requires Ascending(ts) && i <= j < |ts|
    ensures ts[i] <= ts[j]
    decreases |ts|
  {
    if i < j {
      var front := ts[..|ts| - 1];
      if j == |ts| - 1 {
        AscendingOrder(front, i, j - 1);
      } else {
        AscendingOrder(front, i, j);
      }
    }
  }

  lemma {:induction false} AscendingSuffix(ts: seq<int>, i: nat)
    requires Ascending(ts) && i <= |ts|
    ensures Ascending(ts[i..])
    decreases |ts|
  {
    if |ts| - i > 1 {
      AscendingSuffix(ts[..|ts| - 1], i);
      assert ts[i..][..|ts| - i - 1] == ts[..|ts| - 1][i..];
    }
  }
}
