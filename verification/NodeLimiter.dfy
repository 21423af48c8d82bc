/**
 * pkg/appkit/limiter.go: the sliding-window request limiter, keyed by node.
 *
 * The limiter keeps pruned, swept lists of hits. The rule it implements counts
 * the admissions of a node over its whole history. Times are nanoseconds.
 */
module NodeLimiter {
  import opened Seqs

  /** One answered request. */
  datatype Request = Request(node: string, at: int, ok: bool)

  /** The times at which a node was admitted, in order. */
  function Admissions(log: seq<Request>, node: string): (ts: seq<int>)
  {
    if log == [] then []
    else
      var n := |log| - 1;
      Admissions(log[..n], node) + (if log[n].ok && log[n].node == node then [log[n].at] else [])
  }

  /** How many times lie in the closed interval [lo, hi]. */
  function CountIn(ts: seq<int>, lo: int, hi: int): (n: nat)
    ensures n <= |ts|
  {
    if ts == [] then 0
    else
      var n := |ts| - 1;
      CountIn(ts[..n], lo, hi) + (if lo <= ts[n] <= hi then 1 else 0)
  }

  /** The whole-history rule: fewer than `max` admissions in the window that ends now. */
  predicate HasRoom(max: int, window: int, admitted: seq<int>, t: int)
  {
    CountIn(admitted, t - window, t) < max
  }

  /** The two lists count alike on every interval that starts at `lo`. */
  ghost predicate AgreeFrom(hits: seq<int>, admitted: seq<int>, lo: int)
  {
    forall hi :: CountIn(hits, lo, hi) == CountIn(admitted, lo, hi)
  }

  /** `hits` may have forgotten admissions before `cutoff`, and nothing else. */
  ghost predicate Summarizes(hits: seq<int>, admitted: seq<int>, cutoff: int)
  {
    Ascending(hits) && forall lo :: cutoff <= lo ==> AgreeFrom(hits, admitted, lo)
  }

  /** The reading of the last request. */
  function Latest(log: seq<Request>): int
    requires log != []
  {
    log[|log| - 1].at
  }

  /** Clock readings never go back. */
  ghost predicate Monotone(log: seq<Request>)
  {
    |log| <= 1 || (Monotone(log[..|log| - 1]) && Latest(log[..|log| - 1]) <= Latest(log))
  }

  /** Every verdict in the log follows the rule. */
  ghost predicate Lawful(max: int, window: int, log: seq<Request>)
  {
    log == [] ||
    var n := |log| - 1;
    && Lawful(max, window, log[..n])
    && (log[n].ok <==> HasRoom(max, window, Admissions(log[..n], log[n].node), log[n].at))
  }

  // ---- counting ----

  lemma {:induction false} CountConcat(a: seq<int>, b: seq<int>, lo: int, hi: int)
    ensures CountIn(a + b, lo, hi) == CountIn(a, lo, hi) + CountIn(b, lo, hi)
  {
    if b == [] {
      assert a + b == a;
    } else {
      assert (a + b)[..|a + b| - 1] == a + b[..|b| - 1];
      CountConcat(a, b[..|b| - 1], lo, hi);
    }
  }

  lemma {:induction false} CountOutside(ts: seq<int>, lo: int, hi: int)
    requires forall i :: 0 <= i < |ts| ==> ts[i] < lo
    ensures CountIn(ts, lo, hi) == 0
  {
    if ts != [] {
      CountOutside(ts[..|ts| - 1], lo, hi);
    }
  }

  lemma {:induction false} CountInside(ts: seq<int>, lo: int, hi: int)
    requires forall i :: 0 <= i < |ts| ==> lo <= ts[i] <= hi
    ensures CountIn(ts, lo, hi) == |ts|
  {
    if ts != [] {
      CountInside(ts[..|ts| - 1], lo, hi);
    }
  }

  lemma {:induction false} AdmissionsAfter(log: seq<Request>, r: Request, node: string)
    ensures Admissions(log + [r], node)
         == if r.ok && r.node == node then Admissions(log, node) + [r.at] else Admissions(log, node)
  {
    assert (log + [r])[..|log|] == log;
  }

  /** Admissions are not after the log's last reading. */
  lemma {:induction false} AdmissionsNotLater(log: seq<Request>, node: string)
    requires Monotone(log)
    ensures forall x :: x in Admissions(log, node) ==> log != [] && x <= Latest(log)
  {
    if log != [] {
      AdmissionsNotLater(log[..|log| - 1], node);
    }
  }

  /** Go's time.Sub: the difference, clamped to what a 64-bit duration holds. */
  function Sub(a: int, b: int): int
  {
    var d := a - b;
    if d > 0x7fff_ffff_ffff_ffff then 0x7fff_ffff_ffff_ffff
    else if d < -0x8000_0000_0000_0000 then -0x8000_0000_0000_0000
    else d
  }

  lemma {:induction false} CountDropped(hits: seq<int>, i: nat, lo: int, hi: int)
    requires i <= |hits| && forall j :: 0 <= j < i ==> hits[j] < lo
    ensures CountIn(hits[i..], lo, hi) == CountIn(hits, lo, hi)
  {
    var front, back := hits[..i], hits[i..];
    CountOutside(front, lo, hi);
    CountConcat(front, back, lo, hi);
    assert front + back == hits;
  }

  /** Dropping a prefix that lies before `cutoff` changes no count from `cutoff` on. */
  lemma {:induction false} PrefixDropped(hits: seq<int>, i: nat, cutoff: int)
    requires Ascending(hits) && i <= |hits|
    requires forall j :: 0 <= j < i ==> hits[j] < cutoff
    ensures Summarizes(hits[i..], hits, cutoff)
  {
    AscendingSuffix(hits, i);
    forall lo, hi | cutoff <= lo ensures CountIn(hits[i..], lo, hi) == CountIn(hits, lo, hi) {
      CountDropped(hits, i, lo, hi);
    }
  }

  /** From position i on, the first that holds no time before `cutoff`. */
  function FirstFresh(hits: seq<int>, cutoff: int, i: nat): (r: nat)
    requires i <= |hits|
    ensures i <= r <= |hits|
    decreases |hits| - i
  {
    if i < |hits| && hits[i] < cutoff then FirstFresh(hits, cutoff, i + 1) else i
  }

  lemma {:induction false} StaleBefore(hits: seq<int>, cutoff: int, i: nat)
    requires i <= |hits|
    ensures var r := FirstFresh(hits, cutoff, i);
            (forall j :: i <= j < r ==> hits[j] < cutoff) && (r < |hits| ==> cutoff <= hits[r])
    decreases |hits| - i
  {
    if i < |hits| && hits[i] < cutoff {
      StaleBefore(hits, cutoff, i + 1);
    }
  }

  /** The list without its leading times before `cutoff`. */
  function Pruned(hits: seq<int>, cutoff: int): seq<int>
  {
    hits[FirstFresh(hits, cutoff, 0)..]
  }

  /** Drops the leading times before `cutoff`. */
  method PruneBefore(hits: seq<int>, cutoff: int) returns (kept: seq<int>)
    ensures kept == Pruned(hits, cutoff)
  {
    var i := 0;
    while i < |hits| && hits[i] < cutoff
      invariant 0 <= i <= |hits|
      invariant FirstFresh(hits, cutoff, 0) == FirstFresh(hits, cutoff, i)
    {
      i := i + 1;
    }
    kept := hits[i..];
  }

  /** On an ascending list that drops all times before `cutoff`, and changes no count from `cutoff` on. */
  lemma {:induction false} PrunedSummarizes(hits: seq<int>, cutoff: int)
    requires Ascending(hits)
    ensures Summarizes(Pruned(hits, cutoff), hits, cutoff)
    ensures forall i :: 0 <= i < |Pruned(hits, cutoff)| ==> cutoff <= Pruned(hits, cutoff)[i]
    ensures forall x :: x in Pruned(hits, cutoff) ==> x in hits
  {
    var i := FirstFresh(hits, cutoff, 0);
    StaleBefore(hits, cutoff, 0);
    PrefixDropped(hits, i, cutoff);
    forall j | i <= j < |hits| ensures cutoff <= hits[j] {
      AscendingOrder(hits, i, j);
    }
  }

  lemma {:induction false} SummarizesTrans(kept: seq<int>, hits: seq<int>, admitted: seq<int>, cutoff: int)
    requires Summarizes(kept, hits, cutoff) && Summarizes(hits, admitted, cutoff)
    ensures Summarizes(kept, admitted, cutoff)
  {
    forall lo | cutoff <= lo ensures AgreeFrom(kept, admitted, lo) {
      assert AgreeFrom(kept, hits, lo) && AgreeFrom(hits, admitted, lo);
    }
  }

  /** A new admission, not before the stored ones, keeps the summary. */
  lemma {:induction false} SummarizesSnoc(kept: seq<int>, admitted: seq<int>, cutoff: int, t: int)
    requires Summarizes(kept, admitted, cutoff)
    requires forall i :: 0 <= i < |kept| ==> kept[i] <= t
    ensures Summarizes(kept + [t], admitted + [t], cutoff)
  {
    assert (kept + [t])[..|kept|] == kept;
    forall lo, hi | cutoff <= lo ensures CountIn(kept + [t], lo, hi) == CountIn(admitted + [t], lo, hi) {
      assert AgreeFrom(kept, admitted, lo);
      CountConcat(kept, [t], lo, hi);
      CountConcat(admitted, [t], lo, hi);
    }
  }

  /** The stored hits of a node; a missing entry is an empty list. */
  function Stored(hits: map<string, seq<int>>, node: string): seq<int>
  {
    if node in hits then hits[node] else []
  }

  ghost predicate NoneAfter(ts: seq<int>, last: int)
  {
    forall i :: 0 <= i < |ts| ==> ts[i] <= last
  }

  /** A list that summarizes a node's admissions, none of it after `last`. */
  ghost predicate Stands(hits: seq<int>, admitted: seq<int>, cutoff: int, last: int)
  {
    Summarizes(hits, admitted, cutoff) && NoneAfter(hits, last)
  }

  ghost predicate CoversAt(hits: map<string, seq<int>>, log: seq<Request>, cutoff: int, last: int, node: string)
  {
    Stands(Stored(hits, node), Admissions(log, node), cutoff, last)
  }

  /** Every node's stored hits stand for its admissions. */
  ghost predicate Covers(hits: map<string, seq<int>>, log: seq<Request>, cutoff: int, last: int)
  {
    forall node :: CoversAt(hits, log, cutoff, last, node)
  }

  lemma {:induction false} StandsLater(hits: seq<int>, admitted: seq<int>, c: int, c': int, last: int, last': int)
    requires Stands(hits, admitted, c, last) && c <= c' && last <= last'
    ensures Stands(hits, admitted, c', last')
  {
  }

  /** Later cutoffs only relax the summary. */
  lemma {:induction false} CoversLater(hits: map<string, seq<int>>, log: seq<Request>, c: int, c': int, last: int,
                                       last': int)
    requires Covers(hits, log, c, last) && c <= c' && last <= last'
    ensures Covers(hits, log, c', last')
  {
    forall node ensures CoversAt(hits, log, c', last', node) {
      assert CoversAt(hits, log, c, last, node);
      StandsLater(Stored(hits, node), Admissions(log, node), c, c', last, last');
    }
  }

  /** The nodes a sweep keeps: those with a hit at or after the cutoff. */
  function Recent(hits: map<string, seq<int>>, cutoff: int): map<string, seq<int>>
  {
    map n | n in hits && hits[n] != [] && cutoff <= hits[n][|hits[n]| - 1] :: hits[n]
  }

  /** A list whose last hit is before the cutoff may as well be empty. */
  lemma {:induction false} StandsEmpty(h: seq<int>, admitted: seq<int>, cutoff: int, last: int)
    requires Stands(h, admitted, cutoff, last) && (h != [] ==> h[|h| - 1] < cutoff)
    ensures Stands([], admitted, cutoff, last)
  {
    forall j | 0 <= j < |h| ensures h[j] < cutoff {
      AscendingOrder(h, j, |h| - 1);
    }
    PrefixDropped(h, |h|, cutoff);
    assert h[|h|..] == [];
    SummarizesTrans([], h, admitted, cutoff);
  }

  /** Forgetting the nodes whose last hit is before the cutoff loses nothing the rule can see. */
  lemma {:induction false} CoversRecent(hits: map<string, seq<int>>, log: seq<Request>, cutoff: int, last: int)
    requires Covers(hits, log, cutoff, last)
    ensures Covers(Recent(hits, cutoff), log, cutoff, last)
  {
    forall n ensures CoversAt(Recent(hits, cutoff), log, cutoff, last, n) {
      assert CoversAt(hits, log, cutoff, last, n);
      if n !in Recent(hits, cutoff) {
        StandsEmpty(Stored(hits, n), Admissions(log, n), cutoff, last);
      }
    }
  }

  lemma {:induction false} StandsAfter(kept: seq<int>, admitted: seq<int>, cutoff: int, t: int)
    requires Stands(kept, admitted, cutoff, t)
    ensures Stands(kept + [t], admitted + [t], cutoff, t)
  {
    SummarizesSnoc(kept, admitted, cutoff, t);
  }

  /** Storing the pruned list, with the new time if it was admitted. */
  lemma {:induction false} CoversAfter(hits: map<string, seq<int>>, log: seq<Request>, cutoff: int, r: Request,
                                       kept: seq<int>)
    requires Covers(hits, log, cutoff, r.at)
    requires Stands(kept, Admissions(log, r.node), cutoff, r.at)
    ensures Covers(hits[r.node := if r.ok then kept + [r.at] else kept], log + [r], cutoff, r.at)
  {
    var hits' := hits[r.node := if r.ok then kept + [r.at] else kept];
    forall n ensures CoversAt(hits', log + [r], cutoff, r.at, n) {
      AdmissionsAfter(log, r, n);
      if n == r.node {
        StandsAfter(kept, Admissions(log, n), cutoff, r.at);
      } else {
        assert CoversAt(hits, log, cutoff, r.at, n);
      }
    }
  }

  lemma {:induction false} LawfulAfter(max: int, window: int, log: seq<Request>, r: Request)
    requires Lawful(max, window, log) && Monotone(log)
    requires log != [] ==> Latest(log) <= r.at
    requires r.ok <==> HasRoom(max, window, Admissions(log, r.node), r.at)
    ensures Lawful(max, window, log + [r]) && Monotone(log + [r]) && Latest(log + [r]) == r.at
  {
    assert (log + [r])[..|log|] == log;
  }

  /** The hits cover the log up to its last reading. */
  ghost predicate Current(window: int, hits: map<string, seq<int>>, log: seq<Request>)
  {
    if log == [] then hits == map[] else Covers(hits, log, Latest(log) - window, Latest(log))
  }

  /** The state a limiter is in after answering `log`. */
  ghost predicate Consistent(max: int, window: int, hits: map<string, seq<int>>, log: seq<Request>)
  {
    Monotone(log) && Lawful(max, window, log) && Current(window, hits, log)
  }

  /** Once a window has passed since the last sweep, exactly the nodes with a hit in the window ending now are kept. */
  lemma {:induction false} SweepsOncePerWindow(hits: map<string, seq<int>>, lastSweep: int, window: int, t: int,
                                               node: string)
    ensures var swept := Swept(hits, lastSweep, window, t);
            && (t - lastSweep < window && window <= 0x7fff_ffff_ffff_ffff && t - lastSweep >= -0x8000_0000_0000_0000 ==>
                  swept == hits)
            && (t - lastSweep >= window && window <= 0x7fff_ffff_ffff_ffff ==>
                  (node in swept <==> node in hits && |hits[node]| > 0 && hits[node][|hits[node]| - 1] >= t - window)
                  && (node in swept ==> swept[node] == hits[node]))
  {
  }

  /** The hits after a sweep that is due once per window. */
  function Swept(hits: map<string, seq<int>>, lastSweep: int, window: int, t: int): map<string, seq<int>>
  {
    if Sub(t, lastSweep) < window then hits else Recent(hits, t - window)
  }

  lemma {:induction false} CoversNothing(cutoff: int, last: int)
    ensures Covers(map[], [], cutoff, last)
  {
    forall node ensures CoversAt(map[], [], cutoff, last, node) {
      assert Stands([], [], cutoff, last);
    }
  }

  lemma {:induction false} CurrentCovers(window: int, hits: map<string, seq<int>>, log: seq<Request>, t: int)
    requires Current(window, hits, log)
    requires log != [] ==> Latest(log) <= t
    ensures Covers(hits, log, t - window, t)
  {
    if log == [] {
      CoversNothing(t - window, t);
    } else {
      var last := Latest(log);
      CoversLater(hits, log, last - window, t - window, last, t);
    }
  }

  /** Swept or not, the stored hits stand for every node's admissions. */
  lemma {:induction false} SweptCovers(window: int, hits: map<string, seq<int>>, log: seq<Request>, lastSweep: int,
                                       t: int)
    requires Current(window, hits, log)
    requires log != [] ==> Latest(log) <= t
    ensures Covers(Swept(hits, lastSweep, window, t), log, t - window, t)
  {
    CurrentCovers(window, hits, log, t);
    CoversRecent(hits, log, t - window, t);
  }

  /** The length of a pruned list decides as the whole-history rule does. */
  lemma {:induction false} PrunedDecides(kept: seq<int>, admitted: seq<int>, t: int, window: int)
    requires Stands(kept, admitted, t - window, t)
    requires forall i :: 0 <= i < |kept| ==> t - window <= kept[i]
    ensures CountIn(admitted, t - window, t) == |kept|
  {
    assert AgreeFrom(kept, admitted, t - window);
    CountInside(kept, t - window, t);
  }

  /** Pruning a list that stands for the admissions leaves one that does. */
  lemma {:induction false} PrunedStands(kept: seq<int>, stored: seq<int>, admitted: seq<int>, cutoff: int, last: int)
    requires Stands(stored, admitted, cutoff, last) && Summarizes(kept, stored, cutoff)
    requires forall x :: x in kept ==> x in stored
    ensures Stands(kept, admitted, cutoff, last)
  {
    SummarizesTrans(kept, stored, admitted, cutoff);
    forall i | 0 <= i < |kept| ensures kept[i] <= last {
      assert kept[i] in kept;
    }
  }

  /** One answered request, from the pruned list to the stored hits. */
  lemma {:induction false} ConsistentAfter(max: int, window: int, hits: map<string, seq<int>>, log: seq<Request>,
                                           r: Request,
                        kept: seq<int>)
    requires Monotone(log) && Lawful(max, window, log)
    requires log != [] ==> Latest(log) <= r.at
    requires Covers(hits, log, r.at - window, r.at)
    requires Stands(kept, Admissions(log, r.node), r.at - window, r.at)
    requires r.ok <==> HasRoom(max, window, Admissions(log, r.node), r.at)
    ensures Consistent(max, window, hits[r.node := if r.ok then kept + [r.at] else kept], log + [r])
  {
    LawfulAfter(max, window, log, r);
    CoversAfter(hits, log, r.at - window, r, kept);
  }

  /** The hits after a request: swept, and the node's own pruned, with t if it was admitted. */
  function Served(hits: map<string, seq<int>>, lastSweep: int, window: int, r: Request): map<string, seq<int>>
  {
    var swept := Swept(hits, lastSweep, window, r.at);
    var kept := Pruned(Stored(swept, r.node), r.at - window);
    swept[r.node := if r.ok then kept + [r.at] else kept]
  }

  /** The pruned list of a node stands for its admissions, and is as long as the window holds of them. */
  lemma {:induction false} PrunedAnswers(hits: map<string, seq<int>>, log: seq<Request>, window: int, node: string,
                                         t: int)
    requires Covers(hits, log, t - window, t)
    ensures var kept, admitted := Pruned(Stored(hits, node), t - window), Admissions(log, node);
            Stands(kept, admitted, t - window, t) && |kept| == CountIn(admitted, t - window, t)
  {
    var stored, admitted := Stored(hits, node), Admissions(log, node);
    assert CoversAt(hits, log, t - window, t, node);
    PrunedSummarizes(stored, t - window);
    PrunedStands(Pruned(stored, t - window), stored, admitted, t - window, t);
    PrunedDecides(Pruned(stored, t - window), admitted, t, window);
  }

  /** Answering by the length of the pruned list is answering by the rule, and keeps the hits in order. */
  lemma {:induction false} ServedAnswers(max: int, window: int, swept: map<string, seq<int>>, log: seq<Request>,
                                         r: Request, kept: seq<int>, hits': map<string, seq<int>>)
    requires hits' == swept[r.node := if r.ok then kept + [r.at] else kept]
    requires Covers(swept, log, r.at - window, r.at) && Monotone(log) && Lawful(max, window, log)
    requires log != [] ==> Latest(log) <= r.at
    requires kept == Pruned(Stored(swept, r.node), r.at - window) && (r.ok <==> |kept| < max)
    ensures r.ok <==> HasRoom(max, window, Admissions(log, r.node), r.at)
    ensures Consistent(max, window, hits', log + [r])
  {
    PrunedAnswers(swept, log, window, r.node, r.at);
    ConsistentAfter(max, window, swept, log, r, kept);
  }

  /** One request, from the hits before it to the hits after. */
  lemma {:induction false} ConsistentServed(max: int, window: int, hits: map<string, seq<int>>, log: seq<Request>,
                                            lastSweep: int, r: Request, hits': map<string, seq<int>>)
    requires Monotone(log) && Lawful(max, window, log) && Current(window, hits, log)
    requires log != [] ==> Latest(log) <= r.at
    requires hits' == Served(hits, lastSweep, window, r)
    requires r.ok <==> |Pruned(Stored(Swept(hits, lastSweep, window, r.at), r.node), r.at - window)| < max
    ensures r.ok <==> HasRoom(max, window, Admissions(log, r.node), r.at)
    ensures Consistent(max, window, hits', log + [r])
  {
    SweptCovers(window, hits, log, lastSweep, r.at);
    var swept := Swept(hits, lastSweep, window, r.at);
    ServedAnswers(max, window, swept, log, r, Pruned(Stored(swept, r.node), r.at - window), hits');
  }

  class Limiter {
    const max: int
    const window: int
    var hits: map<string, seq<int>>
    var lastSweep: int

    /** Every request answered so far, over all nodes. */
    ghost var log: seq<Request>

    ghost predicate Valid()
      reads this
    {
      Consistent(max, window, hits, log)
    }

    constructor (maxReqs: int, window: int, zeroTime: int)
      ensures Valid() && log == [] && hits == map[]
      ensures max == maxReqs && this.window == window && lastSweep == zeroTime
    {
      max, this.window, hits, lastSweep, log := maxReqs, window, map[], zeroTime, [];
    }

    /** At most once per window, forgets exactly the nodes all of whose hits have aged out. */
    method Sweep(t: int)
      modifies this`hits, this`lastSweep
      ensures hits == Swept(old(hits), old(lastSweep), window, t)
      ensures lastSweep == if Sub(t, old(lastSweep)) < window then old(lastSweep) else t
    {
      if Sub(t, lastSweep) < window {
        return;
      }
      lastSweep := t;
      var cutoff := t - window;
      var todo := hits.Keys;
      while todo != {}
        invariant todo <= hits.Keys <= old(hits).Keys && lastSweep == t
        invariant forall n :: n in hits ==> hits[n] == old(hits)[n]
        invariant forall n :: n in old(hits) && n !in todo ==> (n in hits <==> n in Recent(old(hits), cutoff))
        decreases |todo|
      {
        var node :| node in todo;
        todo := todo - {node};
        var h := hits[node];
        if |h| == 0 || h[|h| - 1] < cutoff {
          hits := hits - {node};
        }
      }
    }

    /** Sweeps, prunes the node's hits, and adds this one if there is room. */
    method Serve(node: string, t: int) returns (ok: bool)
      modifies this`hits, this`lastSweep
      ensures ok <==> |Pruned(Stored(Swept(old(hits), old(lastSweep), window, t), node), t - window)| < max
      ensures hits == Served(old(hits), old(lastSweep), window, Request(node, t, ok))
      ensures lastSweep == if Sub(t, old(lastSweep)) < window then old(lastSweep) else t
    {
      Sweep(t);
      var kept := PruneBefore(Stored(hits, node), t - window);
      if |kept| >= max {
        hits := hits[node := kept];
        return false;
      }
      hits := hits[node := kept + [t]];
      return true;
    }

    /**
     * With a clock that does not go back, a request is allowed exactly when the
     * node's whole history has fewer than `max` admissions in [t - window, t].
     */
    method Allow(node: string, t: int) returns (ok: bool)
      requires Valid()
      requires log != [] ==> Latest(log) <= t
      modifies this
      ensures Valid()
      ensures ok <==> HasRoom(max, window, Admissions(old(log), node), t)
      ensures log == old(log) + [Request(node, t, ok)]
      ensures hits == Served(old(hits), old(lastSweep), window, Request(node, t, ok))
      ensures lastSweep == if Sub(t, old(lastSweep)) < window then old(lastSweep) else t
    {
      ghost var was, since := hits, lastSweep;
      ok := Serve(node, t);
      ConsistentServed(max, window, was, log, since, Request(node, t, ok), hits);
      log := log + [Request(node, t, ok)];
    }
  }

  // ---- consequences of the rule, for every lawful monotone log ----

  /** Narrowing the interval cannot raise the count. */
  lemma {:induction false} CountNarrower(ts: seq<int>, lo: int, hi: int, lo': int, hi': int)
    requires forall i :: 0 <= i < |ts| && lo <= ts[i] <= hi ==> lo' <= ts[i] <= hi'
    ensures CountIn(ts, lo, hi) <= CountIn(ts, lo', hi')
  {
    if ts != [] {
      CountNarrower(ts[..|ts| - 1], lo, hi, lo', hi');
    }
  }

  /** A request admitted inside the interval still had room there. */
  lemma {:induction false} RoomInside(max: int, window: int, past: seq<Request>, r: Request, from: int)
    requires Monotone(past) && (past != [] ==> Latest(past) <= r.at)
    requires HasRoom(max, window, Admissions(past, r.node), r.at) && from <= r.at <= from + window
    ensures CountIn(Admissions(past, r.node), from, from + window) < max
  {
    var ts := Admissions(past, r.node);
    AdmissionsNotLater(past, r.node);
    forall i | 0 <= i < |ts| && from <= ts[i] <= from + window
      ensures r.at - window <= ts[i] <= r.at
    {
      assert ts[i] in ts;
    }
    CountNarrower(ts, from, from + window, r.at - window, r.at);
  }

  /** No closed interval of one window length ever holds more than `max` admissions of a node. */
  lemma {:induction false} WindowNeverExceeded(max: int, window: int, log: seq<Request>, node: string, from: int)
    requires Lawful(max, window, log) && Monotone(log)
    ensures CountIn(Admissions(log, node), from, from + window) <= if max < 0 then 0 else max
  {
    if log != [] {
      var n := |log| - 1;
      var past, r := log[..n], log[n];
      WindowNeverExceeded(max, window, past, node, from);
      var more := if r.ok && r.node == node then [r.at] else [];
      CountConcat(Admissions(past, node), more, from, from + window);
      if more != [] && from <= r.at <= from + window {
        RoomInside(max, window, past, r, from);
      }
    }
  }
}
