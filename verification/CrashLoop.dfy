/**
 * plugin/appstore/supervisor.go: the crash-loop window (recordCrash,
 * markSuspended, isSuspended). Times and durations are nanoseconds.
 */
module CrashLoop {
  import opened Backoff
  import opened Seqs

  const CRASH_LOOP_WINDOW: int := 60 * SECOND
  const MAX_CRASHES_IN_WINDOW: int := 5

  // ---- the whole-history rule ----

  /** Crash i and the five after it span less than the window. */
  predicate Burst(h: seq<int>, i: nat)
    requires i + MAX_CRASHES_IN_WINDOW < |h|
  {
    h[i + MAX_CRASHES_IN_WINDOW] - h[i] < CRASH_LOOP_WINDOW
  }

  /** Some six consecutive crashes span less than the window. */
  ghost predicate Looping(h: seq<int>)
  {
    exists i :: 0 <= i < |h| - MAX_CRASHES_IN_WINDOW && Burst(h, i)
  }

  /** In nanoseconds: a sixth crash within less than a minute of the first of the six. */
  lemma LoopingIff(h: seq<int>)
    ensures Looping(h) <==> exists i :: 0 <= i < |h| - 5 && h[i + 5] - h[i] < 60000000000
  {
    forall i | 0 <= i < |h| - 5 ensures Burst(h, i) <==> h[i + 5] - h[i] < 60000000000 {
    }
  }

  function Since(cutoff: int): int -> bool { (t: int) => t > cutoff }

  /** The times after the cutoff. */
  function After(h: seq<int>, cutoff: int): (r: seq<int>)
  {
    if h == [] then []
    else
      var n := |h| - 1;
      if h[n] > cutoff then After(h[..n], cutoff) + [h[n]] else After(h[..n], cutoff)
  }

  lemma {:induction false} AfterIsFilter(h: seq<int>, cutoff: int)
    ensures Filter(h, Since(cutoff)) == After(h, cutoff)
  {
    if h != [] {
      AfterIsFilter(h[..|h| - 1], cutoff);
    }
  }

  lemma {:induction false} AfterNone(h: seq<int>, cutoff: int)
    requires Ascending(h) && h != [] && h[|h| - 1] <= cutoff
    ensures After(h, cutoff) == []
  {
    if |h| > 1 {
      AfterNone(h[..|h| - 1], cutoff);
    } else {
      assert h[..0] == [];
    }
  }

  /** In an ascending list, k times are after the cutoff exactly when the k-th from the end is. */
  lemma {:induction false} CountAfter(h: seq<int>, cutoff: int, k: nat)
    requires Ascending(h) && k >= 1
    ensures |After(h, cutoff)| >= k <==> k <= |h| && h[|h| - k] > cutoff
  {
    if h == [] {
    } else if h[|h| - 1] > cutoff {
      if k > 1 {
        CountAfter(h[..|h| - 1], cutoff, k - 1);
      }
    } else {
      AfterNone(h, cutoff);
      if k <= |h| {
        AscendingOrder(h, |h| - k, |h| - 1);
      }
    }
  }

  /** Pruning at an earlier cutoff first makes no difference. */
  lemma {:induction false} PruneTwice(h: seq<int>, early: int, late: int)
    requires early <= late
    ensures After(After(h, early), late) == After(h, late)
  {
    if h != [] {
      var n := |h| - 1;
      PruneTwice(h[..n], early, late);
      var front := After(h[..n], early);
      assert (front + [h[n]])[..|front|] == front;
    }
  }

  /** A history loops when it did before its last crash, or the last six are a burst. */
  lemma LoopingAfter(h: seq<int>)
    requires h != []
    ensures Looping(h) <==>
      Looping(h[..|h| - 1]) || (|h| > MAX_CRASHES_IN_WINDOW && Burst(h, |h| - 1 - MAX_CRASHES_IN_WINDOW))
  {
    var front := h[..|h| - 1];
    forall i | 0 <= i < |front| - MAX_CRASHES_IN_WINDOW ensures Burst(front, i) == Burst(h, i) {
    }
    if Looping(front) {
      var i :| 0 <= i < |front| - MAX_CRASHES_IN_WINDOW && Burst(front, i);
      assert Burst(h, i);
    }
  }

  /** How many times lie in the half-open window that starts at `from`. */
  function CountWindow(h: seq<int>, from: int): nat
  {
    if h == [] then 0
    else CountWindow(h[..|h| - 1], from) + (if from <= h[|h| - 1] < from + CRASH_LOOP_WINDOW then 1 else 0)
  }

  lemma {:induction false} WindowWithinAfter(h: seq<int>, from: int, cutoff: int)
    requires cutoff < from
    ensures CountWindow(h, from) <= |After(h, cutoff)|
  {
    if h != [] {
      WindowWithinAfter(h[..|h| - 1], from, cutoff);
    }
  }

  /** An app that never looped has at most five crashes in any window. */
  lemma {:induction false} FewInAnyWindow(h: seq<int>, from: int)
    requires Ascending(h) && !Looping(h)
    ensures CountWindow(h, from) <= MAX_CRASHES_IN_WINDOW
  {
    if h != [] {
      var n := |h| - 1;
      LoopingAfter(h);
      if from <= h[n] < from + CRASH_LOOP_WINDOW {
        CountAfter(h, h[n] - CRASH_LOOP_WINDOW, MAX_CRASHES_IN_WINDOW + 1);
        WindowWithinAfter(h, from, h[n] - CRASH_LOOP_WINDOW);
      } else {
        FewInAnyWindow(h[..n], from);
      }
    }
  }

  // ---- the record ----

  /** One app's record: recent crash times and the sticky suspended bit. */
  datatype Record = Record(times: seq<int>, suspended: bool)

  const EMPTY_RECORD := Record([], false)

  /** The crashes that pruning at the last crash leaves. */
  ghost function Recent(history: seq<int>): seq<int>
  {
    if history == [] then [] else After(history, history[|history| - 1] - CRASH_LOOP_WINDOW)
  }

  /** The record holds the crashes after the last pruning cutoff, and remembers a loop forever. */
  ghost predicate Tracks(rec: Record, history: seq<int>, marked: bool)
  {
    && Ascending(history)
    && (rec.suspended <==> marked || Looping(history))
    && rec.times == Recent(history)
  }

  /** Pruning what an earlier pruning left is pruning the whole history. */
  lemma RecentAfter(history: seq<int>, now: int)
    requires history != [] ==> history[|history| - 1] <= now
    ensures After(Recent(history), now - CRASH_LOOP_WINDOW) + [now] == Recent(history + [now])
  {
    if history != [] {
      PruneTwice(history, history[|history| - 1] - CRASH_LOOP_WINDOW, now - CRASH_LOOP_WINDOW);
    }
    assert (history + [now])[..|history|] == history;
  }

  /** More than five recent crashes, exactly when the last six span less than the window. */
  lemma RecentCounts(h: seq<int>)
    requires Ascending(h) && h != []
    ensures |Recent(h)| > MAX_CRASHES_IN_WINDOW <==>
      |h| > MAX_CRASHES_IN_WINDOW && Burst(h, |h| - 1 - MAX_CRASHES_IN_WINDOW)
  {
    CountAfter(h, h[|h| - 1] - CRASH_LOOP_WINDOW, MAX_CRASHES_IN_WINDOW + 1);
  }

  /** A history loops when it did before, or when its last pruning leaves more than five. */
  lemma LoopsOnce(h: seq<int>)
    requires Ascending(h) && h != []
    ensures Looping(h) <==> Looping(h[..|h| - 1]) || |Recent(h)| > MAX_CRASHES_IN_WINDOW
  {
    RecentCounts(h);
    LoopingAfter(h);
  }

  /** Recording a crash on a record that tracks a history tracks the longer one. */
  lemma TracksCrash(rec: Record, history: seq<int>, marked: bool, now: int, times: seq<int>)
    requires Tracks(rec, history, marked)
    requires history != [] ==> history[|history| - 1] <= now
    requires times == After(rec.times, now - CRASH_LOOP_WINDOW) + [now]
    ensures Tracks(Record(times, rec.suspended || |times| > MAX_CRASHES_IN_WINDOW), history + [now], marked)
  {
    var h' := history + [now];
    assert h'[..|h'| - 1] == history;
    RecentAfter(history, now);
    LoopsOnce(h');
  }

  /** Drops the entries at or before the cutoff, compacting the slice in place. */
  method Prune(times: seq<int>, cutoff: int) returns (kept: seq<int>)
    ensures kept == After(times, cutoff)
  {
    var buf := new int[|times|](i requires 0 <= i < |times| => times[i]);
    assert buf[..] == times;
    var n := CompactInPlace(buf, Since(cutoff));
    AfterIsFilter(times, cutoff);
    kept := buf[..n];
  }

  /** One more crash on a record: prune, append, and suspend at the sixth left. */
  method CrashOnto(rec: Record, now: int, ghost history: seq<int>, ghost marked: bool) returns (rec': Record)
    requires Tracks(rec, history, marked)
    requires history != [] ==> history[|history| - 1] <= now
    ensures Tracks(rec', history + [now], marked)
  {
    var times := Prune(rec.times, now - CRASH_LOOP_WINDOW);
    times := times + [now];
    TracksCrash(rec, history, marked, now, times);
    rec' := Record(times, rec.suspended || |times| > MAX_CRASHES_IN_WINDOW);
  }

  /** The times are in order, and none is after `now`. */
  ghost predicate NotAfter(ts: seq<int>, now: int)
  {
    Ascending(ts) && (ts != [] ==> ts[|ts| - 1] <= now)
  }

  /** The supervisor's crash records, keyed by app id. */
  class CrashTable {
    var crashes: map<string, Record>

    /** Crashes recorded per app since its record was last cleared. */
    ghost var history: map<string, seq<int>>

    /** Apps suspended by markSuspended since then. */
    ghost var marked: set<string>

    ghost predicate Valid()
      reads this
    {
      && crashes.Keys == history.Keys
      && marked <= crashes.Keys
      && forall id :: id in crashes ==> Tracks(crashes[id], history[id], id in marked)
    }

    ghost function History(id: string): seq<int>
      reads this
    {
      if id in history then history[id] else []
    }

    constructor ()
      ensures Valid() && crashes == map[] && history == map[] && marked == {}
    {
      crashes, history, marked := map[], map[], {};
    }

    /** Whether the app's restart budget is spent: it looped, or was marked. */
    method IsSuspended(id: string) returns (suspended: bool)
      requires Valid()
      ensures suspended <==> id in marked || Looping(History(id))
    {
      suspended := id in crashes && crashes[id].suspended;
    }

    /**
     * With a clock that does not go back, the answer is the whole-history rule:
     * some six consecutive crashes since the record was cleared span less than
     * the window (or the app was suspended some other way).
     */
    method RecordCrash(id: string, now: int) returns (suspended: bool)
      requires Valid()
      requires History(id) != [] ==> History(id)[|History(id)| - 1] <= now
      modifies this
      ensures Valid()
      ensures History(id) == old(History(id)) + [now] && marked == old(marked)
      ensures history == old(history)[id := History(id)]
      ensures suspended <==> id in marked || Looping(History(id))
    {
      var rec := if id in crashes then crashes[id] else EMPTY_RECORD;
      rec := CrashOnto(rec, now, History(id), id in marked);
      suspended := rec.suspended;
      history := history[id := History(id) + [now]];
      crashes := crashes[id := rec];
    }

    /** Suspends the app whatever its crashes. */
    method MarkSuspended(id: string)
      requires Valid()
      modifies this
      ensures Valid()
      ensures marked == old(marked) + {id}
      ensures history == old(history)[id := old(History(id))]
    {
      var rec := if id in crashes then crashes[id] else EMPTY_RECORD;
      history := history[id := History(id)];
      crashes := crashes[id := rec.(suspended := true)];
      marked := marked + {id};
    }

    /** Forgets the app's record: a new install, version, bundle or operator resume starts clean. */
    method Clear(id: string)
      requires Valid()
      modifies this
      ensures Valid()
      ensures history == old(history) - {id} && marked == old(marked) - {id}
    {
      crashes, history, marked := crashes - {id}, history - {id}, marked - {id};
    }
  }
}
