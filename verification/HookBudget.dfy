/**
 * pkg/extend: what the token bucket (ratelimit.go) means for the hook chains that
 * ask it (Registry.Run): how often an app's hooks are dispatched.
 */
module HookBudget {
  import opened HookRegistry
  import opened HookChain
  import opened TokenBucket

  /** How often an app's hooks were dispatched. */
  function Dispatches(trace: seq<Event>, appID: string): nat
  {
    if trace == [] then 0
    else
      var ev := trace[|trace| - 1];
      Dispatches(trace[..|trace| - 1], appID) + (if ev.HookRan? && ev.ext.appID == appID then 1 else 0)
  }

  lemma DispatchesSnoc(trace: seq<Event>, ev: Event, appID: string)
    ensures Dispatches(trace + [ev], appID)
         == Dispatches(trace, appID) + (if ev.HookRan? && ev.ext.appID == appID then 1 else 0)
  {
    assert (trace + [ev])[..|trace|] == trace;
  }

  lemma {:induction false} ForConcat(a: seq<Call>, b: seq<Call>, key: string)
    ensures For(a + b, key) == For(a, key) + For(b, key)
  {
    if b == [] {
      assert a + b == a;
    } else {
      assert (a + b)[..|a + b| - 1] == a + b[..|b| - 1];
      ForConcat(a, b[..|b| - 1], key);
    }
  }

  lemma {:induction false} AdmittedConcat(a: seq<Call>, b: seq<Call>)
    ensures Admitted(a + b) == Admitted(a) + Admitted(b)
  {
    if b == [] {
      assert a + b == a;
    } else {
      assert (a + b)[..|a + b| - 1] == a + b[..|b| - 1];
      AdmittedConcat(a, b[..|b| - 1]);
    }
  }

  /** The admissions of an app among some calls of the limiter. */
  function AdmittedFor(calls: seq<Call>, appID: string): real
  {
    Admitted(For(calls, appID))
  }

  lemma AdmittedForConcat(a: seq<Call>, b: seq<Call>, appID: string)
    ensures AdmittedFor(a + b, appID) == AdmittedFor(a, appID) + AdmittedFor(b, appID)
  {
    ForConcat(a, b, appID);
    AdmittedConcat(For(a, appID), For(b, appID));
  }

  lemma AdmittedForOne(c: Call, appID: string)
    ensures AdmittedFor([c], appID) == if c.ok && c.key == appID then 1.0 else 0.0
  {
    ForAfter([], c, appID);
    assert [] + [c] == [c];
    AdmittedOne(c);
  }

  /** The first call of the limiter and the calls after it. */
  lemma AdmittedForCons(c: Call, calls: seq<Call>, appID: string)
    ensures AdmittedFor([c] + calls, appID) == (if c.ok && c.key == appID then 1.0 else 0.0) + AdmittedFor(calls, appID)
  {
    AdmittedForOne(c, appID);
    AdmittedForConcat([c], calls, appID);
  }

  /** What hook i's call of the limiter adds to an app's admissions. */
  function Admits(e: Extension, r: Response, appID: string): nat
  {
    if !r.contextDone && !r.limited && e.appID == appID then 1 else 0
  }

  /** An app's admissions from hook i on, up to where the chain stops. */
  function AdmitsFrom(hooks: seq<Extension>, script: seq<Response>, i: nat, appID: string): nat
    requires i <= |hooks| <= |script|
    decreases |hooks| - i
  {
    if i == |hooks| then 0
    else Admits(hooks[i], script[i], appID) + if GoesOn(script[i]) then AdmitsFrom(hooks, script, i + 1, appID) else 0
  }

  lemma {:induction false} AskedAdmits(hooks: seq<Extension>, moments: seq<Moment>, script: seq<Response>, i: nat,
                                       appID: string)
    requires i <= |hooks| <= |script| && |script| == |moments|
    ensures AdmittedFor(Asked(hooks, moments, script, i), appID) == AdmitsFrom(hooks, script, i, appID) as real
    decreases |hooks| - i
  {
    if i < |hooks| && !script[i].contextDone {
      var later := if GoesOn(script[i]) then Asked(hooks, moments, script, i + 1) else [];
      var call := TokenBucket.Call(hooks[i].appID, moments[i].clock, !script[i].limited);
      assert Asked(hooks, moments, script, i) == [call] + later;
      AdmittedForCons(call, later, appID);
      if GoesOn(script[i]) {
        AskedAdmits(hooks, moments, script, i + 1, appID);
      }
    }
  }

  lemma {:induction false} RunAdmits(hooks: seq<Extension>, point: string, current: Args, script: seq<Response>, i: nat,
                                     trace: seq<Event>, appID: string)
    requires i <= |hooks| <= |script|
    ensures Dispatches(RunFrom(hooks, point, current, script, i, trace).trace, appID)
         == Dispatches(trace, appID) + AdmitsFrom(hooks, script, i, appID)
    decreases |hooks| - i
  {
    if i < |hooks| {
      var r := script[i];
      var ev := Called(hooks[i], point, current, r);
      DispatchesSnoc(trace, ev, appID);
      if GoesOn(r) {
        RunAdmits(hooks, point, Stamped(hooks[i], point, current, r), script, i + 1, trace + [ev], appID);
      }
    }
  }

  // ---- any number of runs on one limiter ----

  /** One run of a chain, with the answers it got. */
  datatype ChainRun = ChainRun(chain: Chain, script: seq<Response>)

  ghost predicate Ran(r: ChainRun) { Fits(r.chain, r.script) }

  ghost predicate AllRan(runs: seq<ChainRun>)
  {
    forall i :: 0 <= i < |runs| ==> Ran(runs[i])
  }

  /** The calls of the limiter a run makes. */
  ghost function AskedBy(r: ChainRun): seq<Call>
    requires Ran(r)
  {
    Asked(r.chain.hooks, r.chain.moments, r.script, 0)
  }

  /** How often a run dispatches an app's hooks. */
  ghost function DispatchedBy(r: ChainRun, appID: string): int
    requires Ran(r)
  {
    var c := r.chain;
    Dispatches(RunFrom(c.hooks, c.point, c.args, r.script, 0, c.before).trace, appID) - Dispatches(c.before, appID)
  }

  ghost function AskedByAll(runs: seq<ChainRun>): seq<Call>
    requires AllRan(runs)
  {
    if runs == [] then [] else AskedByAll(runs[..|runs| - 1]) + AskedBy(runs[|runs| - 1])
  }

  ghost function DispatchedByAll(runs: seq<ChainRun>, appID: string): int
    requires AllRan(runs)
  {
    if runs == [] then 0 else DispatchedByAll(runs[..|runs| - 1], appID) + DispatchedBy(runs[|runs| - 1], appID)
  }

  lemma {:induction false} AllAdmit(runs: seq<ChainRun>, appID: string)
    requires AllRan(runs)
    ensures DispatchedByAll(runs, appID) as real == AdmittedFor(AskedByAll(runs), appID)
  {
    if runs != [] {
      var front, last := runs[..|runs| - 1], runs[|runs| - 1];
      AllAdmit(front, appID);
      var c := last.chain;
      RunAdmits(c.hooks, c.point, c.args, last.script, 0, c.before, appID);
      AskedAdmits(c.hooks, c.moments, last.script, 0, appID);
      AdmittedForConcat(AskedByAll(front), AskedBy(last), appID);
    }
  }

  // ---- runs whose calls interleave ----

  /** The calls without the j-th. */
  function Dropped(calls: seq<Call>, j: nat): (rest: seq<Call>)
    requires j < |calls|
    ensures |rest| == |calls| - 1
  {
    calls[..j] + calls[j + 1..]
  }

  lemma DroppedOne(calls: seq<Call>, j: nat, appID: string)
    requires j < |calls|
    ensures multiset(calls) == multiset(Dropped(calls, j)) + multiset{calls[j]}
    ensures AdmittedFor(calls, appID) == AdmittedFor(Dropped(calls, j), appID) + AdmittedFor([calls[j]], appID)
  {
    var a, x, b := calls[..j], [calls[j]], calls[j + 1..];
    assert calls == a + x + b;
    AdmittedForConcat(a + x, b, appID);
    AdmittedForConcat(a, x, appID);
    AdmittedForConcat(a, b, appID);
  }

  lemma SameRest(a: multiset<Call>, b: multiset<Call>, x: multiset<Call>)
    requires a + x == b + x
    ensures a == b
  {
    forall c ensures a[c] == b[c] {
      assert (a + x)[c] == (b + x)[c];
    }
  }

  /** How often an app is admitted does not depend on the order of the calls. */
  lemma {:induction false} AdmittedForPermuted(a: seq<Call>, b: seq<Call>, appID: string)
    requires multiset(a) == multiset(b)
    ensures AdmittedFor(a, appID) == AdmittedFor(b, appID)
    decreases |a|
  {
    if a == [] {
      assert |multiset(b)| == |b|;
    } else {
      assert a[0] in multiset(b);
      var j :| 0 <= j < |b| && b[j] == a[0];
      DroppedOne(a, 0, appID);
      DroppedOne(b, j, appID);
      SameRest(multiset(Dropped(a, 0)), multiset(Dropped(b, j)), multiset{a[0]});
      AdmittedForPermuted(Dropped(a, 0), Dropped(b, j), appID);
    }
  }

  /** The calls are those of the runs, each once, in any order: the runs may overlap in any way. */
  ghost predicate Interleaves(calls: seq<Call>, runs: seq<ChainRun>)
    requires AllRan(runs)
  {
    multiset(calls) == multiset(AskedByAll(runs))
  }

  /** However runs overlap, an app's hooks are dispatched as often as the limiter admits the app. */
  lemma RunsDispatch(calls: seq<Call>, runs: seq<ChainRun>, appID: string)
    requires AllRan(runs) && Interleaves(calls, runs)
    ensures DispatchedByAll(runs, appID) as real == AdmittedFor(calls, appID)
  {
    AllAdmit(runs, appID);
    AdmittedForPermuted(calls, AskedByAll(runs), appID);
  }

  /** At most burst + rate * (time from the first of the later calls to the last). */
  ghost predicate WithinRate(rate: real, burst: real, past: seq<Call>, later: seq<Call>, n: real)
  {
    if later == [] then n <= 0.0
    else n <= burst + (Worth(rate, Clock(past + later)) - Worth(rate, Clock(past + later[..1])))
  }

  /** The admissions of a key's later calls, after any earlier ones. */
  lemma LaterBounded(rate: real, burst: real, past: seq<Call>, later: seq<Call>)
    requires rate > 0.0 && burst > 0.0 && Lawful(rate, burst, past + later)
    ensures WithinRate(rate, burst, past, later, Admitted(later))
  {
    if later != [] {
      var h, i := past + later, |past|;
      assert h[i..|h|] == later && h[..|h|] == h && h[..i + 1] == past + later[..1];
      AdmissionsBounded(rate, burst, h, i, |h|);
    }
  }

  lemma LimiterIsLawful(limiter: RateLimiter, key: string)
    requires limiter.Valid()
    ensures Lawful(limiter.rate, limiter.burst as real, For(limiter.log, key))
  {
    assert Tracks(limiter.rate, limiter.burst as real, limiter.buckets, key, For(limiter.log, key));
  }

  /**
   * Whatever a limiter was asked before, whatever hooks run and however the runs
   * overlap: an app's dispatches are at most burst + rate * (time from its first
   * call of the limiter in them to its last).
   */
  lemma DispatchesBounded(limiter: RateLimiter, early: seq<Call>, later: seq<Call>, runs: seq<ChainRun>, appID: string)
    requires limiter.Valid() && limiter.rate > 0.0 && limiter.burst as real > 0.0
    requires limiter.log == early + later && AllRan(runs) && Interleaves(later, runs)
    ensures WithinRate(limiter.rate, limiter.burst as real, For(early, appID), For(later, appID),
                       DispatchedByAll(runs, appID) as real)
  {
    LimiterIsLawful(limiter, appID);
    ForConcat(early, later, appID);
    RunsDispatch(later, runs, appID);
    LaterBounded(limiter.rate, limiter.burst as real, For(early, appID), For(later, appID));
  }
}
