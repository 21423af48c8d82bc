/**
 * pkg/extend/runtime.go: the runtime-register surface and its per-app cap. A
 * Register call counts the app's hooks and inserts the new one in two separate
 * critical sections, so calls that overlap can pass the count together.
 */
module RegistrationCap {
  import opened HookRegistry

  const MAX_DYNAMIC_REGISTRATIONS_PER_APP: int := 32

  // ---- calls one at a time ----

  datatype Answer = Done | OnBehalfOfAnother | PermissionDenied | TooManyRegistrations | Refused(why: Registered)

  /** The extension a call asks to add: an empty app id is filled in with the caller's. */
  function Claimed(appID: string, ext: Extension): Extension
  {
    if ext.appID == "" then ext.(appID := appID) else ext
  }

  /** Which (app, point) pairs may register. */
  datatype Permission = NilPermission | Allow(may: (string, string) -> bool)

  function DenyAll(): (string, string) -> bool { (appID: string, point: string) => false }

  class DaemonHandler {
    const reg: Registry
    const perms: (string, string) -> bool

    /** Without permissions every registration is denied. */
    constructor (reg: Registry, perms: Permission)
      ensures this.reg == reg
      ensures forall appID, point :: this.perms(appID, point) <==> perms.Allow? && perms.may(appID, point)
    {
      var may: (string, string) -> bool := DenyAll();
      if perms.Allow? {
        may := perms.may;
      }
      this.reg, this.perms := reg, may;
    }

    /** With no other call in between, an app within the cap stays within it. */
    method Register(appID: string, ext: Extension) returns (r: Answer)
      requires reg.Valid()
      modifies reg
      ensures reg.Valid()
      ensures r.Done? <==>
        && (ext.appID == "" || ext.appID == appID)
        && perms(appID, ext.primitive)
        && CountApp(Survivors(old(reg.ops)), appID) < MAX_DYNAMIC_REGISTRATIONS_PER_APP
        && Acceptable(Claimed(appID, ext))
      ensures reg.ops == if r.Done? then old(reg.ops) + [Add(Claimed(appID, ext))] else old(reg.ops)
      // What is registered is the caller's own hook, as it was asked for.
      ensures r.Done? ==> reg.ops == old(reg.ops) + [Add(ext.(appID := appID))]
      ensures forall a :: CountApp(Survivors(old(reg.ops)), a) <= MAX_DYNAMIC_REGISTRATIONS_PER_APP ==>
                CountApp(Survivors(reg.ops), a) <= MAX_DYNAMIC_REGISTRATIONS_PER_APP
    {
      if ext.appID != "" && ext.appID != appID {
        return OnBehalfOfAnother;
      }
      var claimed := Claimed(appID, ext);
      if !perms(appID, ext.primitive) {
        return PermissionDenied;
      }
      var n := reg.CountForApp(appID);
      if n >= MAX_DYNAMIC_REGISTRATIONS_PER_APP {
        return TooManyRegistrations;
      }
      ghost var ops := reg.ops;
      var reply := reg.Register(claimed);
      if !reply.Accepted? {
        return Refused(reply);
      }
      SurvivorsAfter(ops, Add(claimed));
      forall a ensures CountApp(Survivors(reg.ops), a) == CountApp(Survivors(ops), a) + (if a == appID then 1 else 0) {
        CountSnoc(Survivors(ops), claimed, a);
      }
      return Done;
    }

    /** Removes the caller's own (point, method) hook; a malformed point is refused. */
    method Unregister(appID: string, primitive: string, methodName: string) returns (ok: bool)
      requires reg.Valid()
      modifies reg
      ensures reg.Valid()
      ensures ok <==> Pointed(primitive)
      ensures reg.ops == if ok then old(reg.ops) + [Remove(OneHook(appID, primitive, methodName))] else old(reg.ops)
      ensures ok ==> OnlyTripleGone(old(reg.ops), reg.ops, appID, primitive, methodName)
    {
      ValidIff(primitive);
      ok := IsValid(primitive);
      if ok {
        reg.UnregisterOne(appID, primitive, methodName);
      }
    }
  }

  // ---- calls that overlap ----

  /** A handler Register call in progress. */
  datatype Call = Call(appID: string, ext: Extension, passed: bool)

  datatype State = State(live: seq<Extension>, calls: map<nat, Call>)

  datatype Step =
    | Enter(id: nat, appID: string, ext: Extension)   // the call begins
    | Check(id: nat, permitted: bool)                 // caller, permission and count
    | Put(id: nat)                                    // Registry.Register, and return
    | Drop(removal: Removal)                          // any removal
    | Direct(ext: Extension)                          // Registry.Register by anyone else

  predicate Enabled(s: State, step: Step)
  {
    match step
    case Enter(id, _, _) => id !in s.calls
    case Check(id, _) => id in s.calls && !s.calls[id].passed
    case Put(id) => id in s.calls && s.calls[id].passed
    case Drop(_) => true
    case Direct(_) => true
  }

  predicate Passes(s: State, c: Call, permitted: bool)
  {
    && (c.ext.appID == "" || c.ext.appID == c.appID)
    && permitted
    && CountApp(s.live, c.appID) < MAX_DYNAMIC_REGISTRATIONS_PER_APP
  }

  function AddIfAcceptable(live: seq<Extension>, e: Extension): seq<Extension>
  {
    if Acceptable(e) then live + [e] else live
  }

  function Next(s: State, step: Step): State
    requires Enabled(s, step)
  {
    match step
    case Enter(id, a, e) => s.(calls := s.calls[id := Call(a, e, false)])
    case Check(id, permitted) =>
      var c := s.calls[id];
      if Passes(s, c, permitted) then s.(calls := s.calls[id := Call(c.appID, Claimed(c.appID, c.ext), true)])
      else s.(calls := s.calls - {id})
    case Put(id) => State(AddIfAcceptable(s.live, s.calls[id].ext), s.calls - {id})
    case Drop(d) => s.(live := Without(s.live, d))
    case Direct(e) => s.(live := AddIfAcceptable(s.live, e))
  }

  /** A run from the empty registry, step by step. */
  ghost predicate IsRun(steps: seq<Step>)
    decreases |steps|, 0
  {
    steps == [] || (IsRun(steps[..|steps| - 1]) && Enabled(After(steps[..|steps| - 1]), steps[|steps| - 1]))
  }

  ghost function After(steps: seq<Step>): State
    requires IsRun(steps)
    decreases |steps|, 1
  {
    if steps == [] then State([], map[]) else Next(After(steps[..|steps| - 1]), steps[|steps| - 1])
  }

  ghost function InFlight(s: State, appID: string): set<nat>
  {
    set id | id in s.calls && s.calls[id].appID == appID
  }

  ghost function Passed(s: State, appID: string): set<nat>
  {
    set id | id in s.calls && s.calls[id].appID == appID && s.calls[id].passed
  }

  /** At no point of the run are more than k Register calls of the app in progress. */
  ghost predicate OverlapAtMost(steps: seq<Step>, appID: string, k: nat)
    requires IsRun(steps)
  {
    |InFlight(After(steps), appID)| <= k && (steps != [] ==> OverlapAtMost(steps[..|steps| - 1], appID, k))
  }

  /** Every hook of the app is registered through the handler. */
  predicate OnlyThroughHandler(steps: seq<Step>, appID: string)
  {
    forall i :: 0 <= i < |steps| ==> steps[i].Direct? ==> steps[i].ext.appID != appID
  }

  /** Calls that passed the check insert hooks of their own app only. */
  ghost predicate OwnHooks(s: State)
  {
    forall id :: id in s.calls && s.calls[id].passed ==> s.calls[id].ext.appID == s.calls[id].appID
  }

  lemma {:induction false} CountWithout(s: seq<Extension>, d: Removal, appID: string)
    ensures CountApp(Without(s, d), appID) <= CountApp(s, appID)
  {
    if s != [] {
      CountWithout(s[..|s| - 1], d, appID);
      CountSnoc(Without(s[..|s| - 1], d), s[|s| - 1], appID);
    }
  }

  lemma StepKeepsOwnHooks(s: State, step: Step)
    requires Enabled(s, step) && OwnHooks(s)
    ensures OwnHooks(Next(s, step))
  {
  }

  lemma CheckKeepsCap(s: State, id: nat, permitted: bool, appID: string, k: nat)
    requires Enabled(s, Check(id, permitted))
    requires CountApp(s.live, appID) + |Passed(s, appID)| <= 31 + k
    requires |InFlight(Next(s, Check(id, permitted)), appID)| <= k
    ensures CountApp(s.live, appID) + |Passed(Next(s, Check(id, permitted)), appID)| <= 31 + k
  {
    var s' := Next(s, Check(id, permitted));
    if Passes(s, s.calls[id], permitted) && s.calls[id].appID == appID {
      SubsetSize(Passed(s', appID), InFlight(s', appID));
    } else {
      assert Passed(s', appID) == Passed(s, appID);
    }
  }

  lemma PutKeepsCap(s: State, id: nat, appID: string, k: nat)
    requires Enabled(s, Put(id)) && OwnHooks(s)
    requires CountApp(s.live, appID) + |Passed(s, appID)| <= 31 + k
    ensures CountApp(Next(s, Put(id)).live, appID) + |Passed(Next(s, Put(id)), appID)| <= 31 + k
  {
    var s' := Next(s, Put(id));
    CountSnoc(s.live, s.calls[id].ext, appID);
    if s.calls[id].appID == appID {
      assert id in Passed(s, appID);
      assert Passed(s', appID) == Passed(s, appID) - {id};
    } else {
      assert Passed(s', appID) == Passed(s, appID);
    }
  }

  /** One step: the hooks held plus the calls that may still insert stay within 31 + k. */
  lemma {:induction false} StepKeepsCap(s: State, step: Step, appID: string, k: nat)
    requires Enabled(s, step) && OwnHooks(s)
    requires step.Direct? ==> step.ext.appID != appID
    requires CountApp(s.live, appID) + |Passed(s, appID)| <= 31 + k
    requires |InFlight(Next(s, step), appID)| <= k
    ensures CountApp(Next(s, step).live, appID) + |Passed(Next(s, step), appID)| <= 31 + k
  {
    match step
    case Enter(id, a, e) =>
      assert Passed(Next(s, step), appID) == Passed(s, appID);
    case Check(id, permitted) =>
      CheckKeepsCap(s, id, permitted, appID, k);
    case Put(id) =>
      PutKeepsCap(s, id, appID, k);
    case Drop(d) =>
      CountWithout(s.live, d, appID);
      assert Passed(Next(s, step), appID) == Passed(s, appID);
    case Direct(e) =>
      CountSnoc(s.live, e, appID);
      assert Passed(Next(s, step), appID) == Passed(s, appID);
  }

  lemma {:induction false} SubsetSize(a: set<nat>, b: set<nat>)
    requires a <= b
    ensures |a| <= |b|
  {
    if a != {} {
      var x :| x in a;
      SubsetSize(a - {x}, b - {x});
    }
  }

  lemma {:induction false} RunKeepsCap(steps: seq<Step>, appID: string, k: nat)
    requires IsRun(steps) && OverlapAtMost(steps, appID, k) && OnlyThroughHandler(steps, appID)
    ensures OwnHooks(After(steps))
    ensures CountApp(After(steps).live, appID) + |Passed(After(steps), appID)| <= 31 + k
  {
    if steps == [] {
      assert Passed(After(steps), appID) == {};
    } else {
      var front, last := steps[..|steps| - 1], steps[|steps| - 1];
      RunKeepsCap(front, appID, k);
      StepKeepsOwnHooks(After(front), last);
      StepKeepsCap(After(front), last, appID, k);
    }
  }

  /** In any interleaving where at most k of its calls overlap, an app holds at most 31 + k hooks. */
  lemma CapUnderOverlap(steps: seq<Step>, appID: string, k: nat)
    requires IsRun(steps) && OverlapAtMost(steps, appID, k) && OnlyThroughHandler(steps, appID)
    ensures CountApp(After(steps).live, appID) <= 31 + k
  {
    RunKeepsCap(steps, appID, k);
  }

  // ---- the bound is reached ----

  /** Calls 0 .. m-1, all past the check. */
  function Waiting(e: Extension, m: nat): map<nat, Call>
  {
    if m == 0 then map[] else Waiting(e, m - 1)[m - 1 := Call(e.appID, e, true)]
  }

  lemma {:induction false} WaitingSize(e: Extension, m: nat, live: seq<Extension>)
    ensures forall id: nat :: id in Waiting(e, m) <==> id < m
    ensures |InFlight(State(live, Waiting(e, m)), e.appID)| == m
  {
    if m > 0 {
      WaitingSize(e, m - 1, live);
      OneMoreInFlight(live, Waiting(e, m - 1), m - 1, Call(e.appID, e, true));
    } else {
      assert InFlight(State(live, Waiting(e, m)), e.appID) == {};
    }
  }

  lemma OneMoreInFlight(live: seq<Extension>, calls: map<nat, Call>, id: nat, c: Call)
    requires id !in calls
    ensures |InFlight(State(live, calls[id := c]), c.appID)| == |InFlight(State(live, calls), c.appID)| + 1
  {
    assert InFlight(State(live, calls[id := c]), c.appID) == InFlight(State(live, calls), c.appID) + {id};
  }

  /** The run so far, with `n` hooks of the app held and calls 0 .. m-1 past the check. */
  ghost predicate Poised(steps: seq<Step>, e: Extension, n: nat, m: nat, k: nat)
  {
    && IsRun(steps) && OverlapAtMost(steps, e.appID, k) && OnlyThroughHandler(steps, e.appID)
    && CountApp(After(steps).live, e.appID) == n
    && After(steps).calls == Waiting(e, m)
  }

  lemma Extend(steps: seq<Step>, step: Step, appID: string, k: nat)
    requires IsRun(steps) && OverlapAtMost(steps, appID, k) && OnlyThroughHandler(steps, appID)
    requires Enabled(After(steps), step) && !step.Direct?
    requires |InFlight(Next(After(steps), step), appID)| <= k
    ensures IsRun(steps + [step]) && After(steps + [step]) == Next(After(steps), step)
    ensures OverlapAtMost(steps + [step], appID, k) && OnlyThroughHandler(steps + [step], appID)
  {
    assert (steps + [step])[..|steps|] == steps;
  }

  /** One more call gets past the check while the app holds fewer than 32. */
  lemma OneMorePasses(steps: seq<Step>, e: Extension, n: nat, m: nat, k: nat) returns (steps': seq<Step>)
    requires Poised(steps, e, n, m, k) && m < k && n < MAX_DYNAMIC_REGISTRATIONS_PER_APP && e.appID != ""
    ensures Poised(steps', e, n, m + 1, k)
  {
    var s := After(steps);
    var enter, check := Enter(m, e.appID, e), Check(m, true);
    WaitingSize(e, m, s.live);
    OneMoreInFlight(s.live, s.calls, m, Call(e.appID, e, false));
    Extend(steps, enter, e.appID, k);
    var s1 := After(steps + [enter]);
    assert s1.calls[m := Call(e.appID, e, true)] == Waiting(e, m + 1);
    WaitingSize(e, m + 1, s.live);
    Extend(steps + [enter], check, e.appID, k);
    steps' := steps + [enter] + [check];
  }

  /** One call past the check inserts, whatever the app holds by now. */
  lemma OneInserts(steps: seq<Step>, e: Extension, n: nat, m: nat, k: nat) returns (steps': seq<Step>)
    requires Poised(steps, e, n, m + 1, k) && Acceptable(e) && m <= k
    ensures Poised(steps', e, n + 1, m, k)
  {
    var s := After(steps);
    WaitingSize(e, m, s.live + [e]);
    assert s.calls - {m} == Waiting(e, m);
    CountSnoc(s.live, e, e.appID);
    Extend(steps, Put(m), e.appID, k);
    steps' := steps + [Put(m)];
  }

  /** Serialized calls fill the app up to 31. */
  lemma {:induction false} FillTo(n: nat, e: Extension, k: nat) returns (steps: seq<Step>)
    requires Acceptable(e) && e.appID != "" && k >= 1 && n <= 31
    ensures Poised(steps, e, n, 0, k)
  {
    if n == 0 {
      steps := [];
      assert InFlight(After([]), e.appID) == {};
    } else {
      steps := FillTo(n - 1, e, k);
      steps := OneMorePasses(steps, e, n - 1, 0, k);
      steps := OneInserts(steps, e, n - 1, 0, k);
    }
  }

  lemma {:induction false} PassTogether(m: nat, e: Extension, k: nat) returns (steps: seq<Step>)
    requires Acceptable(e) && e.appID != "" && 1 <= k && m <= k
    ensures Poised(steps, e, 31, m, k)
  {
    if m == 0 {
      steps := FillTo(31, e, k);
    } else {
      steps := PassTogether(m - 1, e, k);
      steps := OneMorePasses(steps, e, 31, m - 1, k);
    }
  }

  lemma {:induction false} InsertTogether(m: nat, e: Extension, k: nat) returns (steps: seq<Step>)
    requires Acceptable(e) && e.appID != "" && 1 <= k && m <= k
    ensures Poised(steps, e, 31 + m, k - m, k)
  {
    if m == 0 {
      steps := PassTogether(k, e, k);
    } else {
      steps := InsertTogether(m - 1, e, k);
      steps := OneInserts(steps, e, 31 + m - 1, k - m, k);
    }
  }

  /** For every k there is an interleaving of k overlapping calls after which the app holds 31 + k hooks. */
  lemma CapReached(e: Extension, k: nat) returns (steps: seq<Step>)
    requires Acceptable(e) && e.appID != "" && k >= 1
    ensures IsRun(steps) && OverlapAtMost(steps, e.appID, k) && OnlyThroughHandler(steps, e.appID)
    ensures CountApp(After(steps).live, e.appID) == 31 + k
  {
    steps := InsertTogether(k, e, k);
  }

  /** The documented cap of 32 holds in every interleaving exactly when calls of an app never overlap. */
  lemma DocumentedCapIffSerialized(e: Extension, k: nat)
    requires Acceptable(e) && e.appID != ""
    ensures (forall steps :: IsRun(steps) && OverlapAtMost(steps, e.appID, k) && OnlyThroughHandler(steps, e.appID) ==>
              CountApp(After(steps).live, e.appID) <= MAX_DYNAMIC_REGISTRATIONS_PER_APP) <==> k <= 1
  {
    if k <= 1 {
      forall steps | IsRun(steps) && OverlapAtMost(steps, e.appID, k) && OnlyThroughHandler(steps, e.appID)
        ensures CountApp(After(steps).live, e.appID) <= MAX_DYNAMIC_REGISTRATIONS_PER_APP
      {
        CapUnderOverlap(steps, e.appID, k);
      }
    } else {
      var steps := CapReached(e, k);
    }
  }

  /** Acceptable extensions exist, so any two overlapping calls of some app can exceed the documented cap. */
  lemma CapExceeded(k: nat) returns (e: Extension, steps: seq<Step>)
    requires k > 1
    ensures IsRun(steps) && OverlapAtMost(steps, e.appID, k) && OnlyThroughHandler(steps, e.appID)
    ensures CountApp(After(steps).live, e.appID) == 31 + k > MAX_DYNAMIC_REGISTRATIONS_PER_APP
  {
    e := SomeAcceptable("app", "point", "method");
    steps := CapReached(e, k);
  }
}
