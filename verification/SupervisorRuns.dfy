/**
 * Whole runs of the supervisor: a start, then any sequence of rescan ticks and
 * events of the supervise loops, over any history of the disk and the catalogue.
 */
module SupervisorRuns {
  import opened Manifests
  import opened Versions
  import opened SignatureThrottle
  import opened Scan
  import opened Supervisor
  import opened SupervisorLinks
  import opened SupervisorPasses
  import opened SupervisorEffects
  import CrashLoop
  import Paths

  /** The supervisor with its signature-failure records. */
  datatype Machine = Machine(st: State, fails: Failures)

  /** os.ReadDir of the install root. */
  datatype Listing = ListingFailed(error: string) | Listed(entries: seq<Entry>)

  datatype Step =
    | Rescan(listing: Listing, disk: Disk)
    | LoopReturns(handle: nat)
    | SocketUp(id: string)
    | ProcessExited(id: string)
    | CrashRecorded(id: string, record: CrashLoop.Record)

  /** The rescan's own warning: set while the root cannot be listed. */
  function NoteListing(st: State, listing: Listing): State
  {
    match listing
    case ListingFailed(error) => st.(warned := st.warned["rescan" := "rescan: " + error])
    case Listed(_) => st.(warned := st.warned - {"rescan"})
  }

  /** A failing listing is warned of, a good one clears that warning, and nothing else changes. */
  lemma ListingNoted(st: State, listing: Listing)
    ensures var st' := NoteListing(st, listing);
            && (forall id :: SameEntry(st, st', id)) && st'.loops == st.loops
            && (forall key :: key != "rescan" ==> SameWarning(st, st', key))
            && ("rescan" in st'.warned <==> listing.ListingFailed?)
  {
  }

  /** The entries a step visits. */
  function Visited(step: Step): seq<Entry>
  {
    if step.Rescan? && step.listing.Listed? then step.listing.entries else []
  }

  /** The apps a step's scan returns. */
  function ScannedBy(w: World, m: Machine, step: Step): seq<App>
  {
    ScanAll(w, m.fails, Visited(step)).1
  }

  /** A listing holds each name once, and the walks over the table cover it. */
  ghost predicate Possible(w: World, m: Machine, step: Step)
  {
    step.Rescan? ==>
      && DistinctNames(Visited(step))
      && Covers(NoteListing(m.st, step.listing), ScannedBy(w, m, step), step.disk)
  }

  function Next(w: World, m: Machine, step: Step): Machine
  {
    match step
    case Rescan(listing, disk) =>
      var (fails, apps) := ScanAll(w, m.fails, Visited(step));
      Machine(Tick(NoteListing(m.st, listing), apps, disk), fails)
    case LoopReturns(h) =>
      if h < |m.st.loops| then m.(st := m.st.(loops := m.st.loops[h := m.st.loops[h].(returned := true)])) else m
    case SocketUp(id) => m.(st := m.st.(ready := m.st.ready + {id}))
    case ProcessExited(id) => m.(st := m.st.(ready := m.st.ready - {id}))
    case CrashRecorded(id, rec) => m.(st := m.st.(crashes := m.st.crashes[id := rec]))
  }

  /** Events of the loops change only what they tell: readiness, a crash record, or that a loop has returned. */
  lemma EventsTell(w: World, m: Machine, id: string, record: CrashLoop.Record, h: nat)
    ensures var m' := Next(w, m, SocketUp(id));
            m'.fails == m.fails && m'.st == m.st.(ready := m'.st.ready) && m'.st.ready - {id} == m.st.ready - {id}
            && id in m'.st.ready
    ensures var m' := Next(w, m, ProcessExited(id));
            m'.fails == m.fails && m'.st == m.st.(ready := m'.st.ready) && m'.st.ready - {id} == m.st.ready - {id}
            && id !in m'.st.ready
    ensures var m' := Next(w, m, CrashRecorded(id, record));
            m'.fails == m.fails && m'.st == m.st.(crashes := m'.st.crashes)
            && m'.st.crashes - {id} == m.st.crashes - {id} && id in m'.st.crashes && m'.st.crashes[id] == record
    ensures h < |m.st.loops| ==>
              var m' := Next(w, m, LoopReturns(h));
              m'.fails == m.fails && m'.st == m.st.(loops := m'.st.loops) && |m'.st.loops| == |m.st.loops|
              && m'.st.loops[h] == Loop(m.st.loops[h].id, m.st.loops[h].cancelled, true)
              && forall g :: 0 <= g < |m.st.loops| && g != h ==> m'.st.loops[g] == m.st.loops[g]
  {
  }

  function Boot(w: World, entries: seq<Entry>): Machine
  {
    var (fails, apps) := ScanAll(w, map[], entries);
    Machine(Start(apps), fails)
  }

  /** The state after a boot and then the steps. */
  function Run(w: World, boot: seq<Entry>, steps: seq<Step>): Machine
  {
    if steps == [] then Boot(w, boot) else Next(w, Run(w, boot, steps[..|steps| - 1]), steps[|steps| - 1])
  }

  ghost predicate PossibleRun(w: World, boot: seq<Entry>, steps: seq<Step>)
  {
    if steps == [] then DistinctNames(boot)
    else
      && PossibleRun(w, boot, steps[..|steps| - 1])
      && Possible(w, Run(w, boot, steps[..|steps| - 1]), steps[|steps| - 1])
  }

  lemma RunSnoc(w: World, boot: seq<Entry>, steps: seq<Step>, step: Step)
    ensures Run(w, boot, steps + [step]) == Next(w, Run(w, boot, steps), step)
    ensures PossibleRun(w, boot, steps + [step]) <==>
      PossibleRun(w, boot, steps) && Possible(w, Run(w, boot, steps), step)
  {
    assert (steps + [step])[..|steps|] == steps;
  }

  /** A run of one step. */
  lemma RunOne(w: World, boot: seq<Entry>, step: Step)
    ensures Run(w, boot, [step]) == Next(w, Boot(w, boot), step)
    ensures PossibleRun(w, boot, [step]) <==> DistinctNames(boot) && Possible(w, Boot(w, boot), step)
  {
    RunSnoc(w, boot, [], step);
    assert [] + [step] == [step];
  }

  // ---- loops and table in step ----

  /** Every app a rescan resumes has no live loop, and is not new, rebuilt or upgraded in the same tick. */
  ghost predicate QuietStep(w: World, m: Machine, step: Step)
  {
    step.Rescan? ==> QuietTick(NoteListing(m.st, step.listing), ScannedBy(w, m, step), step.disk)
  }

  ghost predicate QuietRun(w: World, boot: seq<Entry>, steps: seq<Step>)
  {
    steps == [] ||
    (QuietRun(w, boot, steps[..|steps| - 1])
     && QuietStep(w, Run(w, boot, steps[..|steps| - 1]), steps[|steps| - 1]))
  }

  /** A step keeps loops and table in step if and only if it is quiet. */
  lemma NextInStepIff(w: World, m: Machine, step: Step)
    requires InStep(m.st) && Filed(m.st) && Possible(w, m, step)
    ensures InStep(Next(w, m, step).st) <==> QuietStep(w, m, step)
  {
    match step
    case Rescan(listing, disk) =>
      var st := NoteListing(m.st, listing);
      ScanReturnsDistinct(w, m.fails, Visited(step));
      SameLinks(m.st, st, {});
      SameFiling(m.st, st);
      TickInStepIff(st, ScannedBy(w, m, step), disk);
    case LoopReturns(h) =>
      if h < |m.st.loops| {
        ReturnInStep(m.st, h);
      }
    case _ =>
      SameLinks(m.st, Next(w, m, step).st, {});
  }

  lemma SameFiling(st: State, st': State)
    requires Filed(st) && st'.installed == st.installed
    ensures Filed(st')
  {
    forall id ensures FiledAt(st', id) {
      assert FiledAt(st, id);
    }
  }

  lemma NextFiled(w: World, m: Machine, step: Step)
    requires Filed(m.st)
    ensures Filed(Next(w, m, step).st)
  {
    if step.Rescan? {
      SameFiling(m.st, NoteListing(m.st, step.listing));
      TickFiled(NoteListing(m.st, step.listing), ScannedBy(w, m, step), step.disk);
    } else {
      SameFiling(m.st, Next(w, m, step).st);
    }
  }

  lemma {:induction false} RegisterAllFiled(apps: seq<App>)
    ensures Filed(RegisterAll(FRESH, apps))
  {
    if apps != [] {
      var mid := RegisterAll(FRESH, apps[..|apps| - 1]);
      RegisterAllFiled(apps[..|apps| - 1]);
      forall id ensures FiledAt(RegisterAll(FRESH, apps), id) {
        assert FiledAt(mid, id);
      }
    }
  }

  lemma StartInStep(apps: seq<App>)
    requires DistinctIds(apps)
    ensures InStep(Start(apps)) && Filed(Start(apps))
  {
    RegisterAllPending(apps);
    var st := RegisterAll(FRESH, apps);
    assert Linked(st, IdsOf(apps));
    StartAllLinked(st, apps, IdsOf(apps));
    assert IdsOf(apps) - IdsOf(apps) == {};
    RegisterAllFiled(apps);
    StartAllInstalled(st, apps);
    SameFiling(st, Start(apps));
  }

  lemma BootInStep(w: World, boot: seq<Entry>)
    requires DistinctNames(boot)
    ensures InStep(Boot(w, boot).st) && Filed(Boot(w, boot).st)
  {
    ScanReturnsDistinct(w, map[], boot);
    StartInStep(ScanAll(w, map[], boot).1);
  }

  lemma {:induction false} RunFiled(w: World, boot: seq<Entry>, steps: seq<Step>)
    requires PossibleRun(w, boot, steps)
    ensures Filed(Run(w, boot, steps).st)
  {
    if steps == [] {
      BootInStep(w, boot);
    } else {
      RunFiled(w, boot, steps[..|steps| - 1]);
      NextFiled(w, Run(w, boot, steps[..|steps| - 1]), steps[|steps| - 1]);
    }
  }

  /** The run is in step after its start and after every step. */
  ghost predicate AlwaysInStep(w: World, boot: seq<Entry>, steps: seq<Step>)
  {
    InStep(Run(w, boot, steps).st) && (steps != [] ==> AlwaysInStep(w, boot, steps[..|steps| - 1]))
  }

  /**
   * In a run, each app always has at most one live loop whose handle is the one in
   * appCancel, and the handles are always exactly those of the installed apps, if
   * and only if the run only resumes apps without a live loop, and never in the
   * tick that starts them.
   */
  lemma {:induction false} RunInStepIff(w: World, boot: seq<Entry>, steps: seq<Step>)
    requires PossibleRun(w, boot, steps)
    ensures AlwaysInStep(w, boot, steps) <==> QuietRun(w, boot, steps)
  {
    if steps == [] {
      BootInStep(w, boot);
    } else {
      var front := steps[..|steps| - 1];
      RunInStepIff(w, boot, front);
      RunFiled(w, boot, front);
      if AlwaysInStep(w, boot, front) {
        NextInStepIff(w, Run(w, boot, front), steps[|steps| - 1]);
      }
    }
  }

  // ---- what is installed passed every check ----

  /** Every entry visited in a run, in order. */
  function Seen(boot: seq<Entry>, steps: seq<Step>): seq<Entry>
  {
    if steps == [] then boot else Seen(boot, steps[..|steps| - 1]) + Visited(steps[|steps| - 1])
  }

  ghost predicate SoundAt(w: World, seen: seq<Entry>, st: State, id: string)
  {
    id in st.installed ==> Adopted(w, seen, st.installed[id])
  }

  /** Every installed app was adopted from an entry visited so far. */
  ghost predicate Sound(w: World, seen: seq<Entry>, st: State)
  {
    forall id :: SoundAt(w, seen, st, id)
  }

  lemma SoundKept(w: World, seen: seq<Entry>, st: State, st': State)
    requires Sound(w, seen, st)
    requires forall id :: id in st'.installed ==> id in st.installed && st'.installed[id] == st.installed[id]
    ensures Sound(w, seen, st')
  {
    forall id ensures SoundAt(w, seen, st', id) {
      assert SoundAt(w, seen, st, id);
    }
  }

  lemma SoundLater(w: World, seen: seq<Entry>, more: seq<Entry>, st: State)
    requires Sound(w, seen, st)
    ensures Sound(w, seen + more, st)
  {
    forall id ensures SoundAt(w, seen + more, st, id) {
      assert SoundAt(w, seen, st, id);
      if id in st.installed {
        AdoptedLater(w, seen, more, st.installed[id]);
      }
    }
  }

  lemma SoundPut(w: World, seen: seq<Entry>, st: State, st': State, a: App)
    requires Sound(w, seen, st) && Adopted(w, seen, a) && st'.installed == st.installed[a.manifest.id := a]
    ensures Sound(w, seen, st')
  {
    forall id ensures SoundAt(w, seen, st', id) {
      assert SoundAt(w, seen, st, id);
    }
  }

  lemma ApplySound(w: World, seen: seq<Entry>, p: Pass, a: App, change: Change, refusal: string)
    requires Sound(w, seen, p.st) && Adopted(w, seen, a)
    ensures Sound(w, seen, Apply(p, a, change, refusal).st)
  {
    if Starting(change) {
      SoundPut(w, seen, p.st, Apply(p, a, change, refusal).st, a);
    } else {
      SoundKept(w, seen, p.st, Apply(p, a, change, refusal).st);
    }
  }

  lemma {:induction false} NewAllSound(w: World, seen: seq<Entry>, st: State, apps: seq<App>)
    requires Sound(w, seen, st) && AllAdopted(w, seen, apps)
    ensures Sound(w, seen, NewAll(st, apps).st)
  {
    if apps != [] {
      var front, a := apps[..|apps| - 1], apps[|apps| - 1];
      NewAllSound(w, seen, st, front);
      var p := NewAll(st, front);
      var held := HeldAs(p.st, a.manifest.id);
      ApplySound(w, seen, p, a, ChangeFrom(held, a), RefusalOf(held, a));
    }
  }

  lemma {:induction false} RegisterAllSound(w: World, seen: seq<Entry>, apps: seq<App>)
    requires AllAdopted(w, seen, apps)
    ensures Sound(w, seen, RegisterAll(FRESH, apps))
  {
    if apps != [] {
      var front, a := apps[..|apps| - 1], apps[|apps| - 1];
      RegisterAllSound(w, seen, front);
      var mid := RegisterAll(FRESH, front);
      if RegisterOne(mid, a) != mid {
        SoundPut(w, seen, mid, RegisterOne(mid, a), a);
      }
    }
  }

  lemma NextSound(w: World, seen: seq<Entry>, m: Machine, step: Step)
    requires Sound(w, seen, m.st)
    ensures Sound(w, seen + Visited(step), Next(w, m, step).st)
  {
    var all := seen + Visited(step);
    SoundLater(w, seen, Visited(step), m.st);
    if step.Rescan? {
      var st, apps := NoteListing(m.st, step.listing), ScannedBy(w, m, step);
      ScanAdopts(w, m.fails, Visited(step));
      AllAdoptedStay(w, seen, Visited(step), [], apps);
      assert seen + Visited(step) + [] == all;
      SoundKept(w, all, m.st, st);
      NewAllSound(w, all, st, apps);
      TickInstalled(st, apps, step.disk);
      SoundKept(w, all, NewAll(st, apps).st, Tick(st, apps, step.disk));
    } else {
      SoundKept(w, all, m.st, Next(w, m, step).st);
    }
  }

  lemma {:induction false} RunSound(w: World, boot: seq<Entry>, steps: seq<Step>)
    ensures Sound(w, Seen(boot, steps), Run(w, boot, steps).st)
  {
    if steps == [] {
      var apps := ScanAll(w, map[], boot).1;
      ScanAdopts(w, map[], boot);
      RegisterAllSound(w, boot, apps);
      StartAllInstalled(RegisterAll(FRESH, apps), apps);
      SoundKept(w, boot, RegisterAll(FRESH, apps), Start(apps));
    } else {
      var front := steps[..|steps| - 1];
      RunSound(w, boot, front);
      NextSound(w, Seen(boot, front), Run(w, boot, front), steps[|steps| - 1]);
    }
  }

  /**
   * In every reachable state every installed app was found at some visit of the
   * run: it is what the manifest read then describes, valid, filed under its own
   * id and in the dir named after it, with its binary inside that dir. Unless it
   * carried a sideload marker then, it verified under the pin the catalogue showed
   * then; if it did, it passed the sideload policy.
   */
  lemma InstalledAreVerified(w: World, boot: seq<Entry>, steps: seq<Step>, id: string) returns (i: nat)
    requires PossibleRun(w, boot, steps) && Paths.AllProper(w.cwd) && id in Run(w, boot, steps).st.installed
    ensures i < |Seen(boot, steps)|
    ensures var a, e := Run(w, boot, steps).st.installed[id], Seen(boot, steps)[i];
            && a.manifest.id == id == e.name && ManifestOf(w, e) == Scan.Parsed(a.manifest) && w.valid(a.manifest)
            && a.dir == DirOf(w, id) && BinaryInside(w, a) && a.sideloaded == e.sideloadMarker
            && if a.sideloaded then SideloadSafe(a.manifest) else Trusted(w, a.manifest, e.pin)
  {
    RunFiled(w, boot, steps);
    RunSound(w, boot, steps);
    var st := Run(w, boot, steps).st;
    assert FiledAt(st, id) && SoundAt(w, Seen(boot, steps), st, id);
    i :| 0 <= i < |Seen(boot, steps)| && VerifyAlways(w, Seen(boot, steps)[i]) == Install(st.installed[id]);
    AdoptedMeans(w, Seen(boot, steps)[i], st.installed[id]);
  }

  /** The app was adopted from an entry the run visited. */
  ghost predicate FoundAtVisit(w: World, boot: seq<Entry>, steps: seq<Step>, a: App)
  {
    Adopted(w, Seen(boot, steps), a)
  }

  /**
   * In every reachable state the broker answers by the first gate that fails, and
   * dials only an app found at some visit whose manifest lists the method.
   */
  lemma DialsWhatWasFound(w: World, boot: seq<Entry>, steps: seq<Step>, ready: bool, callerID: string, appID: string,
                          name: string, origin: Origin)
    ensures var installed := Run(w, boot, steps).st.installed;
            var g := CallGate(installed, ready, callerID, appID, name, origin);
            && FirstFailing(g, installed, ready, callerID, appID, name, origin)
            && (g.Dial? ==> FoundAtVisit(w, boot, steps, g.app) && name in g.app.manifest.exposes)
  {
    var st := Run(w, boot, steps).st;
    GateIsFirstFailing(st.installed, ready, callerID, appID, name, origin);
    RunSound(w, boot, steps);
    assert SoundAt(w, Seen(boot, steps), st, appID);
  }

  /** In every reachable state, a cross-app call by a sideloaded app never reaches the dial. */
  lemma SideloadedNeverDialsInAnyRun(w: World, boot: seq<Entry>, steps: seq<Step>,
                                     ready: bool, callerID: string, appID: string, name: string, origin: Origin)
    requires callerID != ""
    requires var installed := Run(w, boot, steps).st.installed;
             callerID in installed && installed[callerID].sideloaded
    ensures !CallGate(Run(w, boot, steps).st.installed, ready, callerID, appID, name, origin).Dial?
  {
    RunSound(w, boot, steps);
    assert SoundAt(w, Seen(boot, steps), Run(w, boot, steps).st, callerID);
    SideloadedNeverDials(Run(w, boot, steps).st.installed, ready, callerID, appID, name, origin);
  }

  // ---- what the throttle shows of itself ----

  /** The same run with a scan that verifies every manifest every time. */
  function NextVerifying(w: World, st: State, step: Step): State
  {
    if step.Rescan? then Tick(NoteListing(st, step.listing), FullScan(w, Visited(step)), step.disk)
    else Next(w, Machine(st, map[]), step).st
  }

  function RunVerifying(w: World, boot: seq<Entry>, steps: seq<Step>): State
  {
    if steps == [] then Start(FullScan(w, boot))
    else NextVerifying(w, RunVerifying(w, boot, steps[..|steps| - 1]), steps[|steps| - 1])
  }

  lemma PinnedBoth(pins: Pins, a: seq<Entry>, b: seq<Entry>)
    requires AllPinned(pins, a + b)
    ensures AllPinned(pins, a) && AllPinned(pins, b)
  {
    assert forall i :: 0 <= i < |a| ==> a[i] == (a + b)[i];
    assert forall i :: 0 <= i < |b| ==> b[i] == (a + b)[|a| + i];
  }

  lemma NextVerifies(w: World, pins: Pins, m: Machine, step: Step)
    requires CollisionFree(w) && OnlyUntrusted(w, pins, m.fails) && AllPinned(pins, Visited(step))
    ensures Next(w, m, step).st == NextVerifying(w, m.st, step)
    ensures OnlyUntrusted(w, pins, Next(w, m, step).fails)
  {
    if step.Rescan? {
      ScanIsFullScan(w, pins, m.fails, Visited(step));
    }
  }

  /**
   * With fixed pins and a collision-free hash, for every history of the disk the
   * throttled supervisor is in exactly the state of one that verifies every
   * manifest on every scan.
   */
  lemma {:induction false} ThrottleInvisible(w: World, pins: Pins, boot: seq<Entry>, steps: seq<Step>)
    requires CollisionFree(w) && AllPinned(pins, Seen(boot, steps))
    ensures Run(w, boot, steps).st == RunVerifying(w, boot, steps)
    ensures OnlyUntrusted(w, pins, Run(w, boot, steps).fails)
  {
    if steps == [] {
      ScanIsFullScan(w, pins, map[], boot);
    } else {
      var front, step := steps[..|steps| - 1], steps[|steps| - 1];
      PinnedBoth(pins, Seen(boot, front), Visited(step));
      ThrottleInvisible(w, pins, boot, front);
      NextVerifies(w, pins, Run(w, boot, front), step);
    }
  }

  /** Every failure record of a run is explained by an entry it visited. */
  lemma {:induction false} RunExplained(w: World, boot: seq<Entry>, steps: seq<Step>)
    ensures Explained(w, Seen(boot, steps), Run(w, boot, steps).fails)
  {
    if steps == [] {
      assert [] + boot == boot;
      ScanExplained(w, [], map[], boot);
    } else {
      var front, step := steps[..|steps| - 1], steps[|steps| - 1];
      RunExplained(w, boot, front);
      if step.Rescan? {
        ScanExplained(w, Seen(boot, front), Run(w, boot, front).fails, Visited(step));
      } else {
        assert Seen(boot, steps) == Seen(boot, front);
      }
    }
  }

  lemma {:induction false} SomeWithheld(w: World, fails: Failures, entries: seq<Entry>) returns (k: nat)
    requires !NoneWithheld(w, fails, entries)
    ensures k < |entries| && Withheld(w, fails, entries[k])
  {
    k := |entries| - 1;
    if !Withheld(w, fails, entries[k]) {
      k := SomeWithheld(w, fails, entries[..k]);
    }
  }

  /**
   * With pins that may change: after any run, if a scan's answer is not that of a
   * scan that verifies everything, it holds an app that is withheld because its
   * very bytes failed before under another pin, less than 300 s after that failure
   * was noted.
   */
  lemma ThrottleShowsBriefly(w: World, boot: seq<Entry>, steps: seq<Step>, entries: seq<Entry>)
    returns (k: nat, i: nat)
    requires CollisionFree(w) && DistinctNames(entries)
    requires ScanAll(w, Run(w, boot, steps).fails, entries).1 != FullScan(w, entries)
    ensures var seen := Seen(boot, steps);
            && k < |entries| && i < |seen|
            && VerifyAlways(w, entries[k]).Install? && !entries[k].sideloadMarker
            && seen[i].name == entries[k].name && seen[i].file == entries[k].file
            && seen[i].pin != entries[k].pin
            && !Trusted(w, ManifestOf(w, entries[k]).m, seen[i].pin)
            && entries[k].checkedAt < seen[i].notedAt + SIG_BACKOFF_MAX
  {
    var fails := Run(w, boot, steps).fails;
    ScanDiffersIffWithheld(w, fails, entries);
    k := SomeWithheld(w, fails, entries);
    RunExplained(w, boot, steps);
    i := WithheldAfterPinChange(w, Seen(boot, steps), fails, entries[k]);
  }

  lemma VerifyingOne(w: World, boot: seq<Entry>, step: Step)
    ensures RunVerifying(w, boot, [step]) == NextVerifying(w, Start(FullScan(w, boot)), step)
  {
    var steps := [step];
    assert steps[..|steps| - 1] == [];
  }

  lemma OneName(e: Entry)
    ensures DistinctNames([e])
  {
    var entries := [e];
    assert entries[..|entries| - 1] == [];
  }

  /** Visiting an app that does not verify, with no failure on record. */
  lemma VisitFailing(w: World, e: Entry)
    requires ManifestOf(w, e).Parsed? && !e.sideloadMarker && !Trusted(w, ManifestOf(w, e).m, e.pin)
    ensures Scan.Visit(w, map[], e) == (map[e.name := Noted(map[], e.name, w.hash(e.file.bytes), e.notedAt)], Nothing)
    ensures VerifyAlways(w, e) == Nothing
  {
    var none: Failures := map[];
    var rec := Noted(none, e.name, w.hash(e.file.bytes), e.notedAt);
    assert none[e.name := rec] == map[e.name := rec];
  }

  /** A start that finds one such app. */
  lemma BootFailing(w: World, e: Entry)
    requires ManifestOf(w, e).Parsed? && !e.sideloadMarker && !Trusted(w, ManifestOf(w, e).m, e.pin)
    ensures var rec := Noted(map[], e.name, w.hash(e.file.bytes), e.notedAt);
            Boot(w, [e]) == Machine(Start([]), map[e.name := rec])
    ensures FullScan(w, [e]) == []
  {
    OneEntry(w, map[], e);
    VisitFailing(w, e);
  }

  lemma BackoffAfterFirst(dir: string, hash: string, now: int)
    ensures var rec := Noted(map[], dir, hash, now); rec.hash == hash && rec.nextRetry == now + SIG_BACKOFF_START
  {
  }

  /** An entry whose record is in backoff is not found. */
  lemma ScanWithheld(w: World, fails: Failures, e: Entry)
    requires Withheld(w, fails, e)
    ensures ScanAll(w, fails, [e]).1 == []
    ensures FullScan(w, [e]) == [VerifyAlways(w, e).app] && VerifyAlways(w, e).app.manifest.id == e.name
  {
    OneEntry(w, fails, e);
    VisitWithholds(w, fails, e);
  }

  /**
   * So it can show, in a possible run: an app whose pin is published within two
   * seconds of its failure is missed by the next rescan, and found by one that
   * verifies.
   */
  lemma PinChangeUnseen(w: World, before: Entry, after: Entry, gone: set<string>, markers: Markers)
    requires before.file == after.file && before.name == after.name && !before.sideloadMarker
    requires before.isDir == after.isDir && VerifyAlways(w, after).Install? && !after.sideloadMarker
    requires !Trusted(w, ManifestOf(w, before).m, before.pin)
    requires after.checkedAt < before.notedAt + SIG_BACKOFF_START
    requires after.name !in gone
    ensures var steps := [Rescan(Listed([after]), Disk([], gone, [], markers))];
            && PossibleRun(w, [before], steps)
            && after.name !in Run(w, [before], steps).st.installed
            && after.name in RunVerifying(w, [before], steps).installed
  {
    var disk := Disk([], gone, [], markers);
    var step := Rescan(Listed([after]), disk);
    var m := Boot(w, [before]);
    BootFailing(w, before);
    BackoffAfterFirst(before.name, w.hash(before.file.bytes), before.notedAt);
    ScanWithheld(w, m.fails, after);
    OneName(before);
    OneName(after);
    RunOne(w, [before], step);
    VerifyingOne(w, [before], step);
    var st := NoteListing(Start([]), step.listing);
    assert st.installed == map[];
    TickKeys(st, [], disk);
    var a := VerifyAlways(w, after).app;
    IdsSnoc([], a);
    assert [] + [a] == [a];
    TickKeys(st, [a], disk);
  }

  // ---- the table follows the disk ----

  /** After every rescan of a run the table holds what it held and what was scanned, less what is gone. */
  lemma RunFollowsDisk(w: World, boot: seq<Entry>, steps: seq<Step>)
    requires PossibleRun(w, boot, steps) && steps != [] && steps[|steps| - 1].Rescan?
    ensures var m, step := Run(w, boot, steps[..|steps| - 1]), steps[|steps| - 1];
            Run(w, boot, steps).st.installed.Keys
            == (m.st.installed.Keys + IdsOf(ScannedBy(w, m, step))) - step.disk.gone
  {
    var m, step := Run(w, boot, steps[..|steps| - 1]), steps[|steps| - 1];
    TableFollowsDisk(NoteListing(m.st, step.listing), ScannedBy(w, m, step), step.disk);
  }

  // ---- versions never go down ----

  lemma NextVersions(w: World, m: Machine, step: Step, id: string)
    requires id in m.st.installed && id in Next(w, m, step).st.installed
    ensures CompareVersions(VersionOf(m.st, id), VersionOf(Next(w, m, step).st, id)) <= 0
  {
    if step.Rescan? {
      var st := NoteListing(m.st, step.listing);
      NewAllVersions(st, ScannedBy(w, m, step), id);
      TickInstalled(st, ScannedBy(w, m, step), step.disk);
    }
  }

  /** The app is installed after each of the steps i, i+1, ..., n of the run. */
  ghost predicate InstalledThroughout(w: World, boot: seq<Entry>, steps: seq<Step>, id: string, i: nat, n: nat)
    requires i <= n <= |steps|
  {
    id in Run(w, boot, steps[..n]).st.installed
    && (i < n ==> InstalledThroughout(w, boot, steps, id, i, n - 1))
  }

  lemma RunUnfolds(w: World, boot: seq<Entry>, steps: seq<Step>, n: nat)
    requires 0 < n <= |steps|
    ensures Run(w, boot, steps[..n]) == Next(w, Run(w, boot, steps[..n - 1]), steps[n - 1])
  {
    assert steps[..n][..n - 1] == steps[..n - 1];
  }

  lemma NextNotBelow(w: World, m: Machine, step: Step, id: string, floor: string)
    requires id in m.st.installed && id in Next(w, m, step).st.installed
    requires CompareVersions(floor, VersionOf(m.st, id)) <= 0
    ensures CompareVersions(floor, VersionOf(Next(w, m, step).st, id)) <= 0
  {
    NextVersions(w, m, step, id);
    CompareTransitive(floor, VersionOf(m.st, id), VersionOf(Next(w, m, step).st, id));
  }

  /** From its registration until it is removed, an app's version never decreases. */
  lemma {:induction false} VersionsNeverDecrease(w: World, boot: seq<Entry>, steps: seq<Step>, id: string,
                                                 i: nat, n: nat)
    requires i <= n <= |steps| && InstalledThroughout(w, boot, steps, id, i, n)
    ensures id in Run(w, boot, steps[..i]).st.installed && id in Run(w, boot, steps[..n]).st.installed
    ensures CompareVersions(VersionOf(Run(w, boot, steps[..i]).st, id), VersionOf(Run(w, boot, steps[..n]).st, id)) <= 0
    decreases n
  {
    if i < n {
      VersionsNeverDecrease(w, boot, steps, id, i, n - 1);
      RunUnfolds(w, boot, steps, n);
      NextNotBelow(w, Run(w, boot, steps[..n - 1]), steps[n - 1], id, VersionOf(Run(w, boot, steps[..i]).st, id));
    } else {
      Reflexive(VersionOf(Run(w, boot, steps[..i]).st, id));
    }
  }
}
