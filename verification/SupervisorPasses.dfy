/**
 * What the rescan's passes do to versions, warnings, readiness, crash records and
 * the table's contents.
 */
module SupervisorPasses {
  import opened Manifests
  import opened Versions
  import opened SignatureThrottle
  import opened Scan
  import opened Supervisor
  import opened SupervisorLinks

  // ---- versions never go down ----

  function VersionOf(st: State, id: string): string
    requires id in st.installed
  {
    st.installed[id].manifest.appVersion
  }

  /** A change that replaces the app an id holds keeps its version or raises it. */
  lemma ChangeNotBelow(prior: App, a: App)
    requires var c := ChangeFrom(Holds(prior), a); !c.Unchanged? && !c.Downgrade?
    ensures CompareVersions(prior.manifest.appVersion, a.manifest.appVersion) <= 0
  {
    CompareAntisymmetric(prior.manifest.appVersion, a.manifest.appVersion);
  }

  lemma Reflexive(v: string)
    ensures CompareVersions(v, v) == 0
  {
  }

  /** What an app's entry becomes in one step of the pass. */
  lemma ApplyEntry(p: Pass, a: App, change: Change, refusal: string, id: string)
    requires id in p.st.installed
    ensures var st' := Apply(p, a, change, refusal).st;
            id in st'.installed &&
            st'.installed[id] == if a.manifest.id == id && Starting(change) then a else p.st.installed[id]
  {
  }

  lemma NewOneVersion(p: Pass, a: App, id: string)
    requires id in p.st.installed
    ensures id in NewOne(p, a).st.installed
    ensures CompareVersions(VersionOf(p.st, id), VersionOf(NewOne(p, a).st, id)) <= 0
  {
    var held := HeldAs(p.st, a.manifest.id);
    var change := ChangeFrom(held, a);
    ApplyEntry(p, a, change, RefusalOf(held, a), id);
    if a.manifest.id == id && !change.Unchanged? && !change.Downgrade? {
      ChangeNotBelow(p.st.installed[id], a);
    } else {
      Reflexive(VersionOf(p.st, id));
    }
  }

  lemma {:induction false} NewAllVersions(st: State, apps: seq<App>, id: string)
    requires id in st.installed
    ensures var st' := NewAll(st, apps).st;
            id in st'.installed && CompareVersions(VersionOf(st, id), VersionOf(st', id)) <= 0
  {
    if apps == [] {
      Reflexive(VersionOf(st, id));
    } else {
      var front, a := apps[..|apps| - 1], apps[|apps| - 1];
      NewAllVersions(st, front, id);
      var p := NewAll(st, front);
      NewOneVersion(p, a, id);
      CompareTransitive(VersionOf(st, id), VersionOf(p.st, id), VersionOf(NewOne(p, a).st, id));
    }
  }

  // ---- a rescan converges ----

  /** Another look at the app changes nothing and says nothing. */
  predicate Settled(st: State, a: App)
  {
    var held, key := HeldAs(st, a.manifest.id), DowngradeKey(a.manifest.id);
    || ChangeFrom(held, a).Unchanged?
    || (ChangeFrom(held, a).Downgrade? && key in st.warned && st.warned[key] == RefusalOf(held, a))
  }

  lemma KeysDiffer(a: string, b: string)
    requires a != b
    ensures DowngradeKey(a) != DowngradeKey(b)
  {
    assert DowngradeKey(a)[|"downgrade/"|..] == a && DowngradeKey(b)[|"downgrade/"|..] == b;
  }

  lemma SameAsItself(a: App)
    ensures ChangeFrom(Holds(a), a).Unchanged?
  {
  }

  lemma ApplyHeld(p: Pass, a: App, change: Change, refusal: string)
    ensures var st' := Apply(p, a, change, refusal).st;
            && (!change.Unchanged? && !change.Downgrade? ==> HeldAs(st', a.manifest.id) == Holds(a))
            && (change.Unchanged? || change.Downgrade? ==> HeldAs(st', a.manifest.id) == HeldAs(p.st, a.manifest.id))
            && (change.Downgrade? ==> DowngradeKey(a.manifest.id) in st'.warned
                                      && st'.warned[DowngradeKey(a.manifest.id)] == refusal)
  {
  }

  lemma NewOneSettles(p: Pass, a: App)
    ensures Settled(NewOne(p, a).st, a)
  {
    var held := HeldAs(p.st, a.manifest.id);
    ApplyHeld(p, a, ChangeFrom(held, a), RefusalOf(held, a));
    SameAsItself(a);
  }

  /** One step of the pass leaves the entry and the warning of every other app alone. */
  lemma ApplyLeaves(p: Pass, b: App, change: Change, refusal: string, id: string, key: string)
    requires id != b.manifest.id && key != DowngradeKey(b.manifest.id)
    ensures var st' := Apply(p, b, change, refusal).st;
            && HeldAs(st', id) == HeldAs(p.st, id)
            && (key in st'.warned <==> key in p.st.warned)
            && (key in p.st.warned ==> st'.warned[key] == p.st.warned[key])
  {
  }

  /** Looking at another app leaves a settled one settled. */
  lemma NewOneKeepsSettled(p: Pass, a: App, b: App)
    requires Settled(p.st, a) && a.manifest.id != b.manifest.id
    ensures Settled(NewOne(p, b).st, a)
  {
    KeysDiffer(a.manifest.id, b.manifest.id);
    var held := HeldAs(p.st, b.manifest.id);
    ApplyLeaves(p, b, ChangeFrom(held, b), RefusalOf(held, b), a.manifest.id, DowngradeKey(a.manifest.id));
  }

  ghost predicate AllSettled(st: State, apps: seq<App>)
  {
    apps == [] || (AllSettled(st, apps[..|apps| - 1]) && Settled(st, apps[|apps| - 1]))
  }

  lemma {:induction false} NewOneKeepsAllSettled(p: Pass, apps: seq<App>, b: App)
    requires AllSettled(p.st, apps) && b.manifest.id !in IdsOf(apps)
    ensures AllSettled(NewOne(p, b).st, apps)
  {
    if apps != [] {
      NewOneKeepsAllSettled(p, apps[..|apps| - 1], b);
      NewOneKeepsSettled(p, apps[|apps| - 1], b);
    }
  }

  lemma {:induction false} NewAllSettles(st: State, apps: seq<App>)
    requires DistinctIds(apps)
    ensures AllSettled(NewAll(st, apps).st, apps)
  {
    if apps != [] {
      var front, a := apps[..|apps| - 1], apps[|apps| - 1];
      NewAllSettles(st, front);
      NewOneKeepsAllSettled(NewAll(st, front), front, a);
      NewOneSettles(NewAll(st, front), a);
    }
  }

  lemma SettledIsNoOp(st: State, a: App)
    requires Settled(st, a)
    ensures NewOne(Pass(st, [], []), a) == Pass(st, [], [])
  {
    var held, key := HeldAs(st, a.manifest.id), DowngradeKey(a.manifest.id);
    if ChangeFrom(held, a).Downgrade? {
      assert st.warned[key := RefusalOf(held, a)] == st.warned;
    }
  }

  lemma {:induction false} SettledPassIsNoOp(st: State, apps: seq<App>)
    requires AllSettled(st, apps)
    ensures NewAll(st, apps) == Pass(st, [], [])
  {
    if apps != [] {
      SettledPassIsNoOp(st, apps[..|apps| - 1]);
      SettledIsNoOp(st, apps[|apps| - 1]);
    }
  }

  lemma {:induction false} SettledThroughStarts(st: State, st': State, apps: seq<App>)
    requires AllSettled(st, apps) && st'.installed == st.installed && st'.warned == st.warned
    ensures AllSettled(st', apps)
  {
    if apps != [] {
      SettledThroughStarts(st, st', apps[..|apps| - 1]);
    }
  }

  lemma {:induction false} StartAllKeepsWarnings(st: State, apps: seq<App>)
    ensures StartAll(st, apps).warned == st.warned
  {
    if apps != [] {
      StartAllKeepsWarnings(st, apps[..|apps| - 1]);
    }
  }

  /**
   * A second pass over the same scan result, after the first one's apps were
   * started, starts nothing, changes nothing and repeats no downgrade warning.
   */
  lemma RescanConverges(w: World, fails: Failures, entries: seq<Entry>, st: State)
    requires DistinctNames(entries)
    ensures var apps := ScanAll(w, fails, entries).1;
            var first := NewAll(st, apps);
            var started := StartAll(first.st, first.toStart);
            NewAll(started, apps) == Pass(started, [], [])
  {
    ScanReturnsDistinct(w, fails, entries);
    var apps := ScanAll(w, fails, entries).1;
    var first := NewAll(st, apps);
    var started := StartAll(first.st, first.toStart);
    NewAllSettles(st, apps);
    StartAllInstalled(first.st, first.toStart);
    StartAllKeepsWarnings(first.st, first.toStart);
    SettledThroughStarts(first.st, started, apps);
    SettledPassIsNoOp(started, apps);
  }

  // ---- the table follows the disk ----

  lemma TickKeys(st: State, apps: seq<App>, disk: Disk)
    ensures forall id :: id in Tick(st, apps, disk).installed <==>
              Walked(st, apps, id) && !(id in disk.gone && id in disk.goneOrder)
  {
    BeforeResumeKeys(st, apps, disk);
    var before := BeforeResume(st, apps, disk);
    ResumeAllInstalled(before, disk.resumeOrder, disk.markers);
    var r := ResumeAll(before, disk.resumeOrder, disk.markers);
    StartAllInstalled(r.st, r.resumed);
  }

  /** After a tick the table holds what it held and what was scanned, less what is gone. */
  lemma TableFollowsDisk(st: State, apps: seq<App>, disk: Disk)
    requires Covers(st, apps, disk)
    ensures Tick(st, apps, disk).installed.Keys == (st.installed.Keys + IdsOf(apps)) - disk.gone
  {
    TickKeys(st, apps, disk);
    assert forall id :: id in Tick(st, apps, disk).installed <==> Walked(st, apps, id) && id !in disk.gone;
  }

  // ---- loops start with a clean crash record ----

  predicate CleanLoop(st: State, h: nat)
  {
    h < |st.loops| ==> st.loops[h].id !in st.crashes
  }

  /** No loop from handle n on has a crash record. */
  ghost predicate CleanFrom(st: State, n: nat)
  {
    n <= |st.loops| && forall h :: n <= h ==> CleanLoop(st, h)
  }

  /** Dropping records and cancelling loops keeps loops clean. */
  lemma CleanKept(st: State, st': State, n: nat)
    requires CleanFrom(st, n) && st'.crashes.Keys <= st.crashes.Keys && |st'.loops| == |st.loops|
    requires forall h :: 0 <= h < |st.loops| ==> st'.loops[h].id == st.loops[h].id
    ensures CleanFrom(st', n)
  {
    forall h: nat | n <= h ensures CleanLoop(st', h) {
      assert CleanLoop(st, h);
    }
  }

  lemma {:induction false} StartAllClean(st: State, apps: seq<App>, n: nat)
    requires CleanFrom(st, n) && IdsOf(apps) !! st.crashes.Keys
    ensures CleanFrom(StartAll(st, apps), n) && StartAll(st, apps).crashes == st.crashes
  {
    if apps != [] {
      var front, a := apps[..|apps| - 1], apps[|apps| - 1];
      StartAllClean(st, front, n);
      var mid, st' := StartAll(st, front), StartAll(st, apps);
      forall h: nat | n <= h ensures CleanLoop(st', h) {
        assert CleanLoop(mid, h);
      }
    }
  }

  lemma ApplyClean(p: Pass, a: App, change: Change, refusal: string)
    requires IdsOf(p.toStart) !! p.st.crashes.Keys
    ensures var p' := Apply(p, a, change, refusal);
            && IdsOf(p'.toStart) !! p'.st.crashes.Keys && p'.st.crashes.Keys <= p.st.crashes.Keys
            && |p'.st.loops| == |p.st.loops|
            && (forall h :: 0 <= h < |p.st.loops| ==> p'.st.loops[h].id == p.st.loops[h].id)
  {
    IdsSnoc(p.toStart, a);
  }

  lemma {:induction false} NewAllClean(st: State, apps: seq<App>)
    ensures var p := NewAll(st, apps);
            IdsOf(p.toStart) !! p.st.crashes.Keys && CleanFrom(p.st, |st.loops|) && |p.st.loops| == |st.loops|
  {
    if apps != [] {
      var front, a := apps[..|apps| - 1], apps[|apps| - 1];
      NewAllClean(st, front);
      var p := NewAll(st, front);
      var held := HeldAs(p.st, a.manifest.id);
      ApplyClean(p, a, ChangeFrom(held, a), RefusalOf(held, a));
      CleanKept(p.st, NewAll(st, apps).st, |st.loops|);
    }
  }

  lemma {:induction false} GoneAllClean(st: State, order: seq<string>, gone: set<string>, n: nat)
    requires CleanFrom(st, n)
    ensures CleanFrom(GoneAll(st, order, gone), n)
  {
    if order != [] {
      GoneAllClean(st, order[..|order| - 1], gone, n);
      CleanKept(GoneAll(st, order[..|order| - 1], gone), GoneAll(st, order, gone), n);
    }
  }

  lemma {:induction false} ResumeAllClean(st: State, order: seq<string>, markers: Markers, n: nat)
    requires CleanFrom(st, n) && Filed(st)
    ensures var r := ResumeAll(st, order, markers);
            CleanFrom(r.st, n) && IdsOf(r.resumed) !! r.st.crashes.Keys
  {
    if order != [] {
      var front, id := order[..|order| - 1], order[|order| - 1];
      ResumeAllClean(st, front, markers, n);
      ResumeAllInstalled(st, front, markers);
      var r := ResumeAll(st, front, markers);
      CleanKept(r.st, ResumeOne(r, id).st, n);
      assert FiledAt(st, id);
      if id in r.st.installed {
        IdsSnoc(r.resumed, r.st.installed[id]);
      }
    }
  }

  /** Every loop a tick starts, for a new, upgraded, rebuilt or resumed app, starts without a crash record. */
  lemma TickStartsClean(st: State, apps: seq<App>, disk: Disk)
    requires Filed(st)
    ensures CleanFrom(Tick(st, apps, disk), |st.loops|)
  {
    var p := NewAll(st, apps);
    NewAllClean(st, apps);
    StartAllClean(p.st, p.toStart, |st.loops|);
    GoneAllClean(StartAll(p.st, p.toStart), disk.goneOrder, disk.gone, |st.loops|);
    TickFiled(st, apps, disk);
    var before := BeforeResume(st, apps, disk);
    ResumeAllClean(before, disk.resumeOrder, disk.markers, |st.loops|);
    var r := ResumeAll(before, disk.resumeOrder, disk.markers);
    StartAllClean(r.st, r.resumed, |st.loops|);
  }

  lemma ApplyUnready(p: Pass, a: App, change: Change, refusal: string, id: string)
    requires id in p.st.installed && (id in IdsOf(p.toStart) ==> id !in p.st.ready)
    ensures var p' := Apply(p, a, change, refusal);
            p'.st.ready <= p.st.ready && (id in IdsOf(p'.toStart) ==> id !in p'.st.ready)
  {
    IdsSnoc(p.toStart, a);
  }

  /** An app the rescan replaces while installed is not ready until its new loop says so. */
  lemma {:induction false} ReplacedIsNotReady(st: State, apps: seq<App>, id: string)
    requires id in st.installed
    ensures var p := NewAll(st, apps);
            && p.st.ready <= st.ready
            && (id in IdsOf(p.toStart) ==> id !in p.st.ready)
  {
    if apps != [] {
      var front, a := apps[..|apps| - 1], apps[|apps| - 1];
      ReplacedIsNotReady(st, front, id);
      NewAllKeys(st, front);
      var p := NewAll(st, front);
      var held := HeldAs(p.st, a.manifest.id);
      ApplyUnready(p, a, ChangeFrom(held, a), RefusalOf(held, a), id);
    }
  }

  lemma {:induction false} GoneAllForgets(st: State, order: seq<string>, gone: set<string>, id: string)
    requires id in st.installed && id in gone && id in order
    ensures var st' := GoneAll(st, order, gone); id !in st'.ready && id !in st'.crashes
  {
    var front := order[..|order| - 1];
    GoneAllKeys(st, front, gone);
    if id in front {
      GoneAllForgets(st, front, gone, id);
    }
  }

  /** An uninstalled app leaves nothing behind: no entry in any table, and no live loop. */
  lemma GoneLeavesNothing(st: State, order: seq<string>, gone: set<string>, id: string)
    requires InStep(st) && id in st.installed && id in gone && id in order
    ensures var st' := GoneAll(st, order, gone);
            && id !in st'.installed && id !in st'.ready && id !in st'.crashes && id !in st'.appCancel
            && forall h: nat :: h < |st'.loops| && Live(st', h) ==> st'.loops[h].id != id
  {
    var st' := GoneAll(st, order, gone);
    GoneAllForgets(st, order, gone, id);
    GoneAllKeys(st, order, gone);
    GoneAllLinked(st, order, gone);
    forall h: nat | h < |st'.loops| && Live(st', h) ensures st'.loops[h].id != id {
      AtMostOneLive(st', h, h);
    }
  }
}
