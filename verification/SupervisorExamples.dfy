/**
 * Runs in which an app ends up with two live loops, and one in which the throttle
 * shows: the hypotheses of the general statements are met by a concrete world.
 */
module SupervisorExamples {
  import opened Manifests
  import opened SignatureThrottle
  import opened Scan
  import opened Supervisor
  import opened SupervisorLinks
  import opened SupervisorPasses
  import opened SupervisorRuns
  import Paths
  import Text
  import Semver
  import Versions

  // ---- runs ----

  /** The disk of a tick that finds one app and its resume marker. */
  function Marked(id: string): Disk
  {
    Disk([id], {}, [id], Markers({id}, {}))
  }

  /** A scan of one entry that verifies, with no failure on record. */
  lemma CleanScan(w: World, e: Entry)
    requires VerifyAlways(w, e).Install?
    ensures ScanAll(w, map[], [e]).0 == map[] && ScanAll(w, map[], [e]).1 == [VerifyAlways(w, e).app]
    ensures VerifyAlways(w, e).app.manifest.id == e.name && DistinctNames([e])
  {
    OneEntry(w, map[], e);
    VisitWithholds(w, map[], e);
    var none: Failures := map[];
    assert none - {e.name} == none;
    OneName(e);
  }

  /** A start with one app. */
  lemma OneStarted(a: App)
    ensures var st := Start([a]);
            && InStep(st) && Filed(st) && st.installed == map[a.manifest.id := a]
            && st.appCancel == map[a.manifest.id := 0] && st.loops == [Loop(a.manifest.id, false, false)]
  {
    var apps := [a];
    assert apps[..|apps| - 1] == [];
    assert RegisterAll(FRESH, apps) == RegisterOne(FRESH, a);
    var st := RegisterOne(FRESH, a);
    assert StartAll(st, apps) == StartOne(st, a);
    StartInStep(apps);
  }

  /** A tick that finds the only app of the table, marked, walks just that app. */
  lemma OneCovers(st: State, a: App)
    requires st.installed.Keys == {a.manifest.id}
    ensures Covers(st, [a], Marked(a.manifest.id)) && DistinctIds([a])
  {
    IdsSnoc([], a);
    assert [] + [a] == [a];
  }

  /** The state a rescan of one listing starts from. */
  lemma ListedState(st: State, entries: seq<Entry>)
    requires InStep(st) && Filed(st)
    ensures var st' := NoteListing(st, Listed(entries));
            && InStep(st') && Filed(st') && st'.installed == st.installed
            && st'.appCancel == st.appCancel && st'.loops == st.loops
  {
    var st' := NoteListing(st, Listed(entries));
    SameLinks(st, st', {});
    SameFiling(st, st');
  }

  /** A resume marker found while the app runs leaves a possible run with two live loops. */
  lemma ResumeWhileRunning(w: World, e: Entry) returns (g: nat, h: nat)
    requires VerifyAlways(w, e).Install?
    ensures var steps := [Rescan(Listed([e]), Marked(e.name))];
            PossibleRun(w, [e], steps) && Doubled(Run(w, [e], steps).st, e.name, g, h)
  {
    var a, step := VerifyAlways(w, e).app, Rescan(Listed([e]), Marked(e.name));
    var m := Boot(w, [e]);
    CleanScan(w, e);
    OneStarted(a);
    ListedState(m.st, [e]);
    var st := NoteListing(m.st, step.listing);
    OneCovers(st, a);
    RunOne(w, [e], step);
    g, h := ResumingLiveAppDoubles(st, [a], step.disk, e.name);
  }

  /** After a start with one app, and the return of its loop. */
  lemma OneEnded(a: App, st: State)
    requires st == Start([a]).(loops := Start([a]).loops[0 := Start([a]).loops[0].(returned := true)])
    requires |Start([a]).loops| > 0
    ensures InStep(st) && Filed(st) && st.installed == map[a.manifest.id := a] && !Running(st, a.manifest.id)
  {
    OneStarted(a);
    ReturnInStep(Start([a]), 0);
    SameFiling(Start([a]), st);
  }

  /** The run up to the return of the loop. */
  lemma RunToEnd(w: World, e: Entry) returns (st: State)
    requires VerifyAlways(w, e).Install?
    ensures PossibleRun(w, [e], [LoopReturns(0)]) && Run(w, [e], [LoopReturns(0)]) == Machine(st, map[])
    ensures InStep(st) && Filed(st) && st.installed == map[e.name := VerifyAlways(w, e).app] && !Running(st, e.name)
  {
    var a := VerifyAlways(w, e).app;
    CleanScan(w, e);
    OneStarted(a);
    RunOne(w, [e], LoopReturns(0));
    st := Run(w, [e], [LoopReturns(0)]).st;
    OneEnded(a, st);
  }

  /** So does an upgrade and a resume marker in one tick, after the old loop has returned. */
  lemma ResumeWithUpgrade(w: World, e: Entry, e': Entry) returns (g: nat, h: nat)
    requires VerifyAlways(w, e).Install? && VerifyAlways(w, e').Install? && e'.name == e.name
    requires ChangeFrom(Holds(VerifyAlways(w, e).app), VerifyAlways(w, e').app).Upgraded?
    ensures var steps := [LoopReturns(0)] + [Rescan(Listed([e']), Marked(e.name))];
            PossibleRun(w, [e], steps) && Doubled(Run(w, [e], steps).st, e.name, g, h)
  {
    var a', step := VerifyAlways(w, e').app, Rescan(Listed([e']), Marked(e.name));
    var ended := RunToEnd(w, e);
    CleanScan(w, e');
    ListedState(ended, [e']);
    var st := NoteListing(ended, step.listing);
    OneCovers(st, a');
    RunSnoc(w, [e], [LoopReturns(0)], step);
    g, h := UpgradeAndResumeDoubles(st, a', step.disk);
  }

  // ---- a world ----

  /** A manifest whose bytes are its version. */
  function SampleManifest(version: string): Manifest
  {
    Manifest("a", version, "b", "", [], [], "", [], [], [], [])
  }

  /** Every manifest is signed, and anchored by one pin. */
  function SampleWorld(): World
  {
    World(Paths.Render(["r"]), [], (bytes: string) => Scan.Parsed(SampleManifest(bytes)), (m: Manifest) => true,
          (bytes: string) => bytes, (m: Manifest) => true, (m: Manifest, pin: string) => pin == "k")
  }

  function SampleEntry(version: string, pin: string, at: int): Entry
  {
    Entry("a", true, Data(version), false, false, pin, at, at)
  }

  lemma SampleDir()
    ensures DirOf(SampleWorld(), "a") == Paths.Render(["r", "a"])
  {
    var dir := ["r", "a"];
    assert dir[..|dir| - 1] == ["r"];
  }

  lemma SampleResolves(dir: seq<string>)
    requires dir == ["r", "a"]
    ensures Paths.ResolveUnder([], Paths.Render(dir), "b").Path?
  {
    Paths.WalkRendered(dir);
    assert Paths.AbsComps([], Paths.Render(dir)) == dir;
    Paths.ResolveUnderIsContainment([], Paths.Render(dir), "b");
    Text.SplitWhole("b", '/');
    Paths.NoDotsStaysInside(dir, Text.Split("b", '/'));
  }

  /** An entry is adopted exactly under that pin. */
  lemma SampleAdopts(version: string, pin: string, at: int)
    ensures var e := SampleEntry(version, pin, at);
            && (VerifyAlways(SampleWorld(), e).Install? <==> pin == "k")
            && (pin == "k" ==> VerifyAlways(SampleWorld(), e).app.manifest == SampleManifest(version))
            && ManifestOf(SampleWorld(), e) == Scan.Parsed(SampleManifest(version))
  {
    SampleDir();
    SampleResolves(["r", "a"]);
  }

  /** In that world the throttle shows in a possible run. */
  lemma SampleThrottle()
    ensures var w, e, e' := SampleWorld(), SampleEntry("", "", 0), SampleEntry("", "k", 1);
            var steps := [Rescan(Listed([e']), Disk([], {}, [], Markers({}, {})))];
            && PossibleRun(w, [e], steps)
            && e.name !in Run(w, [e], steps).st.installed && e.name in RunVerifying(w, [e], steps).installed
  {
    SampleAdopts("", "", 0);
    SampleAdopts("", "k", 1);
    PinChangeUnseen(SampleWorld(), SampleEntry("", "", 0), SampleEntry("", "k", 1), {}, Markers({}, {}));
  }

  /** A marker found while the app runs doubles its loop. */
  lemma SampleResume() returns (g: nat, h: nat)
    ensures var w, e := SampleWorld(), SampleEntry("", "k", 0);
            var steps := [Rescan(Listed([e]), Marked(e.name))];
            PossibleRun(w, [e], steps) && Doubled(Run(w, [e], steps).st, e.name, g, h)
  {
    SampleAdopts("", "k", 0);
    g, h := ResumeWhileRunning(SampleWorld(), SampleEntry("", "k", 0));
  }

  lemma MajorIsUpgrade(one: Semver.Version, two: Semver.Version)
    requires one.major < two.major <= Text.MAX_INT
    ensures Versions.CompareVersions(Semver.Written(two), Semver.Written(one)) == 1
    ensures Semver.Written(one) != Semver.Written(two)
  {
    Semver.ComparesAsRead(two, one);
  }

  /** So does a marker found with an upgrade to any later major version. */
  lemma SampleUpgrade(one: Semver.Version, two: Semver.Version) returns (g: nat, h: nat)
    requires one.major < two.major <= Text.MAX_INT
    ensures var w, e := SampleWorld(), SampleEntry(Semver.Written(one), "k", 0);
            var e' := SampleEntry(Semver.Written(two), "k", 1);
            var steps := [LoopReturns(0)] + [Rescan(Listed([e']), Marked(e.name))];
            PossibleRun(w, [e], steps) && Doubled(Run(w, [e], steps).st, e.name, g, h)
  {
    var v, v' := Semver.Written(one), Semver.Written(two);
    MajorIsUpgrade(one, two);
    SampleAdopts(v, "k", 0);
    SampleAdopts(v', "k", 1);
    g, h := ResumeWithUpgrade(SampleWorld(), SampleEntry(v, "k", 0), SampleEntry(v', "k", 1));
  }
}
