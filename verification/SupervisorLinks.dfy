/**
 * The links between the table of installed apps, the cancel handles and the
 * supervise loops: what a rescan tick keeps of them, and exactly when it does not.
 */
module SupervisorLinks {
  import opened Manifests
  import opened Scan
  import opened Supervisor

  // ---- one live loop per app ----

  predicate Live(st: State, h: nat)
  {
    h < |st.loops| && !st.loops[h].cancelled && !st.loops[h].returned
  }

  /** The handle held for an app is a loop of that app. */
  predicate HandleOk(st: State, id: string)
  {
    id in st.appCancel ==> st.appCancel[id] < |st.loops| && st.loops[st.appCancel[id]].id == id
  }

  /** A live loop is the one the table holds the handle of. */
  predicate LiveOk(st: State, h: nat)
  {
    Live(st, h) ==> st.loops[h].id in st.appCancel && st.appCancel[st.loops[h].id] == h
  }

  /** Handles and live loops agree; every installed app but those about to start has a handle. */
  ghost predicate Linked(st: State, pending: set<string>)
  {
    && pending <= st.installed.Keys
    && st.appCancel.Keys == st.installed.Keys - pending
    && (forall id :: HandleOk(st, id))
    && (forall h :: LiveOk(st, h))
  }

  /** Between ticks: dom(appCancel) == dom(installed). */
  ghost predicate InStep(st: State) { Linked(st, {}) }

  /** So no app has two live loops, and a live loop is one of an installed app. */
  lemma AtMostOneLive(st: State, g: nat, h: nat)
    requires InStep(st) && Live(st, g) && Live(st, h) && st.loops[g].id == st.loops[h].id
    ensures g == h && st.loops[h].id in st.installed && st.appCancel[st.loops[h].id] == h
  {
    assert LiveOk(st, g) && LiveOk(st, h);
  }

  lemma CancelLinked(st: State, id: string, pending: set<string>)
    requires Linked(st, pending) && id in st.installed && id !in pending
    ensures Linked(Cancel(st, id), pending + {id})
  {
    var st' := Cancel(st, id);
    assert HandleOk(st, id);
    forall x ensures HandleOk(st', x) {
      assert HandleOk(st, x);
    }
    forall h ensures LiveOk(st', h) {
      assert LiveOk(st, h);
    }
  }

  lemma ReplaceLinked(st: State, a: App, pending: set<string>)
    requires Linked(st, pending) && a.manifest.id !in pending
    ensures Linked(Replace(st, a), pending + {a.manifest.id})
  {
    var id := a.manifest.id;
    var st' := Replace(st, a);
    if id in st.installed {
      CancelLinked(st, id, pending);
      SameLinks(Cancel(st, id), st', pending + {id});
    } else {
      forall x ensures HandleOk(st', x) {
        assert HandleOk(st, x);
      }
      forall h ensures LiveOk(st', h) {
        assert LiveOk(st, h);
      }
    }
  }

  /** The links are about the table's keys, the handles and the loops only. */
  lemma SameLinks(st: State, st': State, pending: set<string>)
    requires Linked(st, pending)
    requires st'.installed.Keys == st.installed.Keys && st'.appCancel == st.appCancel && st'.loops == st.loops
    ensures Linked(st', pending)
  {
    forall x ensures HandleOk(st', x) {
      assert HandleOk(st, x);
    }
    forall h ensures LiveOk(st', h) {
      assert LiveOk(st, h);
    }
  }

  lemma ApplyLinked(p: Pass, a: App, change: Change, refusal: string)
    requires Linked(p.st, IdsOf(p.toStart)) && DistinctIds(p.toStart) && a.manifest.id !in IdsOf(p.toStart)
    ensures var p' := Apply(p, a, change, refusal);
            && Linked(p'.st, IdsOf(p'.toStart)) && DistinctIds(p'.toStart)
            && IdsOf(p'.toStart) <= IdsOf(p.toStart) + {a.manifest.id}
  {
    var p' := Apply(p, a, change, refusal);
    IdsSnoc(p.toStart, a);
    if change.Downgrade? {
      SameLinks(p.st, p'.st, IdsOf(p.toStart));
    } else if !change.Unchanged? {
      ReplaceLinked(p.st, a, IdsOf(p.toStart));
      SameLinks(Replace(p.st, a), p'.st, IdsOf(p.toStart) + {a.manifest.id});
    }
  }

  lemma {:induction false} NewAllLinked(st: State, apps: seq<App>)
    requires InStep(st) && DistinctIds(apps)
    ensures var p := NewAll(st, apps);
            Linked(p.st, IdsOf(p.toStart)) && DistinctIds(p.toStart) && IdsOf(p.toStart) <= IdsOf(apps)
  {
    if apps != [] {
      var front := apps[..|apps| - 1];
      NewAllLinked(st, front);
      var p, a := NewAll(st, front), apps[|apps| - 1];
      var held := HeldAs(p.st, a.manifest.id);
      ApplyLinked(p, a, ChangeFrom(held, a), RefusalOf(held, a));
    }
  }

  lemma StartOneLinked(st: State, a: App, pending: set<string>)
    requires Linked(st, pending) && a.manifest.id in pending
    ensures Linked(StartOne(st, a), pending - {a.manifest.id})
  {
    var st' := StartOne(st, a);
    forall x ensures HandleOk(st', x) {
      assert HandleOk(st, x);
    }
    forall h ensures LiveOk(st', h) {
      assert LiveOk(st, h);
    }
  }

  lemma {:induction false} StartAllLinked(st: State, apps: seq<App>, pending: set<string>)
    requires Linked(st, pending) && DistinctIds(apps) && IdsOf(apps) <= pending
    ensures Linked(StartAll(st, apps), pending - IdsOf(apps))
  {
    if apps != [] {
      var front, last := apps[..|apps| - 1], apps[|apps| - 1];
      StartAllLinked(st, front, pending);
      StartOneLinked(StartAll(st, front), last, pending - IdsOf(front));
      assert pending - IdsOf(front) - {last.manifest.id} == pending - IdsOf(apps);
    } else {
      assert pending - IdsOf(apps) == pending;
    }
  }

  lemma GoneOneLinked(st: State, id: string, gone: set<string>)
    requires InStep(st)
    ensures InStep(GoneOne(st, id, gone))
  {
    if id in st.installed && id in gone {
      CancelLinked(st, id, {});
      var mid, st' := Cancel(st, id), GoneOne(st, id, gone);
      assert {} + {id} == {id};
      forall x ensures HandleOk(st', x) {
        assert HandleOk(mid, x);
      }
      forall h ensures LiveOk(st', h) {
        assert LiveOk(mid, h);
      }
    }
  }

  lemma {:induction false} GoneAllLinked(st: State, order: seq<string>, gone: set<string>)
    requires InStep(st)
    ensures InStep(GoneAll(st, order, gone))
  {
    if order != [] {
      GoneAllLinked(st, order[..|order| - 1], gone);
      GoneOneLinked(GoneAll(st, order[..|order| - 1], gone), order[|order| - 1], gone);
    }
  }

  // ---- whose loop is live ----

  /** The handle held for the app is a live loop. */
  predicate Running(st: State, id: string)
  {
    id in st.appCancel && Live(st, st.appCancel[id])
  }

  /** Every installed app is filed under its own id. */
  ghost predicate Filed(st: State)
  {
    forall id :: FiledAt(st, id)
  }

  predicate FiledAt(st: State, id: string)
  {
    id in st.installed ==> st.installed[id].manifest.id == id
  }

  lemma CancelElsewhere(st: State, other: string, id: string)
    requires HandleOk(st, other) && HandleOk(st, id) && other != id
    ensures Running(Cancel(st, other), id) <==> Running(st, id)
    ensures HandleOk(Cancel(st, other), id)
  {
  }

  /** The change starts a loop. */
  predicate Starting(c: Change) { !c.Unchanged? && !c.Downgrade? }

  lemma ApplyRunning(p: Pass, a: App, change: Change, refusal: string, id: string)
    requires HandleOk(p.st, id) && HandleOk(p.st, a.manifest.id)
    requires Starting(change) ==> id != a.manifest.id
    ensures Running(Apply(p, a, change, refusal).st, id) <==> Running(p.st, id)
  {
    if Starting(change) {
      CancelElsewhere(p.st, a.manifest.id, id);
    }
  }

  lemma ApplyStarts(p: Pass, a: App, change: Change, refusal: string)
    ensures IdsOf(Apply(p, a, change, refusal).toStart)
         == IdsOf(p.toStart) + if Starting(change) then {a.manifest.id} else {}
  {
    IdsSnoc(p.toStart, a);
  }

  /** The rescan leaves the loops of the apps it does not start alone. */
  lemma {:induction false} NewAllRunning(st: State, apps: seq<App>, id: string)
    requires InStep(st) && DistinctIds(apps) && id !in IdsOf(NewAll(st, apps).toStart)
    ensures Running(NewAll(st, apps).st, id) <==> Running(st, id)
  {
    if apps != [] {
      var front, a := apps[..|apps| - 1], apps[|apps| - 1];
      var p := NewAll(st, front);
      var held := HeldAs(p.st, a.manifest.id);
      ApplyStarts(p, a, ChangeFrom(held, a), RefusalOf(held, a));
      NewAllRunning(st, front, id);
      NewAllLinked(st, front);
      assert HandleOk(p.st, id) && HandleOk(p.st, a.manifest.id);
      ApplyRunning(p, a, ChangeFrom(held, a), RefusalOf(held, a), id);
    }
  }

  /** Starting loops makes those apps running, and leaves the others as they are. */
  lemma {:induction false} StartAllRunning(st: State, apps: seq<App>, id: string)
    requires HandleOk(st, id)
    ensures HandleOk(StartAll(st, apps), id)
    ensures Running(StartAll(st, apps), id) <==> Running(st, id) || id in IdsOf(apps)
  {
    if apps != [] {
      StartAllRunning(st, apps[..|apps| - 1], id);
    }
  }

  /** An app that is not gone keeps its loop. */
  lemma {:induction false} GoneAllRunning(st: State, order: seq<string>, gone: set<string>, id: string)
    requires InStep(st) && !(id in order && id in gone)
    ensures Running(GoneAll(st, order, gone), id) <==> Running(st, id)
  {
    if order != [] {
      var front, x := order[..|order| - 1], order[|order| - 1];
      GoneAllRunning(st, front, gone, id);
      GoneAllLinked(st, front, gone);
      var mid := GoneAll(st, front, gone);
      assert HandleOk(mid, id) && HandleOk(mid, x);
      if x in mid.installed && x in gone {
        CancelElsewhere(mid, x, id);
      }
    }
  }

  /** The apps a rescan starts, told from the table before it: new, rebuilt or upgraded. */
  function StartedBy(st: State, apps: seq<App>): set<string>
  {
    if apps == [] then {}
    else
      var a := apps[|apps| - 1];
      StartedBy(st, apps[..|apps| - 1])
      + if Starting(ChangeFrom(HeldAs(st, a.manifest.id), a)) then {a.manifest.id} else {}
  }

  lemma ApplyElsewhere(p: Pass, a: App, change: Change, refusal: string, id: string)
    requires id != a.manifest.id
    ensures HeldAs(Apply(p, a, change, refusal).st, id) == HeldAs(p.st, id)
  {
  }

  /** The rescan changes no entry but those of the apps it scanned. */
  lemma {:induction false} NewAllElsewhere(st: State, apps: seq<App>, id: string)
    requires id !in IdsOf(apps)
    ensures HeldAs(NewAll(st, apps).st, id) == HeldAs(st, id)
  {
    if apps != [] {
      var front, a := apps[..|apps| - 1], apps[|apps| - 1];
      NewAllElsewhere(st, front, id);
      var p := NewAll(st, front);
      var held := HeldAs(p.st, a.manifest.id);
      ApplyElsewhere(p, a, ChangeFrom(held, a), RefusalOf(held, a), id);
    }
  }

  lemma {:induction false} NewAllStarts(st: State, apps: seq<App>)
    requires DistinctIds(apps)
    ensures IdsOf(NewAll(st, apps).toStart) == StartedBy(st, apps)
  {
    if apps != [] {
      var front, a := apps[..|apps| - 1], apps[|apps| - 1];
      NewAllStarts(st, front);
      NewAllElsewhere(st, front, a.manifest.id);
      var p := NewAll(st, front);
      var held := HeldAs(p.st, a.manifest.id);
      ApplyStarts(p, a, ChangeFrom(held, a), RefusalOf(held, a));
    }
  }

  /** After rescanForNew, its starts and rescanForGone, told from the state before the tick. */
  lemma BeforeResumeRunning(st: State, apps: seq<App>, disk: Disk, id: string)
    requires InStep(st) && DistinctIds(apps) && !(id in disk.goneOrder && id in disk.gone)
    ensures Running(BeforeResume(st, apps, disk), id) <==> id in StartedBy(st, apps) || Running(st, id)
  {
    var p := NewAll(st, apps);
    NewAllLinked(st, apps);
    NewAllStarts(st, apps);
    assert HandleOk(p.st, id);
    StartAllRunning(p.st, p.toStart, id);
    if id !in StartedBy(st, apps) {
      NewAllRunning(st, apps, id);
    }
    StartAllLinked(p.st, p.toStart, IdsOf(p.toStart));
    assert IdsOf(p.toStart) - IdsOf(p.toStart) == {};
    GoneAllRunning(StartAll(p.st, p.toStart), disk.goneOrder, disk.gone, id);
  }

  lemma BeforeResumeInStep(st: State, apps: seq<App>, disk: Disk)
    requires InStep(st) && DistinctIds(apps)
    ensures InStep(BeforeResume(st, apps, disk))
  {
    NewAllLinked(st, apps);
    var p := NewAll(st, apps);
    StartAllLinked(p.st, p.toStart, IdsOf(p.toStart));
    assert IdsOf(p.toStart) - IdsOf(p.toStart) == {};
    GoneAllLinked(StartAll(p.st, p.toStart), disk.goneOrder, disk.gone);
  }

  // ---- resuming ----

  /** The pass consumes this app's marker. */
  predicate Consumed(st: State, order: seq<string>, markers: Markers, id: string)
  {
    id in order && id in st.installed && id in markers.consumable
  }

  predicate ResumedOk(st: State, order: seq<string>, markers: Markers, resumed: seq<App>, id: string)
  {
    id in IdsOf(resumed) <==> Consumed(st, order, markers, id)
  }

  /** What a pass has done so far: it resumed exactly the apps whose marker it consumed, and forgot their handles. */
  ghost predicate Resuming(st: State, order: seq<string>, markers: Markers, r: Resumption)
  {
    && r.st.installed == st.installed && r.st.loops == st.loops
    && DistinctIds(r.resumed)
    && (forall id :: ResumedOk(st, order, markers, r.resumed, id))
    && r.left.consumable == markers.consumable - IdsOf(r.resumed)
    && r.st.appCancel == st.appCancel - IdsOf(r.resumed)
  }

  /** One step of a pass, but for records and warnings. */
  lemma ResumeOneDoes(r: Resumption, id: string)
    ensures var r' := ResumeOne(r, id);
            && r'.st.installed == r.st.installed && r'.st.loops == r.st.loops
            && if id in r.st.installed && id in r.left.consumable
               then && r'.resumed == r.resumed + [r.st.installed[id]]
                    && r'.left.consumable == r.left.consumable - {id}
                    && r'.st.appCancel == r.st.appCancel - {id}
               else r'.resumed == r.resumed && r'.left == r.left && r'.st.appCancel == r.st.appCancel
  {
  }

  /** The ids resumed after one more step of the walk. */
  lemma {:induction false} ResumedOneMore(st: State, order: seq<string>, id: string, markers: Markers,
                                          resumed: seq<App>, resumed': seq<App>, x: string)
    requires ResumedOk(st, order, markers, resumed, x) && ResumedOk(st, order, markers, resumed, id)
    requires IdsOf(resumed') == IdsOf(resumed) + if Consumed(st, order + [id], markers, id) then {id} else {}
    ensures ResumedOk(st, order + [id], markers, resumed', x)
  {
    assert x in order + [id] <==> x in order || x == id;
  }

  lemma {:induction false} ResumeOneEffect(st: State, order: seq<string>, id: string, markers: Markers, r: Resumption)
    requires Filed(st) && Resuming(st, order, markers, r)
    ensures Resuming(st, order + [id], markers, ResumeOne(r, id))
  {
    var r' := ResumeOne(r, id);
    ResumeOneDoes(r, id);
    assert FiledAt(st, id) && ResumedOk(st, order, markers, r.resumed, id);
    assert id in order + [id];
    if id in st.installed && id in r.left.consumable {
      IdsSnoc(r.resumed, st.installed[id]);
    }
    forall x ensures ResumedOk(st, order + [id], markers, r'.resumed, x) {
      assert ResumedOk(st, order, markers, r.resumed, x);
      ResumedOneMore(st, order, id, markers, r.resumed, r'.resumed, x);
    }
  }

  lemma {:induction false} ResumeAllEffect(st: State, order: seq<string>, markers: Markers)
    requires Filed(st)
    ensures Resuming(st, order, markers, ResumeAll(st, order, markers))
  {
    if order != [] {
      var front := order[..|order| - 1];
      ResumeAllEffect(st, front, markers);
      ResumeOneEffect(st, front, order[|order| - 1], markers, ResumeAll(st, front, markers));
      assert order == front + [order[|order| - 1]];
    }
  }

  /** No consumed marker is for an app that still runs. */
  ghost predicate QuietResume(st: State, order: seq<string>, markers: Markers)
  {
    forall id :: Consumed(st, order, markers, id) ==> !Running(st, id)
  }

  lemma ResumeLinked(st: State, order: seq<string>, markers: Markers)
    requires InStep(st) && Filed(st) && QuietResume(st, order, markers)
    ensures var r := ResumeAll(st, order, markers); Linked(r.st, IdsOf(r.resumed)) && DistinctIds(r.resumed)
  {
    ResumeAllEffect(st, order, markers);
    var r := ResumeAll(st, order, markers);
    forall id | id in IdsOf(r.resumed) ensures id in st.installed {
      assert ResumedOk(st, order, markers, r.resumed, id);
    }
    forall id ensures HandleOk(r.st, id) {
      assert HandleOk(st, id);
    }
    forall h: nat ensures LiveOk(r.st, h) {
      assert LiveOk(st, h);
      if Live(st, h) {
        assert Running(st, st.loops[h].id);
        assert ResumedOk(st, order, markers, r.resumed, st.loops[h].id);
        assert !Consumed(st, order, markers, st.loops[h].id);
      }
    }
  }

  /** Starting apps keeps every loop there was, and adds a live one of each. */
  lemma {:induction false} StartAllAdds(st: State, apps: seq<App>, id: string) returns (g: nat)
    requires id in IdsOf(apps)
    ensures |st.loops| <= g && Live(StartAll(st, apps), g) && StartAll(st, apps).loops[g].id == id
    ensures st.loops <= StartAll(st, apps).loops
  {
    var front, a := apps[..|apps| - 1], apps[|apps| - 1];
    StartAllKeepsLoops(st, front);
    if a.manifest.id == id {
      g := |StartAll(st, front).loops|;
    } else {
      g := StartAllAdds(st, front, id);
    }
  }

  lemma {:induction false} StartAllKeepsLoops(st: State, apps: seq<App>)
    ensures st.loops <= StartAll(st, apps).loops
  {
    if apps != [] {
      StartAllKeepsLoops(st, apps[..|apps| - 1]);
    }
  }

  /** Two live loops of one app. */
  ghost predicate Doubled(st: State, id: string, g: nat, h: nat)
  {
    g != h && Live(st, g) && Live(st, h) && st.loops[g].id == id && st.loops[h].id == id
  }

  lemma DoubledIsNotInStep(st: State, id: string, g: nat, h: nat)
    requires Doubled(st, id, g, h)
    ensures !InStep(st)
  {
    if InStep(st) {
      AtMostOneLive(st, g, h);
    }
  }

  /** A marker consumed for an app that runs leaves it with two live loops. */
  lemma NoisyResumeDoubles(st: State, order: seq<string>, markers: Markers, id: string) returns (g: nat)
    requires InStep(st) && Filed(st) && Consumed(st, order, markers, id) && Running(st, id)
    ensures var r := ResumeAll(st, order, markers); Doubled(StartAll(r.st, r.resumed), id, g, st.appCancel[id])
  {
    ResumeAllEffect(st, order, markers);
    var r := ResumeAll(st, order, markers);
    assert HandleOk(st, id) && ResumedOk(st, order, markers, r.resumed, id);
    g := StartAllAdds(r.st, r.resumed, id);
  }

  // ---- filing ----

  lemma ApplyFiled(p: Pass, a: App, change: Change, refusal: string)
    requires Filed(p.st)
    ensures Filed(Apply(p, a, change, refusal).st)
  {
    var st' := Apply(p, a, change, refusal).st;
    forall id ensures FiledAt(st', id) {
      assert FiledAt(p.st, id);
    }
  }

  lemma {:induction false} NewAllFiled(st: State, apps: seq<App>)
    requires Filed(st)
    ensures Filed(NewAll(st, apps).st)
  {
    if apps != [] {
      var front, a := apps[..|apps| - 1], apps[|apps| - 1];
      NewAllFiled(st, front);
      var p := NewAll(st, front);
      var held := HeldAs(p.st, a.manifest.id);
      ApplyFiled(p, a, ChangeFrom(held, a), RefusalOf(held, a));
    }
  }

  /** A tick keeps every app filed under its own id. */
  lemma TickFiled(st: State, apps: seq<App>, disk: Disk)
    requires Filed(st)
    ensures Filed(BeforeResume(st, apps, disk)) && Filed(Tick(st, apps, disk))
  {
    var p := NewAll(st, apps);
    var mid, before, after := p.st, BeforeResume(st, apps, disk), Tick(st, apps, disk);
    NewAllFiled(st, apps);
    StartAllInstalled(mid, p.toStart);
    GoneAllInstalled(StartAll(mid, p.toStart), disk.goneOrder, disk.gone);
    TickInstalled(st, apps, disk);
    forall id ensures FiledAt(before, id) && FiledAt(after, id) {
      assert FiledAt(mid, id);
    }
  }

  // ---- a tick ----

  /** The tick resumes this app: it has a marker, and it is in the table when markers are looked for. */
  predicate Resumes(st: State, apps: seq<App>, disk: Disk, id: string)
  {
    Walked(st, apps, id) && id !in disk.gone && id in disk.markers.consumable
  }

  /**
   * Told from the state before the tick: every app it resumes has no live loop,
   * and is not new, rebuilt or upgraded in the same tick.
   */
  ghost predicate QuietTick(st: State, apps: seq<App>, disk: Disk)
  {
    forall id :: Resumes(st, apps, disk, id) ==> !Running(st, id) && id !in StartedBy(st, apps)
  }

  lemma QuietTickIsQuietResume(st: State, apps: seq<App>, disk: Disk)
    requires InStep(st) && DistinctIds(apps) && Covers(st, apps, disk)
    ensures QuietTick(st, apps, disk) <==>
      QuietResume(BeforeResume(st, apps, disk), disk.resumeOrder, disk.markers)
  {
    var before := BeforeResume(st, apps, disk);
    BeforeResumeKeys(st, apps, disk);
    forall id ensures Consumed(before, disk.resumeOrder, disk.markers, id) <==> Resumes(st, apps, disk, id) {
    }
    forall id | Resumes(st, apps, disk, id)
      ensures Running(before, id) <==> Running(st, id) || id in StartedBy(st, apps)
    {
      BeforeResumeRunning(st, apps, disk, id);
    }
  }

  /** If it resumes an app that runs, or that the same tick starts, that app ends up with two live loops. */
  lemma NoisyTickDoubles(st: State, apps: seq<App>, disk: Disk, id: string) returns (g: nat, h: nat)
    requires InStep(st) && Filed(st) && DistinctIds(apps) && Covers(st, apps, disk)
    requires Resumes(st, apps, disk, id) && (Running(st, id) || id in StartedBy(st, apps))
    ensures Doubled(Tick(st, apps, disk), id, g, h)
  {
    var before := BeforeResume(st, apps, disk);
    TickFiled(st, apps, disk);
    BeforeResumeInStep(st, apps, disk);
    BeforeResumeKeys(st, apps, disk);
    BeforeResumeRunning(st, apps, disk, id);
    g := NoisyResumeDoubles(before, disk.resumeOrder, disk.markers, id);
    h := before.appCancel[id];
  }

  /**
   * A tick keeps loops, handles and table in step if and only if it is quiet, and
   * this can be told before the tick.
   */
  lemma TickInStepIff(st: State, apps: seq<App>, disk: Disk)
    requires InStep(st) && Filed(st) && DistinctIds(apps) && Covers(st, apps, disk)
    ensures InStep(Tick(st, apps, disk)) <==> QuietTick(st, apps, disk)
  {
    var before := BeforeResume(st, apps, disk);
    if QuietTick(st, apps, disk) {
      QuietTickIsQuietResume(st, apps, disk);
      TickFiled(st, apps, disk);
      BeforeResumeInStep(st, apps, disk);
      ResumeLinked(before, disk.resumeOrder, disk.markers);
      var r := ResumeAll(before, disk.resumeOrder, disk.markers);
      StartAllLinked(r.st, r.resumed, IdsOf(r.resumed));
      assert IdsOf(r.resumed) - IdsOf(r.resumed) == {};
    } else {
      var id :| Resumes(st, apps, disk, id) && (Running(st, id) || id in StartedBy(st, apps));
      var g, h := NoisyTickDoubles(st, apps, disk, id);
      DoubledIsNotInStep(Tick(st, apps, disk), id, g, h);
    }
  }

  /** Resuming an app whose loop is live, whatever else the tick does, leaves it with two live loops. */
  lemma ResumingLiveAppDoubles(st: State, apps: seq<App>, disk: Disk, id: string) returns (g: nat, h: nat)
    requires InStep(st) && Filed(st) && DistinctIds(apps) && Covers(st, apps, disk)
    requires id in st.installed && Running(st, id) && id !in disk.gone && id in disk.markers.consumable
    ensures Doubled(Tick(st, apps, disk), id, g, h)
  {
    g, h := NoisyTickDoubles(st, apps, disk, id);
  }

  /**
   * So does an upgrade and a resume marker in one tick, although the old loop has
   * returned: rescanForNew starts a loop, and rescanForResume drops its handle and
   * starts another.
   */
  lemma UpgradeAndResumeDoubles(st: State, a: App, disk: Disk) returns (g: nat, h: nat)
    requires InStep(st) && Filed(st) && Covers(st, [a], disk)
    requires a.manifest.id in st.installed && !Running(st, a.manifest.id)
    requires ChangeFrom(Holds(st.installed[a.manifest.id]), a).Upgraded?
    requires a.manifest.id !in disk.gone && a.manifest.id in disk.markers.consumable
    ensures Doubled(Tick(st, [a], disk), a.manifest.id, g, h)
  {
    assert [a][..0] == [];
    assert StartedBy(st, [a]) == {a.manifest.id};
    g, h := NoisyTickDoubles(st, [a], disk, a.manifest.id);
  }

  // ---- other steps ----

  lemma ReturnInStep(st: State, h: nat)
    requires InStep(st) && h < |st.loops|
    ensures InStep(st.(loops := st.loops[h := st.loops[h].(returned := true)]))
  {
    var st' := st.(loops := st.loops[h := st.loops[h].(returned := true)]);
    forall x ensures HandleOk(st', x) {
      assert HandleOk(st, x);
    }
    forall g ensures LiveOk(st', g) {
      assert LiveOk(st, g);
    }
  }

  /** A start registers and starts every app the first scan found. */
  lemma {:induction false} RegisterAllPending(apps: seq<App>)
    requires DistinctIds(apps)
    ensures var st := RegisterAll(FRESH, apps);
            st.installed.Keys == IdsOf(apps) && st.appCancel == map[] && st.loops == []
  {
    if apps != [] {
      RegisterAllPending(apps[..|apps| - 1]);
    }
  }
}
