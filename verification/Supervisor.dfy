/**
 * plugin/appstore/supervisor.go: the table of installed apps, the supervise loops
 * and the rescan that keeps them in step with the disk. Every function here is
 * one critical section, or one pass of the single rescan goroutine.
 */
module Supervisor {
  import opened Manifests
  import opened Versions
  import opened Scan
  import CrashLoop

  /** A supervise goroutine. Its position in the list is its cancel handle. */
  datatype Loop = Loop(id: string, cancelled: bool, returned: bool)

  datatype State = State(
    installed: map<string, App>,
    ready: set<string>,
    crashes: map<string, CrashLoop.Record>,
    appCancel: map<string, nat>,
    warned: map<string, string>,
    loops: seq<Loop>)

  const FRESH := State(map[], {}, map[], map[], map[], [])

  // ---- warnings logged once ----

  function LastWarning(warned: map<string, string>, key: string): string
  {
    if key in warned then warned[key] else ""
  }

  function DowngradeKey(id: string): string { "downgrade/" + id }

  function ShortSHA(h: string): string { if |h| > 12 then h[..12] else h }

  /** What the table holds under an id. */
  datatype Held = Absent | Holds(app: App)

  function HeldAs(st: State, id: string): Held
  {
    if id in st.installed then Holds(st.installed[id]) else Absent
  }

  function DowngradeMessage(a: App, existing: App): string
  {
    "rescan: downgrade refused: app=" + a.manifest.id + " new=" + a.manifest.appVersion
    + " (" + ShortSHA(a.manifest.binarySHA256) + ") old=" + existing.manifest.appVersion + " - keeping existing version"
  }

  // ---- loops ----

  /** Cancels the loop the table holds a handle of, and forgets the handle. */
  function Cancel(st: State, id: string): State
  {
    if id !in st.appCancel then st
    else
      var h := st.appCancel[id];
      st.(appCancel := st.appCancel - {id},
          loops := if h < |st.loops| then st.loops[h := st.loops[h].(cancelled := true)] else st.loops)
  }

  function StartOne(st: State, a: App): State
  {
    st.(appCancel := st.appCancel[a.manifest.id := |st.loops|], loops := st.loops + [Loop(a.manifest.id, false, false)])
  }

  function StartAll(st: State, apps: seq<App>): State
  {
    if apps == [] then st else StartOne(StartAll(st, apps[..|apps| - 1]), apps[|apps| - 1])
  }

  // ---- registerInstalled ----

  function RegisterOne(st: State, a: App): State
  {
    if a.manifest.id in st.installed
       && CompareVersions(a.manifest.appVersion, st.installed[a.manifest.id].manifest.appVersion) < 0 then st
    else st.(installed := st.installed[a.manifest.id := a])
  }

  function RegisterAll(st: State, apps: seq<App>): State
  {
    if apps == [] then st else RegisterOne(RegisterAll(st, apps[..|apps| - 1]), apps[|apps| - 1])
  }

  // ---- rescanForNew ----

  /** What the rescan makes of one app on disk. */
  datatype Change = Unchanged | Rebuilt | Downgrade | Upgraded | Discovered

  function ChangeFrom(held: Held, a: App): Change
  {
    if held.Absent? then Discovered
    else
      var prior := held.app.manifest;
      if prior.appVersion == a.manifest.appVersion then
        (if prior.binarySHA256 == a.manifest.binarySHA256 then Unchanged else Rebuilt)
      else if CompareVersions(a.manifest.appVersion, prior.appVersion) < 0 then Downgrade
      else Upgraded
  }

  /** The warning a downgrade is refused with. */
  function RefusalOf(held: Held, a: App): string
  {
    if held.Absent? then "" else DowngradeMessage(a, held.app)
  }

  /** The app replaces whatever ran under its id, with a clean record. */
  function Replace(st: State, a: App): State
  {
    var id := a.manifest.id;
    var st' := if id in st.installed then Cancel(st, id).(ready := st.ready - {id}) else st;
    st'.(crashes := st'.crashes - {id}, installed := st'.installed[id := a])
  }

  /** One pass result: the new state, the apps to start, and the downgrade warnings logged. */
  datatype Pass = Pass(st: State, toStart: seq<App>, logged: seq<string>)

  function Apply(p: Pass, a: App, change: Change, refusal: string): Pass
  {
    var key := DowngradeKey(a.manifest.id);
    match change
    case Unchanged => p
    case Downgrade =>
      p.(st := p.st.(warned := p.st.warned[key := refusal]),
         logged := if LastWarning(p.st.warned, key) == refusal then p.logged else p.logged + [refusal])
    case Upgraded =>
      p.(st := Replace(p.st, a).(warned := p.st.warned - {key}), toStart := p.toStart + [a])
    case _ =>
      p.(st := Replace(p.st, a), toStart := p.toStart + [a])
  }

  function NewOne(p: Pass, a: App): Pass
  {
    var held := HeldAs(p.st, a.manifest.id);
    Apply(p, a, ChangeFrom(held, a), RefusalOf(held, a))
  }

  /** rescanForNew on a scan's result. */
  function NewAll(st: State, apps: seq<App>): Pass
  {
    if apps == [] then Pass(st, [], []) else NewOne(NewAll(st, apps[..|apps| - 1]), apps[|apps| - 1])
  }

  // ---- rescanForGone ----

  function GoneOne(st: State, id: string, gone: set<string>): State
  {
    if id !in st.installed || id !in gone then st
    else Cancel(st, id).(installed := st.installed - {id}, ready := st.ready - {id}, crashes := st.crashes - {id})
  }

  /** The pass over the table, in the order the map is walked. */
  function GoneAll(st: State, order: seq<string>, gone: set<string>): State
  {
    if order == [] then st else GoneOne(GoneAll(st, order[..|order| - 1], gone), order[|order| - 1], gone)
  }

  // ---- rescanForResume ----

  /** Resume markers found: those that can be removed are consumed, the others are warned about. */
  datatype Markers = Markers(consumable: set<string>, stuck: set<string>)

  datatype Resumption = Resumption(st: State, resumed: seq<App>, left: Markers)

  function ResumeKey(id: string): string { "resume/" + id }

  function ResumeOne(r: Resumption, id: string): Resumption
  {
    if id !in r.st.installed then r
    else if id in r.left.consumable then
      Resumption(r.st.(crashes := r.st.crashes - {id}, appCancel := r.st.appCancel - {id},
                       warned := r.st.warned - {ResumeKey(id)}),
                 r.resumed + [r.st.installed[id]], r.left.(consumable := r.left.consumable - {id}))
    else if id in r.left.stuck then
      r.(st := r.st.(warned := r.st.warned[ResumeKey(id) := "rescan: app id=" + id + ": remove resume marker"]))
    else r
  }

  function ResumeAll(st: State, order: seq<string>, markers: Markers): Resumption
  {
    if order == [] then Resumption(st, [], markers)
    else ResumeOne(ResumeAll(st, order[..|order| - 1], markers), order[|order| - 1])
  }

  // ---- a tick ----

  /** What the disk shows a tick: the dirs gone, the resume markers, and the order the table is walked in. */
  datatype Disk = Disk(goneOrder: seq<string>, gone: set<string>, resumeOrder: seq<string>, markers: Markers)

  /** After rescanForNew and its starts, and rescanForGone. */
  function BeforeResume(st: State, apps: seq<App>, disk: Disk): State
  {
    var p := NewAll(st, apps);
    GoneAll(StartAll(p.st, p.toStart), disk.goneOrder, disk.gone)
  }

  function Tick(st: State, apps: seq<App>, disk: Disk): State
  {
    var r := ResumeAll(BeforeResume(st, apps, disk), disk.resumeOrder, disk.markers);
    StartAll(r.st, r.resumed)
  }

  function Start(apps: seq<App>): State
  {
    StartAll(RegisterAll(FRESH, apps), apps)
  }

  // ---- what the passes do to the table's ids ----

  lemma ApplyKeys(p: Pass, a: App, change: Change, refusal: string)
    requires change.Unchanged? || change.Downgrade? ==> a.manifest.id in p.st.installed
    ensures Apply(p, a, change, refusal).st.installed.Keys == p.st.installed.Keys + {a.manifest.id}
  {
  }

  lemma {:induction false} NewAllKeys(st: State, apps: seq<App>)
    ensures NewAll(st, apps).st.installed.Keys == st.installed.Keys + IdsOf(apps)
  {
    if apps != [] {
      var front, a := apps[..|apps| - 1], apps[|apps| - 1];
      NewAllKeys(st, front);
      var p := NewAll(st, front);
      var held := HeldAs(p.st, a.manifest.id);
      ApplyKeys(p, a, ChangeFrom(held, a), RefusalOf(held, a));
    }
  }

  lemma {:induction false} StartAllInstalled(st: State, apps: seq<App>)
    ensures StartAll(st, apps).installed == st.installed
  {
    if apps != [] {
      StartAllInstalled(st, apps[..|apps| - 1]);
    }
  }

  lemma {:induction false} GoneAllInstalled(st: State, order: seq<string>, gone: set<string>)
    ensures var st' := GoneAll(st, order, gone);
            forall id :: id in st'.installed ==> id in st.installed && st'.installed[id] == st.installed[id]
  {
    if order != [] {
      GoneAllInstalled(st, order[..|order| - 1], gone);
    }
  }

  lemma {:induction false} ResumeAllInstalled(st: State, order: seq<string>, markers: Markers)
    ensures ResumeAll(st, order, markers).st.installed == st.installed
  {
    if order != [] {
      ResumeAllInstalled(st, order[..|order| - 1], markers);
    }
  }

  /** After a tick the table is that of its rescanForNew, less what is gone. */
  lemma TickInstalled(st: State, apps: seq<App>, disk: Disk)
    ensures var mid, st' := NewAll(st, apps).st, Tick(st, apps, disk);
            forall id :: id in st'.installed ==> id in mid.installed && st'.installed[id] == mid.installed[id]
  {
    var p := NewAll(st, apps);
    var started := StartAll(p.st, p.toStart);
    StartAllInstalled(p.st, p.toStart);
    GoneAllInstalled(started, disk.goneOrder, disk.gone);
    var before := BeforeResume(st, apps, disk);
    ResumeAllInstalled(before, disk.resumeOrder, disk.markers);
    var r := ResumeAll(before, disk.resumeOrder, disk.markers);
    StartAllInstalled(r.st, r.resumed);
  }

  lemma {:induction false} GoneAllKeys(st: State, order: seq<string>, gone: set<string>)
    ensures forall id :: id in GoneAll(st, order, gone).installed <==>
              id in st.installed && !(id in gone && id in order)
  {
    if order != [] {
      GoneAllKeys(st, order[..|order| - 1], gone);
      assert order == order[..|order| - 1] + [order[|order| - 1]];
    }
  }

  /** The ids the table may hold when it is walked: what it held, and what was scanned. */
  predicate Walked(st: State, apps: seq<App>, id: string)
  {
    id in st.installed || id in IdsOf(apps)
  }

  /** Both walks of a tick visit every app in the table at that time. */
  ghost predicate Covers(st: State, apps: seq<App>, disk: Disk)
  {
    && (forall id :: id in disk.goneOrder <==> Walked(st, apps, id))
    && (forall id :: id in disk.resumeOrder <==> Walked(st, apps, id) && id !in disk.gone)
  }

  lemma BeforeResumeKeys(st: State, apps: seq<App>, disk: Disk)
    ensures forall id :: id in BeforeResume(st, apps, disk).installed <==>
              Walked(st, apps, id) && !(id in disk.gone && id in disk.goneOrder)
  {
    var p := NewAll(st, apps);
    NewAllKeys(st, apps);
    StartAllInstalled(p.st, p.toStart);
    GoneAllKeys(StartAll(p.st, p.toStart), disk.goneOrder, disk.gone);
  }

  // ---- the supervisor object ----

  class Table {
    var installed: map<string, App>
    var ready: set<string>
    var crashes: map<string, CrashLoop.Record>
    var appCancel: map<string, nat>
    var warned: map<string, string>
    var loops: seq<Loop>

    function Value(): State
      reads this
    {
      State(installed, ready, crashes, appCancel, warned, loops)
    }

    constructor ()
      ensures Value() == FRESH
    {
      installed, ready, crashes, appCancel, warned, loops := map[], {}, map[], map[], map[], [];
    }

    method CancelLoop(id: string)
      modifies this
      ensures Value() == Cancel(old(Value()), id)
    {
      if id in appCancel {
        var h := appCancel[id];
        if h < |loops| {
          loops := loops[h := loops[h].(cancelled := true)];
        }
        appCancel := appCancel - {id};
      }
    }

    method StartLoop(a: App)
      modifies this
      ensures Value() == StartOne(old(Value()), a)
    {
      appCancel := appCancel[a.manifest.id := |loops|];
      loops := loops + [Loop(a.manifest.id, false, false)];
    }

    method StartLoops(apps: seq<App>)
      modifies this
      ensures Value() == StartAll(old(Value()), apps)
    {
      for i := 0 to |apps|
        invariant Value() == StartAll(old(Value()), apps[..i])
      {
        assert apps[..i + 1][..i] == apps[..i];
        StartLoop(apps[i]);
      }
      assert apps[..|apps|] == apps;
    }

    method RegisterInstalled(apps: seq<App>)
      modifies this
      ensures Value() == RegisterAll(old(Value()), apps)
    {
      for i := 0 to |apps|
        invariant Value() == RegisterAll(old(Value()), apps[..i])
      {
        assert apps[..i + 1][..i] == apps[..i];
        var a := apps[i];
        if !(a.manifest.id in installed
             && CompareVersions(a.manifest.appVersion, installed[a.manifest.id].manifest.appVersion) < 0) {
          installed := installed[a.manifest.id := a];
        }
      }
      assert apps[..|apps|] == apps;
    }

    /** Logs `msg` unless it was the last warning under `key`. */
    method WarnOnce(key: string, msg: string) returns (logged: bool)
      modifies this`warned
      ensures logged == (LastWarning(old(warned), key) != msg)
      ensures warned == old(warned)[key := msg]
    {
      logged := LastWarning(warned, key) != msg;
      warned := warned[key := msg];
    }

    /** What an app on disk means for the table, by the rescan's tests in order. */
    method Classify(a: App) returns (change: Change)
      ensures change == ChangeFrom(HeldAs(Value(), a.manifest.id), a)
    {
      if a.manifest.id !in installed {
        return Discovered;
      }
      var existing := installed[a.manifest.id];
      if existing.manifest.appVersion == a.manifest.appVersion {
        if existing.manifest.binarySHA256 == a.manifest.binarySHA256 {
          return Unchanged;
        }
        return Rebuilt;
      }
      if CompareVersions(a.manifest.appVersion, existing.manifest.appVersion) < 0 {
        return Downgrade;
      }
      return Upgraded;
    }

    /** Carries out a change: refuse it once, or swap the app in. */
    method Carry(a: App, change: Change, refusal: string) returns (isFresh: bool, logged: seq<string>)
      modifies this
      ensures Pass(Value(), if isFresh then [a] else [], logged)
           == Apply(Pass(old(Value()), [], []), a, change, refusal)
    {
      var id := a.manifest.id;
      isFresh, logged := false, [];
      if change.Unchanged? {
        return;
      }
      if change.Downgrade? {
        var said := WarnOnce(DowngradeKey(id), refusal);
        logged := if said then [refusal] else [];
        return;
      }
      if change.Upgraded? {
        warned := warned - {DowngradeKey(id)};
      }
      if id in installed {
        CancelLoop(id);
        ready := ready - {id};
      }
      crashes := crashes - {id};
      installed := installed[id := a];
      isFresh := true;
    }

    method RescanForNew(apps: seq<App>) returns (toStart: seq<App>, logged: seq<string>)
      modifies this
      ensures Pass(Value(), toStart, logged) == NewAll(old(Value()), apps)
    {
      toStart, logged := [], [];
      for i := 0 to |apps|
        invariant Pass(Value(), toStart, logged) == NewAll(old(Value()), apps[..i])
      {
        assert apps[..i + 1][..i] == apps[..i];
        ghost var before := Pass(Value(), toStart, logged);
        var change := Classify(apps[i]);
        var refusal := RefusalOf(HeldAs(Value(), apps[i].manifest.id), apps[i]);
        ApplyAppends(before, apps[i], change, refusal);
        var isFresh, lines := Carry(apps[i], change, refusal);
        toStart := if isFresh then toStart + [apps[i]] else toStart;
        logged := logged + lines;
      }
      assert apps[..|apps|] == apps;
    }

    /** Drops every app whose dir is gone; the walk order is whatever the map gives. */
    method RescanForGone(gone: set<string>) returns (order: seq<string>)
      modifies this
      ensures Value() == GoneAll(old(Value()), order, gone)
      ensures forall id :: id in order <==> id in old(installed)
    {
      order := [];
      var todo := installed.Keys;
      while todo != {}
        invariant Value() == GoneAll(old(Value()), order, gone)
        invariant forall id :: id in old(installed) <==> id in todo || id in order
        decreases |todo|
      {
        var id :| id in todo;
        todo := todo - {id};
        assert (order + [id])[..|order|] == order;
        order := order + [id];
        if id in installed && id in gone {
          CancelLoop(id);
          installed, ready, crashes := installed - {id}, ready - {id}, crashes - {id};
        }
      }
    }

    /** Consumes resume markers; the walk order is whatever the map gives. */
    method RescanForResume(markers: Markers) returns (resumed: seq<App>, order: seq<string>)
      modifies this
      ensures Value() == ResumeAll(old(Value()), order, markers).st
      ensures resumed == ResumeAll(old(Value()), order, markers).resumed
      ensures forall id :: id in order <==> id in old(installed)
    {
      resumed, order := [], [];
      var left := markers;
      var todo := installed.Keys;
      while todo != {}
        invariant Resumption(Value(), resumed, left) == ResumeAll(old(Value()), order, markers)
        invariant forall id :: id in old(installed) <==> id in todo || id in order
        decreases |todo|
      {
        var id :| id in todo;
        todo := todo - {id};
        assert (order + [id])[..|order|] == order;
        order := order + [id];
        if id in installed {
          if id in left.consumable {
            warned := warned - {ResumeKey(id)};
            crashes, appCancel := crashes - {id}, appCancel - {id};
            resumed := resumed + [installed[id]];
            left := left.(consumable := left.consumable - {id});
          } else if id in left.stuck {
            var _ := WarnOnce(ResumeKey(id), "rescan: app id=" + id + ": remove resume marker");
          }
        }
      }
    }

    /** callFrom up to the dial; `becomesReady` is what waiting for an app that is not ready finds. */
    method CallFrom(callerID: string, appID: string, name: string, origin: Origin, becomesReady: bool) returns (g: Gate)
      ensures g == CallGate(installed, appID in ready || becomesReady, callerID, appID, name, origin)
    {
      var stamped := origin;
      if callerID != "" {
        stamped := NoOrigin;
      }
      if appID !in installed {
        return AppNotInstalled;
      }
      var exposed := ExposesMethod(installed[appID].manifest, name);
      if !exposed {
        return MethodNotExposed;
      }
      if callerID != "" {
        if callerID !in installed {
          return GrantMissing;
        }
        var granted := HasGrant(installed[callerID].manifest, "ipc.call", appID + "." + name);
        if !granted {
          return GrantMissing;
        }
      }
      if appID !in ready && !becomesReady {
        return AppNotReady;
      }
      g := Dial(installed[appID], stamped);
    }

    /** One tick of the rescan goroutine, on what the scan returned; both walks cover the table. */
    method RescanTick(apps: seq<App>, gone: set<string>, markers: Markers) returns (disk: Disk)
      modifies this
      ensures disk.gone == gone && disk.markers == markers
      ensures Covers(old(Value()), apps, disk)
      ensures Value() == Tick(old(Value()), apps, disk)
    {
      ghost var st := Value();
      NewAllKeys(st, apps);
      var toStart, _ := RescanForNew(apps);
      StartAllInstalled(NewAll(st, apps).st, toStart);
      StartLoops(toStart);
      var goneOrder := RescanForGone(gone);
      GoneAllKeys(StartAll(NewAll(st, apps).st, toStart), goneOrder, gone);
      var resumed, resumeOrder := RescanForResume(markers);
      StartLoops(resumed);
      disk := Disk(goneOrder, gone, resumeOrder, markers);
    }
  }

  /** A step of the pass only appends to what earlier steps started and logged. */
  lemma ApplyAppends(p: Pass, a: App, change: Change, refusal: string)
    ensures var one := Apply(Pass(p.st, [], []), a, change, refusal);
            Apply(p, a, change, refusal) == Pass(one.st, p.toStart + one.toStart, p.logged + one.logged)
  {
  }
}
