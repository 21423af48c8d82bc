/**
 * Exactly what each pass over the table does to every entry, handle, record, loop
 * and warning, told from versions, hashes, dirs and markers alone.
 */
module SupervisorEffects {
  import opened Manifests
  import opened Versions
  import opened Scan
  import opened Supervisor
  import opened SupervisorLinks

  // ---- rescanForNew ----

  /**
   * The scanned app takes over: its id is not installed, or it has the installed
   * version and another binary, or another version that is not below.
   */
  predicate TakesOver(st: State, a: App)
  {
    var id := a.manifest.id;
    id !in st.installed ||
    var prior := st.installed[id].manifest;
    if a.manifest.appVersion == prior.appVersion then a.manifest.binarySHA256 != prior.binarySHA256
    else CompareVersions(a.manifest.appVersion, prior.appVersion) >= 0
  }

  /** It is a downgrade: another version, below the installed one. */
  predicate IsBelow(st: State, a: App)
  {
    var id := a.manifest.id;
    && id in st.installed && a.manifest.appVersion != st.installed[id].manifest.appVersion
    && CompareVersions(a.manifest.appVersion, st.installed[id].manifest.appVersion) < 0
  }

  /** It replaces an installed app. */
  predicate Replaces(st: State, a: App)
  {
    a.manifest.id in st.installed && TakesOver(st, a)
  }

  /** It replaces one of another version. */
  predicate Upgrades(st: State, a: App)
  {
    Replaces(st, a) && a.manifest.appVersion != st.installed[a.manifest.id].manifest.appVersion
  }

  /** What is said of a downgrade. */
  function Refusal(st: State, a: App): string
    requires a.manifest.id in st.installed
  {
    DowngradeMessage(a, st.installed[a.manifest.id])
  }

  /** The rescan's cases are told by version and hash. */
  lemma ChangeTold(st: State, a: App)
    ensures var c := ChangeFrom(HeldAs(st, a.manifest.id), a);
            && (Starting(c) <==> TakesOver(st, a))
            && (c.Downgrade? <==> IsBelow(st, a))
            && (c.Upgraded? <==> Upgrades(st, a))
  {
  }

  /** The entries of an id are the same. */
  predicate SameEntry(st: State, st': State, id: string)
  {
    && HeldAs(st', id) == HeldAs(st, id)
    && (id in st'.ready <==> id in st.ready)
    && (id in st'.crashes <==> id in st.crashes) && (id in st.crashes ==> st'.crashes[id] == st.crashes[id])
    && SameHandle(st, st', id)
  }

  predicate SameHandle(st: State, st': State, id: string)
  {
    (id in st'.appCancel <==> id in st.appCancel) && (id in st.appCancel ==> st'.appCancel[id] == st.appCancel[id])
  }

  predicate SameWarning(st: State, st': State, key: string)
  {
    (key in st'.warned <==> key in st.warned) && (key in st.warned ==> st'.warned[key] == st.warned[key])
  }

  /** What becomes of a scanned app's entries. */
  predicate EntryAfter(st: State, st': State, a: App)
  {
    var id := a.manifest.id;
    if TakesOver(st, a) then
      && HeldAs(st', id) == Holds(a) && id !in st'.crashes
      && (if id in st.installed then id !in st'.ready && id !in st'.appCancel
          else (id in st'.ready <==> id in st.ready) && SameHandle(st, st', id))
    else SameEntry(st, st', id)
  }

  /** What becomes of its downgrade warning. */
  predicate WarningAfter(st: State, st': State, a: App)
  {
    var key := "downgrade/" + a.manifest.id;
    if Upgrades(st, a) then key !in st'.warned
    else if IsBelow(st, a) then key in st'.warned && st'.warned[key] == Refusal(st, a)
    else SameWarning(st, st', key)
  }

  /** One step of the pass, whatever the case and the refusal are. */
  lemma ApplyDoes(p: Pass, a: App, change: Change, refusal: string)
    ensures var id, key, st := a.manifest.id, "downgrade/" + a.manifest.id, p.st;
            var p' := Apply(p, a, change, refusal);
            && (Starting(change) ==>
                  && p'.toStart == p.toStart + [a] && p'.logged == p.logged
                  && p'.st.installed == st.installed[id := a] && p'.st.crashes == st.crashes - {id}
                  && p'.st.warned == (if change.Upgraded? then st.warned - {key} else st.warned)
                  && (if id in st.installed
                      then p'.st.ready == st.ready - {id} && p'.st.appCancel == st.appCancel - {id}
                           && p'.st.loops == Cancel(st, id).loops
                      else p'.st.ready == st.ready && p'.st.appCancel == st.appCancel && p'.st.loops == st.loops))
            && (change.Downgrade? ==>
                  && p'.toStart == p.toStart && p'.st == st.(warned := st.warned[key := refusal])
                  && p'.logged == if LastWarning(st.warned, key) == refusal then p.logged else p.logged + [refusal])
            && (change.Unchanged? ==> p' == p)
  {
  }

  /** A step touches the entries of its own app only. */
  lemma ApplySpares(p: Pass, a: App, change: Change, refusal: string, id: string, key: string)
    requires id != a.manifest.id && key != "downgrade/" + a.manifest.id
    ensures SameEntry(p.st, Apply(p, a, change, refusal).st, id)
    ensures SameWarning(p.st, Apply(p, a, change, refusal).st, key)
  {
    ApplyDoes(p, a, change, refusal);
  }

  /** It does to them what the cases say. */
  lemma ApplyEntries(p: Pass, a: App, change: Change, refusal: string)
    requires Starting(change) <==> TakesOver(p.st, a)
    requires change.Downgrade? <==> IsBelow(p.st, a)
    requires change.Upgraded? <==> Upgrades(p.st, a)
    requires IsBelow(p.st, a) ==> refusal == Refusal(p.st, a)
    ensures EntryAfter(p.st, Apply(p, a, change, refusal).st, a)
    ensures WarningAfter(p.st, Apply(p, a, change, refusal).st, a)
  {
    ApplyDoes(p, a, change, refusal);
  }

  lemma SameCases(st: State, mid: State, a: App)
    requires HeldAs(mid, a.manifest.id) == HeldAs(st, a.manifest.id)
    ensures TakesOver(mid, a) <==> TakesOver(st, a)
    ensures IsBelow(mid, a) <==> IsBelow(st, a)
    ensures Upgrades(mid, a) <==> Upgrades(st, a)
    ensures IsBelow(st, a) ==> Refusal(mid, a) == Refusal(st, a)
  {
    assert a.manifest.id in st.installed ==> HeldAs(st, a.manifest.id) == Holds(st.installed[a.manifest.id]);
    assert a.manifest.id in mid.installed ==> HeldAs(mid, a.manifest.id) == Holds(mid.installed[a.manifest.id]);
  }

  lemma EntryVia(st: State, mid: State, st': State, a: App)
    requires EntryAfter(st, mid, a) && WarningAfter(st, mid, a)
    requires SameEntry(mid, st', a.manifest.id) && SameWarning(mid, st', "downgrade/" + a.manifest.id)
    ensures EntryAfter(st, st', a) && WarningAfter(st, st', a)
  {
  }

  lemma EntryFrom(st: State, mid: State, st': State, a: App)
    requires SameEntry(st, mid, a.manifest.id) && SameWarning(st, mid, "downgrade/" + a.manifest.id)
    requires EntryAfter(mid, st', a) && WarningAfter(mid, st', a)
    ensures EntryAfter(st, st', a) && WarningAfter(st, st', a)
  {
    SameCases(st, mid, a);
  }

  lemma KeysOfDiffer(a: string, b: string)
    requires a != b
    ensures "downgrade/" + a != "downgrade/" + b
  {
    assert ("downgrade/" + a)[|"downgrade/"|..] == a && ("downgrade/" + b)[|"downgrade/"|..] == b;
  }

  lemma {:induction false} IdAt(apps: seq<App>, k: nat)
    requires k < |apps|
    ensures apps[k].manifest.id in IdsOf(apps)
  {
    if k < |apps| - 1 {
      IdAt(apps[..|apps| - 1], k);
    }
  }

  /** An id that was not scanned keeps its entries and its warning. */
  lemma {:induction false} RescanSpares(st: State, apps: seq<App>, id: string)
    requires id !in IdsOf(apps)
    ensures SameEntry(st, NewAll(st, apps).st, id)
    ensures SameWarning(st, NewAll(st, apps).st, "downgrade/" + id)
  {
    if apps != [] {
      var front, a := apps[..|apps| - 1], apps[|apps| - 1];
      RescanSpares(st, front, id);
      var p := NewAll(st, front);
      var held := HeldAs(p.st, a.manifest.id);
      KeysOfDiffer(id, a.manifest.id);
      ApplySpares(p, a, ChangeFrom(held, a), RefusalOf(held, a), id, "downgrade/" + id);
    }
  }

  /** Every scanned app takes over, is refused or is left alone, by version and hash against the table before. */
  lemma {:induction false} RescanEntries(st: State, apps: seq<App>, k: nat)
    requires DistinctIds(apps) && k < |apps|
    ensures EntryAfter(st, NewAll(st, apps).st, apps[k]) && WarningAfter(st, NewAll(st, apps).st, apps[k])
  {
    var n := |apps| - 1;
    var front, a := apps[..n], apps[n];
    var p := NewAll(st, front);
    var held := HeldAs(p.st, a.manifest.id);
    if k == n {
      RescanSpares(st, front, a.manifest.id);
      ChangeTold(p.st, a);
      ApplyEntries(p, a, ChangeFrom(held, a), RefusalOf(held, a));
      EntryFrom(st, p.st, NewAll(st, apps).st, a);
    } else {
      RescanEntries(st, front, k);
      IdAt(front, k);
      KeysOfDiffer(apps[k].manifest.id, a.manifest.id);
      var id := apps[k].manifest.id;
      ApplySpares(p, a, ChangeFrom(held, a), RefusalOf(held, a), id, "downgrade/" + id);
      EntryVia(st, p.st, NewAll(st, apps).st, apps[k]);
    }
  }

  /** The scanned apps that take over, in scan order. */
  function Taking(st: State, apps: seq<App>): seq<App>
  {
    if apps == [] then []
    else
      var a := apps[|apps| - 1];
      Taking(st, apps[..|apps| - 1]) + if TakesOver(st, a) then [a] else []
  }

  /** The refusals that were not the last thing said of their app, in scan order. */
  function Refusals(st: State, apps: seq<App>): seq<string>
  {
    if apps == [] then []
    else
      var a := apps[|apps| - 1];
      var key := "downgrade/" + a.manifest.id;
      Refusals(st, apps[..|apps| - 1]) +
      if IsBelow(st, a) && !(key in st.warned && st.warned[key] == Refusal(st, a)) then [Refusal(st, a)] else []
  }

  lemma RefusalNotEmpty(st: State, a: App)
    requires a.manifest.id in st.installed
    ensures Refusal(st, a) != ""
  {
    assert |"rescan: downgrade refused: app="| > 0;
  }

  /** Exactly those are started, in that order, and exactly those refusals are logged. */
  lemma {:induction false} RescanStarts(st: State, apps: seq<App>)
    requires DistinctIds(apps)
    ensures NewAll(st, apps).toStart == Taking(st, apps)
    ensures NewAll(st, apps).logged == Refusals(st, apps)
  {
    if apps != [] {
      var front, a := apps[..|apps| - 1], apps[|apps| - 1];
      RescanStarts(st, front);
      RescanSpares(st, front, a.manifest.id);
      var p := NewAll(st, front);
      var held := HeldAs(p.st, a.manifest.id);
      SameCases(st, p.st, a);
      ChangeTold(p.st, a);
      ApplyDoes(p, a, ChangeFrom(held, a), RefusalOf(held, a));
      if IsBelow(st, a) {
        RefusalNotEmpty(st, a);
      }
    }
  }

  // ---- cancelling ----

  /** Exactly the loops whose handles these ids held are cancelled, and no loop changes otherwise. */
  ghost predicate CancelsExactly(st: State, st': State, ids: set<string>)
  {
    |st'.loops| == |st.loops| && forall h: nat :: h < |st.loops| ==> LoopAfter(st, st', ids, h)
  }

  ghost predicate LoopAfter(st: State, st': State, ids: set<string>, h: nat)
    requires h < |st.loops| == |st'.loops|
  {
    && st'.loops[h].id == st.loops[h].id && st'.loops[h].returned == st.loops[h].returned
    && (st'.loops[h].cancelled <==>
          st.loops[h].cancelled || exists id :: id in ids && id in st.appCancel && st.appCancel[id] == h)
  }

  lemma CancelsNothing(st: State, st': State)
    requires st'.loops == st.loops
    ensures CancelsExactly(st, st', {})
  {
  }

  lemma CancelsOneMore(st: State, mid: State, st': State, ids: set<string>, id: string)
    requires CancelsExactly(st, mid, ids) && SameHandle(st, mid, id) && st'.loops == Cancel(mid, id).loops
    ensures CancelsExactly(st, st', ids + {id})
  {
    forall h: nat | h < |st.loops| ensures LoopAfter(st, st', ids + {id}, h) {
      assert LoopAfter(st, mid, ids, h);
      if id in st.appCancel && st.appCancel[id] == h {
        assert id in ids + {id};
      }
      if exists x :: x in ids && x in st.appCancel && st.appCancel[x] == h {
        var x :| x in ids && x in st.appCancel && st.appCancel[x] == h;
        assert x in ids + {id};
      }
    }
  }

  lemma CancelsSame(st: State, mid: State, st': State, ids: set<string>)
    requires CancelsExactly(st, mid, ids) && st'.loops == mid.loops
    ensures CancelsExactly(st, st', ids)
  {
    forall h: nat | h < |st.loops| ensures LoopAfter(st, st', ids, h) {
      assert LoopAfter(st, mid, ids, h);
    }
  }

  /** The installed ids that are replaced. */
  function Replaced(st: State, apps: seq<App>): set<string>
  {
    if apps == [] then {}
    else
      var a := apps[|apps| - 1];
      Replaced(st, apps[..|apps| - 1]) + if Replaces(st, a) then {a.manifest.id} else {}
  }

  /** A rescan cancels exactly the loops of the apps it replaces. */
  lemma {:induction false} RescanCancels(st: State, apps: seq<App>)
    requires DistinctIds(apps)
    ensures CancelsExactly(st, NewAll(st, apps).st, Replaced(st, apps))
  {
    if apps == [] {
      CancelsNothing(st, st);
    } else {
      var front, a := apps[..|apps| - 1], apps[|apps| - 1];
      var ids, id := Replaced(st, front), a.manifest.id;
      RescanCancels(st, front);
      RescanSpares(st, front, id);
      var p, st' := NewAll(st, front), NewAll(st, apps).st;
      var held := HeldAs(p.st, id);
      SameCases(st, p.st, a);
      ChangeTold(p.st, a);
      ApplyDoes(p, a, ChangeFrom(held, a), RefusalOf(held, a));
      if Replaces(st, a) {
        CancelsOneMore(st, p.st, st', ids, id);
      } else {
        CancelsSame(st, p.st, st', ids);
        assert ids + {} == ids;
      }
    }
  }

  // ---- rescanForGone ----

  /** The installed ids among the first of the walk whose dirs are gone. */
  function Dropped(st: State, order: seq<string>, gone: set<string>): set<string>
  {
    set id | id in order && id in st.installed && id in gone
  }

  ghost predicate GoneAt(st: State, st': State, order: seq<string>, gone: set<string>, id: string)
  {
    if id in Dropped(st, order, gone)
    then id !in st'.installed && id !in st'.ready && id !in st'.crashes && id !in st'.appCancel
    else SameEntry(st, st', id)
  }

  lemma GoneOneDoes(st: State, id: string, gone: set<string>)
    ensures var st' := GoneOne(st, id, gone);
            if id in st.installed && id in gone
            then && st'.installed == st.installed - {id} && st'.ready == st.ready - {id}
                 && st'.crashes == st.crashes - {id} && st'.appCancel == st.appCancel - {id}
                 && st'.warned == st.warned && st'.loops == Cancel(st, id).loops
            else st' == st
  {
  }

  lemma GoneOneAt(st: State, mid: State, front: seq<string>, x: string, gone: set<string>, id: string)
    requires GoneAt(st, mid, front, gone, id) && GoneAt(st, mid, front, gone, x)
    ensures GoneAt(st, GoneOne(mid, x, gone), front + [x], gone, id)
  {
    GoneOneDoes(mid, x, gone);
    assert id in front + [x] <==> id in front || id == x;
    assert HeldAs(mid, x) == HeldAs(st, x) ==> (x in mid.installed <==> x in st.installed);
  }

  /** It drops exactly the walked apps whose dirs are gone, with all their entries, and touches nothing else. */
  lemma {:induction false} GoneExactly(st: State, order: seq<string>, gone: set<string>)
    ensures var st' := GoneAll(st, order, gone);
            && (forall id :: GoneAt(st, st', order, gone, id)) && st'.warned == st.warned
            && CancelsExactly(st, st', Dropped(st, order, gone))
  {
    if order == [] {
      CancelsNothing(st, st);
      assert Dropped(st, order, gone) == {};
    } else {
      var front, x := order[..|order| - 1], order[|order| - 1];
      var mid, st' := GoneAll(st, front, gone), GoneAll(st, order, gone);
      GoneExactly(st, front, gone);
      assert order == front + [x];
      forall id ensures GoneAt(st, st', order, gone, id) {
        GoneOneAt(st, mid, front, x, gone, id);
      }
      GoneOneDoes(mid, x, gone);
      assert GoneAt(st, mid, front, gone, x);
      if x in mid.installed && x in gone {
        assert HeldAs(mid, x) == HeldAs(st, x);
        CancelsOneMore(st, mid, st', Dropped(st, front, gone), x);
        assert Dropped(st, order, gone) == Dropped(st, front, gone) + {x};
      } else {
        CancelsSame(st, mid, st', Dropped(st, front, gone));
        assert Dropped(st, order, gone) == Dropped(st, front, gone);
      }
    }
  }

  // ---- rescanForResume ----

  /** What becomes of an app's crash record and resume warning. */
  predicate ResumedAt(st: State, st': State, order: seq<string>, markers: Markers, id: string)
  {
    var key := "resume/" + id;
    if Consumed(st, order, markers, id) then id !in st'.crashes && key !in st'.warned
    else
      && (id in st'.crashes <==> id in st.crashes) && (id in st.crashes ==> st'.crashes[id] == st.crashes[id])
      && (if id in order && id in st.installed && id in markers.stuck then key in st'.warned
          else SameWarning(st, st', key))
  }

  lemma ResumeOneEntries(r: Resumption, id: string)
    ensures var r', key := ResumeOne(r, id), "resume/" + id;
            && r'.st.ready == r.st.ready && r'.st.installed == r.st.installed && r'.left.stuck == r.left.stuck
            && if id in r.st.installed && id in r.left.consumable
               then r'.st.crashes == r.st.crashes - {id} && r'.st.warned == r.st.warned - {key}
                    && r'.left.consumable == r.left.consumable - {id}
               else && r'.st.crashes == r.st.crashes && r'.left == r.left
                    && if id in r.st.installed && id in r.left.stuck
                       then key in r'.st.warned && r'.st.warned.Keys == r.st.warned.Keys + {key}
                            && forall k :: k in r.st.warned && k != key ==> r'.st.warned[k] == r.st.warned[k]
                       else r'.st.warned == r.st.warned
  {
  }

  lemma ResumeKeysDiffer(a: string, b: string)
    requires a != b
    ensures "resume/" + a != "resume/" + b
  {
    assert ("resume/" + a)[|"resume/"|..] == a && ("resume/" + b)[|"resume/"|..] == b;
  }

  lemma ResumeOneAt(st: State, front: seq<string>, x: string, markers: Markers, r: Resumption, id: string)
    requires Resuming(st, front, markers, r) && r.left.stuck == markers.stuck && markers.consumable !! markers.stuck
    requires ResumedAt(st, r.st, front, markers, id)
    ensures ResumedAt(st, ResumeOne(r, x).st, front + [x], markers, id)
  {
    ResumeOneEntries(r, x);
    assert ResumedOk(st, front, markers, r.resumed, id) && ResumedOk(st, front, markers, r.resumed, x);
    assert id in front + [x] <==> id in front || id == x;
    if id != x {
      ResumeKeysDiffer(id, x);
    }
  }

  /** It clears the record of exactly the apps it resumes, warns of markers it cannot remove, touching nothing else. */
  lemma {:induction false} ResumeExactly(st: State, order: seq<string>, markers: Markers)
    requires Filed(st) && markers.consumable !! markers.stuck
    ensures var r := ResumeAll(st, order, markers);
            && Resuming(st, order, markers, r) && r.left.stuck == markers.stuck && r.st.ready == st.ready
            && forall id :: ResumedAt(st, r.st, order, markers, id)
  {
    ResumeAllEffect(st, order, markers);
    if order != [] {
      var front, x := order[..|order| - 1], order[|order| - 1];
      ResumeExactly(st, front, markers);
      var r := ResumeAll(st, front, markers);
      ResumeOneEntries(r, x);
      assert order == front + [x];
      forall id ensures ResumedAt(st, ResumeAll(st, order, markers).st, order, markers, id) {
        ResumeOneAt(st, front, x, markers, r, id);
      }
    }
  }

  // ---- starting ----

  /** The loops of some apps, one each, in order, and live. */
  function LoopsOf(apps: seq<App>): seq<Loop>
  {
    if apps == [] then [] else LoopsOf(apps[..|apps| - 1]) + [Loop(apps[|apps| - 1].manifest.id, false, false)]
  }

  /** Starting apps adds one live loop each, in order, whose handle is stored, and changes nothing else. */
  lemma {:induction false} StartExactly(st: State, apps: seq<App>)
    requires DistinctIds(apps)
    ensures var st' := StartAll(st, apps);
            && st' == st.(loops := st.loops + LoopsOf(apps), appCancel := st'.appCancel)
            && |LoopsOf(apps)| == |apps|
            && (forall k :: 0 <= k < |apps| ==> HandleAt(st', apps[k].manifest.id, |st.loops| + k))
            && forall id :: id !in IdsOf(apps) ==> SameHandle(st, st', id)
  {
    if apps != [] {
      var n := |apps| - 1;
      var front := apps[..n];
      StartExactly(st, front);
      var mid, st' := StartAll(st, front), StartAll(st, apps);
      assert st.loops + LoopsOf(front) + [Loop(apps[n].manifest.id, false, false)] == st.loops + LoopsOf(apps);
      forall k | 0 <= k < |apps| ensures HandleAt(st', apps[k].manifest.id, |st.loops| + k) {
        if k < n {
          IdAt(front, k);
          assert HandleAt(mid, front[k].manifest.id, |st.loops| + k);
        }
      }
    }
  }

  predicate HandleAt(st: State, id: string, h: int)
  {
    id in st.appCancel && st.appCancel[id] == h
  }

  /** A start installs every app of the first scan. */
  lemma {:induction false} RegisterExactly(apps: seq<App>)
    requires DistinctIds(apps)
    ensures var st := RegisterAll(FRESH, apps);
            && st == FRESH.(installed := st.installed) && st.installed.Keys == IdsOf(apps)
            && forall k :: 0 <= k < |apps| ==> HeldAs(st, apps[k].manifest.id) == Holds(apps[k])
  {
    if apps != [] {
      var n := |apps| - 1;
      var front := apps[..n];
      RegisterExactly(front);
      var mid, st := RegisterAll(FRESH, front), RegisterAll(FRESH, apps);
      assert st.installed == mid.installed[apps[n].manifest.id := apps[n]];
      forall k | 0 <= k < |apps| ensures HeldAs(st, apps[k].manifest.id) == Holds(apps[k]) {
        if k < n {
          IdAt(front, k);
          assert HeldAs(mid, front[k].manifest.id) == Holds(front[k]);
        }
      }
    }
  }

  // ---- warnings ----

  /** A warning is logged exactly when it is not what was last said under its key; a clean key has nothing said. */
  lemma SaidOnce(warned: map<string, string>, key: string, msg: string)
    requires msg != ""
    ensures LastWarning(warned, key) == msg <==> key in warned && warned[key] == msg
  {
  }
}
