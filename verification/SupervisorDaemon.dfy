/**
 * plugin/appstore/supervisor.go: the supervisor object, its table and its failure
 * records together. Its methods carry out the steps of a run, so every statement
 * about runs is about this object.
 */
module SupervisorDaemon {
  import opened Manifests
  import opened SignatureThrottle
  import opened Scan
  import opened Supervisor
  import opened SupervisorLinks
  import opened SupervisorRuns

  class Daemon {
    const w: World
    const table: Table
    const throttle: Throttle

    /** The entries the first scan visited, and the steps since. */
    ghost const boot: seq<Entry>
    ghost var steps: seq<Step>

    function Value(): Machine
      reads table, throttle
    {
      Machine(table.Value(), throttle.sigFails)
    }

    ghost predicate Valid()
      reads this, table, throttle
    {
      Value() == Run(w, boot, steps) && PossibleRun(w, boot, steps)
    }

    /** The first scan, registerInstalled, and the start of every app it found. */
    constructor (w: World, entries: seq<Entry>)
      requires DistinctNames(entries)
      ensures Valid() && this.w == w && boot == entries && steps == []
      ensures fresh(table) && fresh(throttle)
      ensures InStep(Value().st)
    {
      var tab := new Table();
      var thr := new Throttle();
      var apps := ScanInstalled(w, thr, entries);
      tab.RegisterInstalled(apps);
      tab.StartLoops(apps);
      BootInStep(w, entries);
      this.w, table, throttle, boot, steps := w, tab, thr, entries, [];
    }

    /**
     * One rescan tick: list the root, scan it, then new, gone and resume. It keeps
     * loops, handles and table in step if and only if it is quiet.
     */
    method Rescan(listing: Listing, gone: set<string>, markers: Markers) returns (step: Step)
      requires Valid() && (listing.Listed? ==> DistinctNames(listing.entries))
      modifies this, table, throttle
      ensures Valid() && steps == old(steps) + [step]
      ensures step.Rescan? && step.listing == listing && step.disk.gone == gone && step.disk.markers == markers
      ensures InStep(old(Value()).st) ==> (InStep(Value().st) <==> QuietStep(w, old(Value()), step))
    {
      ghost var was := Value();
      RunFiled(w, boot, steps);
      var apps;
      match listing {
        case ListingFailed(error) =>
          apps := [];
          var _ := table.WarnOnce("rescan", "rescan: " + error);
        case Listed(entries) =>
          apps := ScanInstalled(w, throttle, entries);
          table.warned := table.warned - {"rescan"};
      }
      assert table.Value() == NoteListing(was.st, listing);
      var disk := table.RescanTick(apps, gone, markers);
      step := SupervisorRuns.Rescan(listing, disk);
      assert (throttle.sigFails, apps) == ScanAll(w, was.fails, Visited(step));
      assert Value() == Next(w, was, step);
      RunSnoc(w, boot, steps, step);
      if InStep(was.st) {
        NextInStepIff(w, was, step);
      }
      steps := steps + [step];
    }

    /** A loop returns, a socket comes up, a process exits, a crash is recorded. */
    method Observe(step: Step)
      requires Valid() && !step.Rescan?
      modifies this, table
      ensures Valid() && steps == old(steps) + [step]
      ensures InStep(old(Value()).st) ==> InStep(Value().st)
    {
      ghost var was := Value();
      match step {
        case LoopReturns(h) =>
          if h < |table.loops| {
            table.loops := table.loops[h := table.loops[h].(returned := true)];
          }
        case SocketUp(id) => table.ready := table.ready + {id};
        case ProcessExited(id) => table.ready := table.ready - {id};
        case CrashRecorded(id, record) => table.crashes := table.crashes[id := record];
      }
      assert Value() == Next(w, was, step);
      RunSnoc(w, boot, steps, step);
      RunFiled(w, boot, steps);
      if InStep(was.st) {
        NextInStepIff(w, was, step);
      }
      steps := steps + [step];
    }

    /**
     * A call of an app's method. It is dialed exactly when the target is installed,
     * its manifest lists the method, the caller is the daemon or an installed app
     * with a grant that reaches the target, and the target is ready or becomes so;
     * each refusal names the first of these that fails. What is dialed was verified
     * at some visit of the run, and a sideloaded caller is never dialed.
     */
    method CallFrom(callerID: string, appID: string, name: string, origin: Origin, becomesReady: bool)
      returns (g: Gate)
      requires Valid()
      ensures var ready := appID in table.ready || becomesReady;
              FirstFailing(g, table.installed, ready, callerID, appID, name, origin)
      ensures g.Dial? <==>
        && appID in table.installed && name in table.installed[appID].manifest.exposes
        && MayCall(table.installed, callerID, appID + "." + name)
        && (appID in table.ready || becomesReady)
      ensures g.Dial? ==> FoundAtVisit(w, boot, steps, g.app) && name in g.app.manifest.exposes
      ensures callerID != "" && callerID in table.installed && table.installed[callerID].sideloaded ==> !g.Dial?
      ensures g.Dial? ==> g.app == table.installed[appID] && (callerID != "" ==> g.origin == NoOrigin)
    {
      var ready := appID in table.ready || becomesReady;
      g := table.CallFrom(callerID, appID, name, origin, becomesReady);
      DialsWhatWasFound(w, boot, steps, ready, callerID, appID, name, origin);
      if callerID != "" && callerID in table.installed && table.installed[callerID].sideloaded {
        SideloadedNeverDialsInAnyRun(w, boot, steps, ready, callerID, appID, name, origin);
      }
    }
  }
}
