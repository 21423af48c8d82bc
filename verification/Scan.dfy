/**
 * plugin/appstore/supervisor.go: scanInstalled, the walk of the install root that
 * decides which apps exist, with the signature throttle in front of verification.
 *
 * The disk, the clock, the catalogue's pins, JSON parsing, manifest validation,
 * the hash and the signature and trust-anchor checks are inputs.
 */
module Scan {
  import opened Manifests
  import opened SignatureThrottle
  import Paths
  import Text

  datatype ParseResult = Parsed(m: Manifest) | Unparsable

  /** What the scan takes as given. */
  datatype World = World(
    root: string,                     // install root
    cwd: seq<string>,                 // working directory
    parse: string -> ParseResult,
    valid: Manifest -> bool,
    hash: string -> string,
    signed: Manifest -> bool,         // VerifySignature
    anchored: (Manifest, string) -> bool)   // VerifyTrustAnchor against the catalogue's pin

  datatype ManifestFile = NoManifestFile | Unreadable | Data(bytes: string)

  /**
   * A directory entry of the install root, with what is read while visiting it:
   * the catalogue's pin for its app, and the clock.
   */
  datatype Entry = Entry(
    name: string, isDir: bool, file: ManifestFile, sideloadMarker: bool, binaryIsSymlink: bool,
    pin: string, checkedAt: int, notedAt: int)

  datatype Found = Nothing | Install(app: App)

  predicate Trusted(w: World, m: Manifest, pin: string) { w.signed(m) && w.anchored(m, pin) }

  function DirOf(w: World, name: string): string { w.root + "/" + name }

  /** The manifest of a dir that is named after its app and holds a valid one. */
  function ManifestOf(w: World, e: Entry): ParseResult
  {
    if !e.isDir || !e.file.Data? then Unparsable
    else match w.parse(e.file.bytes)
      case Unparsable => Unparsable
      case Parsed(m) => if w.valid(m) && e.name == m.id then Parsed(m) else Unparsable
  }

  /** The last two checks: the binary path stays in the dir, and is not a symlink. */
  function Adopt(w: World, e: Entry, m: Manifest): Found
  {
    match Paths.ResolveUnder(w.cwd, DirOf(w, e.name), m.binaryPath)
    case Path(p) => if e.binaryIsSymlink then Nothing else Install(App(m, DirOf(w, e.name), p, e.sideloadMarker))
    case _ => Nothing
  }

  /** One entry of the throttled scan: the new failure records, and the app if it is adopted. */
  function Visit(w: World, fails: Failures, e: Entry): (Failures, Found)
  {
    match ManifestOf(w, e)
    case Unparsable => (fails, Nothing)
    case Parsed(m) =>
      if e.sideloadMarker then (fails, if SideloadSafe(m) then Adopt(w, e, m) else Nothing)
      else
        var hash := w.hash(e.file.bytes);
        if !Due(fails, e.name, hash, e.checkedAt) then (fails, Nothing)
        else if !Trusted(w, m, e.pin) then (fails[e.name := Noted(fails, e.name, hash, e.notedAt)], Nothing)
        else (fails - {e.name}, Adopt(w, e, m))
  }

  function Add(apps: seq<App>, f: Found): seq<App>
  {
    if f.Install? then apps + [f.app] else apps
  }

  /** The throttled scan. */
  function ScanAll(w: World, fails: Failures, entries: seq<Entry>): (Failures, seq<App>)
  {
    if entries == [] then (fails, [])
    else
      var (fails', apps) := ScanAll(w, fails, entries[..|entries| - 1]);
      var (fails'', f) := Visit(w, fails', entries[|entries| - 1]);
      (fails'', Add(apps, f))
  }

  /** scanInstalled, on the supervisor's own failure records. */
  method ScanInstalled(w: World, throttle: Throttle, entries: seq<Entry>) returns (out: seq<App>)
    modifies throttle
    ensures (throttle.sigFails, out) == ScanAll(w, old(throttle.sigFails), entries)
  {
    out := [];
    for i := 0 to |entries|
      invariant (throttle.sigFails, out) == ScanAll(w, old(throttle.sigFails), entries[..i])
    {
      var e := entries[i];
      assert entries[..i + 1][..i] == entries[..i];
      ghost var before := throttle.sigFails;
      var found := VisitEntry(w, throttle, e);
      assert ScanAll(w, old(throttle.sigFails), entries[..i + 1]) == (throttle.sigFails, Add(out, found));
      if found.Install? {
        out := out + [found.app];
      }
    }
    assert entries[..|entries|] == entries;
  }

  method VisitEntry(w: World, throttle: Throttle, e: Entry) returns (found: Found)
    modifies throttle
    ensures (throttle.sigFails, found) == Visit(w, old(throttle.sigFails), e)
  {
    found := Nothing;
    var parsed := ManifestOf(w, e);
    if parsed.Unparsable? {
      return;
    }
    var m := parsed.m;
    if e.sideloadMarker {
      var v := EnforceSideloadPolicy(Of(m));
      if !v.Fits? {
        return;
      }
    } else {
      var hash := w.hash(e.file.bytes);
      var due := throttle.ShouldAttempt(e.name, hash, e.checkedAt);
      if !due {
        return;
      }
      if !w.signed(m) {
        throttle.NoteFailure(e.name, hash, e.notedAt);
        return;
      }
      if !w.anchored(m, e.pin) {
        throttle.NoteFailure(e.name, hash, e.notedAt);
        return;
      }
      throttle.Clear(e.name);
    }
    found := Adopt(w, e, m);
  }

  // ---- the scan that verifies everything every time ----

  function VerifyAlways(w: World, e: Entry): Found
  {
    match ManifestOf(w, e)
    case Unparsable => Nothing
    case Parsed(m) =>
      if (if e.sideloadMarker then SideloadSafe(m) else Trusted(w, m, e.pin)) then Adopt(w, e, m) else Nothing
  }

  function FullScan(w: World, entries: seq<Entry>): seq<App>
  {
    if entries == [] then [] else Add(FullScan(w, entries[..|entries| - 1]), VerifyAlways(w, entries[|entries| - 1]))
  }

  /** A scan of one entry. */
  lemma OneEntry(w: World, fails: Failures, e: Entry)
    ensures ScanAll(w, fails, [e]) == (Visit(w, fails, e).0, Add([], Visit(w, fails, e).1))
    ensures FullScan(w, [e]) == Add([], VerifyAlways(w, e))
  {
    assert [e][..0] == [];
  }

  // ---- what is adopted, and what is noted ----

  /** The dir holds a valid manifest named after it. */
  predicate HoldsManifest(w: World, e: Entry)
  {
    && e.isDir && e.file.Data? && w.parse(e.file.bytes).Parsed?
    && w.valid(w.parse(e.file.bytes).m) && w.parse(e.file.bytes).m.id == e.name
  }

  /** A relative path that, walked from the app's dir, ends at or below it; under the root, at the root. */
  predicate LeadsInside(w: World, name: string, rel: string)
  {
    rel != "" && rel[0] != '/' &&
    var dir := Paths.AbsComps(w.cwd, w.root + "/" + name);
    var end := Paths.Walk(dir, Text.Split(rel, '/'));
    if dir == [] then end == [] else dir <= end
  }

  /** The dir is an app: its manifest may be trusted, or is harmless and marked, and its binary is its own file. */
  ghost predicate GoodEntry(w: World, e: Entry)
  {
    HoldsManifest(w, e) &&
    var m := w.parse(e.file.bytes).m;
    && (if e.sideloadMarker then Harmless(m) else w.signed(m) && w.anchored(m, e.pin))
    && LeadsInside(w, e.name, m.binaryPath) && !e.binaryIsSymlink
  }

  lemma ResolvesIff(w: World, name: string, rel: string)
    requires Paths.AllProper(w.cwd)
    ensures Paths.ResolveUnder(w.cwd, DirOf(w, name), rel).Path? <==> LeadsInside(w, name, rel)
  {
    var base := DirOf(w, name);
    if rel != "" && rel[0] != '/' {
      if Paths.AbsComps(w.cwd, base) == [] {
        Paths.ResolveUnderRoot(w.cwd, base, rel);
      } else {
        Paths.ResolveUnderIsContainment(w.cwd, base, rel);
      }
    }
  }

  /** A scan that verifies everything adopts exactly the good entries: the app its manifest describes, in its dir. */
  lemma AdoptionIff(w: World, e: Entry)
    requires Paths.AllProper(w.cwd)
    ensures VerifyAlways(w, e).Install? <==> GoodEntry(w, e)
    ensures VerifyAlways(w, e).Install? ==>
      var a := VerifyAlways(w, e).app;
      a.manifest == w.parse(e.file.bytes).m && a.dir == w.root + "/" + e.name && a.sideloaded == e.sideloadMarker
  {
    if HoldsManifest(w, e) {
      var m := w.parse(e.file.bytes).m;
      SideloadSafeIff(m);
      ResolvesIff(w, e.name, m.binaryPath);
    }
  }

  /** The signature is checked at this visit: no marker, and no failure of these bytes still holds the dir back. */
  predicate Checked(w: World, fails: Failures, e: Entry)
  {
    && HoldsManifest(w, e) && !e.sideloadMarker
    && (e.name !in fails || fails[e.name].hash != w.hash(e.file.bytes) || e.checkedAt >= fails[e.name].nextRetry)
  }

  /** The record of a failure, in nanoseconds: of new bytes 2 s, and then twice the delay before, at most 300 s. */
  ghost predicate RecordedAt(fails: Failures, rec: Failure, dir: string, hash: string, now: int)
  {
    var again := dir in fails && fails[dir].hash == hash;
    && rec.hash == hash && rec.nextRetry == now + rec.backoff && rec.logged
    && rec.fails == (if again then fails[dir].fails + 1 else 1)
    && (rec.quarantined <==> (again && fails[dir].quarantined) || rec.fails >= 5)
    && rec.backoff == (if !again then 2000000000
                       else if fails[dir].backoff * 2 > 300000000000 then 300000000000
                       else fails[dir].backoff * 2)
  }

  /**
   * What a visit leaves on record: a failure if it checked and failed, nothing if
   * it checked and did not fail, and otherwise what was there.
   */
  lemma VisitRecords(w: World, fails: Failures, e: Entry)
    ensures var fails' := Visit(w, fails, e).0;
            && (forall dir :: dir != e.name ==>
                  (dir in fails' <==> dir in fails) && (dir in fails ==> fails'[dir] == fails[dir]))
            && if !Checked(w, fails, e) then fails' == fails
               else if w.signed(w.parse(e.file.bytes).m) && w.anchored(w.parse(e.file.bytes).m, e.pin)
               then e.name !in fails'
               else e.name in fails'
                    && RecordedAt(fails, fails'[e.name], e.name, w.hash(e.file.bytes), e.notedAt)
  {
  }

  // ---- what the throttle withholds ----

  /** The app would be admitted, but its manifest's record is in backoff. */
  predicate Withheld(w: World, fails: Failures, e: Entry)
  {
    VerifyAlways(w, e).Install? && !e.sideloadMarker && !Due(fails, e.name, w.hash(e.file.bytes), e.checkedAt)
  }

  /** Whatever the records say, one entry's decision differs from the verifying one exactly when it is withheld. */
  lemma VisitWithholds(w: World, fails: Failures, e: Entry)
    ensures Visit(w, fails, e).1 == if Withheld(w, fails, e) then Nothing else VerifyAlways(w, e)
  {
  }

  function NamesOf(entries: seq<Entry>): set<string>
  {
    if entries == [] then {} else NamesOf(entries[..|entries| - 1]) + {entries[|entries| - 1].name}
  }

  /** A directory listing holds each name once. */
  predicate DistinctNames(entries: seq<Entry>)
  {
    entries == [] ||
    (DistinctNames(entries[..|entries| - 1]) && entries[|entries| - 1].name !in NamesOf(entries[..|entries| - 1]))
  }

  /** A scan touches only the records of the dirs it visits. */
  lemma {:induction false} ScanElsewhere(w: World, fails: Failures, entries: seq<Entry>, dir: string)
    requires dir !in NamesOf(entries)
    ensures var fails' := ScanAll(w, fails, entries).0;
            (dir in fails' <==> dir in fails) && (dir in fails ==> fails'[dir] == fails[dir])
  {
    if entries != [] {
      ScanElsewhere(w, fails, entries[..|entries| - 1], dir);
    }
  }

  lemma WithheldLocally(w: World, fails: Failures, fails': Failures, e: Entry)
    requires (e.name in fails' <==> e.name in fails) && (e.name in fails ==> fails'[e.name] == fails[e.name])
    ensures Withheld(w, fails', e) <==> Withheld(w, fails, e)
  {
  }

  /** The entries that are not withheld. */
  function Shown(w: World, fails: Failures, entries: seq<Entry>): seq<Entry>
  {
    if entries == [] then []
    else
      var front, e := Shown(w, fails, entries[..|entries| - 1]), entries[|entries| - 1];
      if Withheld(w, fails, e) then front else front + [e]
  }

  lemma FullScanSnoc(w: World, entries: seq<Entry>, e: Entry)
    ensures FullScan(w, entries + [e]) == Add(FullScan(w, entries), VerifyAlways(w, e))
  {
    assert (entries + [e])[..|entries|] == entries;
  }

  /**
   * Whatever the pins and the records: a scan returns exactly what a scan that
   * verifies everything returns for the entries that are not withheld.
   */
  lemma {:induction false} ScanWithholdsExactly(w: World, fails: Failures, entries: seq<Entry>)
    requires DistinctNames(entries)
    ensures ScanAll(w, fails, entries).1 == FullScan(w, Shown(w, fails, entries))
  {
    if entries != [] {
      var front, e := entries[..|entries| - 1], entries[|entries| - 1];
      ScanWithholdsExactly(w, fails, front);
      ScanElsewhere(w, fails, front, e.name);
      var fails' := ScanAll(w, fails, front).0;
      WithheldLocally(w, fails, fails', e);
      VisitWithholds(w, fails', e);
      FullScanSnoc(w, Shown(w, fails, front), e);
    }
  }

  ghost predicate NoneWithheld(w: World, fails: Failures, entries: seq<Entry>)
  {
    entries == [] ||
    (NoneWithheld(w, fails, entries[..|entries| - 1]) && !Withheld(w, fails, entries[|entries| - 1]))
  }

  lemma {:induction false} ShownFindsFewer(w: World, fails: Failures, entries: seq<Entry>)
    ensures NoneWithheld(w, fails, entries) ==> Shown(w, fails, entries) == entries
    ensures |FullScan(w, Shown(w, fails, entries))| <= |FullScan(w, entries)|
    ensures !NoneWithheld(w, fails, entries) ==> |FullScan(w, Shown(w, fails, entries))| < |FullScan(w, entries)|
  {
    if entries != [] {
      var front, e := entries[..|entries| - 1], entries[|entries| - 1];
      ShownFindsFewer(w, fails, front);
      FullScanSnoc(w, Shown(w, fails, front), e);
      assert entries == front + [e];
    }
  }

  /** So the answer differs from the verifying one if and only if some entry is withheld. */
  lemma ScanDiffersIffWithheld(w: World, fails: Failures, entries: seq<Entry>)
    requires DistinctNames(entries)
    ensures ScanAll(w, fails, entries).1 == FullScan(w, entries) <==> NoneWithheld(w, fails, entries)
  {
    ScanWithholdsExactly(w, fails, entries);
    ShownFindsFewer(w, fails, entries);
  }

  // ---- what explains a failure record ----

  /** Visiting the entry was a failure to verify these bytes in this dir. */
  predicate FailedAt(w: World, e: Entry, dir: string, hash: string)
  {
    && e.name == dir && !e.sideloadMarker && ManifestOf(w, e).Parsed?
    && w.hash(e.file.bytes) == hash && !Trusted(w, ManifestOf(w, e).m, e.pin)
  }

  /** The failure the record was last noted for, and how long it holds the dir back. */
  predicate Explains(w: World, e: Entry, dir: string, rec: Failure)
  {
    FailedAt(w, e, dir, rec.hash) && rec.nextRetry <= e.notedAt + SIG_BACKOFF_MAX
  }

  ghost predicate ExplainedAt(w: World, seen: seq<Entry>, fails: Failures, dir: string)
  {
    dir in fails ==>
      fails[dir].backoff <= SIG_BACKOFF_MAX && exists i :: 0 <= i < |seen| && Explains(w, seen[i], dir, fails[dir])
  }

  /** Every record is explained by some entry visited so far. */
  ghost predicate Explained(w: World, seen: seq<Entry>, fails: Failures)
  {
    forall dir :: ExplainedAt(w, seen, fails, dir)
  }

  lemma NotedBackoff(fails: Failures, dir: string, hash: string, now: int)
    requires dir in fails ==> fails[dir].backoff <= SIG_BACKOFF_MAX
    ensures var rec := Noted(fails, dir, hash, now);
            rec.hash == hash && rec.backoff <= SIG_BACKOFF_MAX && rec.nextRetry == now + rec.backoff
  {
  }

  lemma VisitExplained(w: World, seen: seq<Entry>, fails: Failures, e: Entry)
    requires Explained(w, seen, fails)
    ensures Explained(w, seen + [e], Visit(w, fails, e).0)
  {
    var fails' := Visit(w, fails, e).0;
    forall dir ensures ExplainedAt(w, seen + [e], fails', dir) {
      assert ExplainedAt(w, seen, fails, dir);
      if dir in fails' {
        if dir in fails && fails'[dir] == fails[dir] {
          var i :| 0 <= i < |seen| && Explains(w, seen[i], dir, fails[dir]);
          assert Explains(w, (seen + [e])[i], dir, fails'[dir]);
        } else {
          NotedBackoff(fails, dir, w.hash(e.file.bytes), e.notedAt);
          assert Explains(w, (seen + [e])[|seen|], dir, fails'[dir]);
        }
      }
    }
  }

  /** A scan leaves only records that are explained by what was visited before or in it. */
  lemma {:induction false} ScanExplained(w: World, seen: seq<Entry>, fails: Failures, entries: seq<Entry>)
    requires Explained(w, seen, fails)
    ensures Explained(w, seen + entries, ScanAll(w, fails, entries).0)
  {
    if entries == [] {
      assert seen + entries == seen;
    } else {
      var front, e := entries[..|entries| - 1], entries[|entries| - 1];
      ScanExplained(w, seen, fails, front);
      VisitExplained(w, seen + front, ScanAll(w, fails, front).0, e);
      assert seen + entries == seen + front + [e];
    }
  }

  ghost predicate CollisionFree(w: World)
  {
    forall a, b :: w.hash(a) == w.hash(b) ==> a == b
  }

  /**
   * An entry is withheld only after its very bytes failed in its dir under another
   * pin, and for less than 300 s after that failure was noted.
   */
  lemma WithheldAfterPinChange(w: World, seen: seq<Entry>, fails: Failures, e: Entry) returns (i: nat)
    requires CollisionFree(w) && Explained(w, seen, fails) && Withheld(w, fails, e)
    ensures i < |seen| && seen[i].name == e.name && seen[i].file == e.file && !seen[i].sideloadMarker
    ensures seen[i].pin != e.pin
    ensures !Trusted(w, ManifestOf(w, e).m, seen[i].pin) && Trusted(w, ManifestOf(w, e).m, e.pin)
    ensures e.checkedAt < seen[i].notedAt + SIG_BACKOFF_MAX
  {
    assert ExplainedAt(w, seen, fails, e.name);
    i :| 0 <= i < |seen| && Explains(w, seen[i], e.name, fails[e.name]);
    assert seen[i].file.bytes == e.file.bytes;
  }

  // ---- with fixed pins ----

  /** The catalogue's pins: an app it does not know has the empty one. */
  type Pins = map<string, string>

  function PinOf(pins: Pins, id: string): string
  {
    if id in pins then pins[id] else ""
  }

  /** Every visit reads the same catalogue. */
  ghost predicate AllPinned(pins: Pins, entries: seq<Entry>)
  {
    forall i :: 0 <= i < |entries| ==> entries[i].pin == PinOf(pins, entries[i].name)
  }

  /** The bytes parse to a manifest that verifies in this dir. */
  predicate Trustworthy(w: World, pins: Pins, dir: string, bytes: string)
  {
    w.parse(bytes).Parsed? && Trusted(w, w.parse(bytes).m, PinOf(pins, dir))
  }

  /** A record is only ever kept for manifests that do not verify. */
  ghost predicate OnlyUntrusted(w: World, pins: Pins, fails: Failures)
  {
    forall dir, bytes :: dir in fails && fails[dir].hash == w.hash(bytes) ==> !Trustworthy(w, pins, dir, bytes)
  }

  /** Noting a failure of bytes that do not verify keeps the records sound. */
  lemma NotedKeepsUntrusted(w: World, pins: Pins, fails: Failures, dir: string, bytes: string, now: int)
    requires CollisionFree(w) && OnlyUntrusted(w, pins, fails) && !Trustworthy(w, pins, dir, bytes)
    ensures OnlyUntrusted(w, pins, fails[dir := Noted(fails, dir, w.hash(bytes), now)])
  {
    var fails' := fails[dir := Noted(fails, dir, w.hash(bytes), now)];
    forall d, b | d in fails' && fails'[d].hash == w.hash(b) ensures !Trustworthy(w, pins, d, b) {
      if d != dir {
        assert fails[d].hash == w.hash(b);
      }
    }
  }

  lemma ClearedKeepsUntrusted(w: World, pins: Pins, fails: Failures, dir: string)
    requires OnlyUntrusted(w, pins, fails)
    ensures OnlyUntrusted(w, pins, fails - {dir})
  {
    forall d, b | d in fails - {dir} && (fails - {dir})[d].hash == w.hash(b) ensures !Trustworthy(w, pins, d, b) {
      assert fails[d].hash == w.hash(b);
    }
  }

  lemma VisitKeepsUntrusted(w: World, pins: Pins, fails: Failures, e: Entry)
    requires CollisionFree(w) && OnlyUntrusted(w, pins, fails) && e.pin == PinOf(pins, e.name)
    ensures OnlyUntrusted(w, pins, Visit(w, fails, e).0)
    ensures Visit(w, fails, e).1 == VerifyAlways(w, e)
  {
    VisitWithholds(w, fails, e);
    if ManifestOf(w, e).Parsed? && !e.sideloadMarker {
      if !Trustworthy(w, pins, e.name, e.file.bytes) {
        NotedKeepsUntrusted(w, pins, fails, e.name, e.file.bytes, e.notedAt);
      } else {
        ClearedKeepsUntrusted(w, pins, fails, e.name);
      }
    }
  }

  /** One scan under fixed pins: the negative cache does not change the answer, and stays sound. */
  lemma {:induction false} ScanIsFullScan(w: World, pins: Pins, fails: Failures, entries: seq<Entry>)
    requires CollisionFree(w) && OnlyUntrusted(w, pins, fails) && AllPinned(pins, entries)
    ensures ScanAll(w, fails, entries).1 == FullScan(w, entries)
    ensures OnlyUntrusted(w, pins, ScanAll(w, fails, entries).0)
  {
    if entries != [] {
      var front := entries[..|entries| - 1];
      ScanIsFullScan(w, pins, fails, front);
      VisitKeepsUntrusted(w, pins, ScanAll(w, fails, front).0, entries[|entries| - 1]);
    }
  }

  // ---- what a scan returns ----

  function IdsOf(apps: seq<App>): set<string>
  {
    if apps == [] then {} else IdsOf(apps[..|apps| - 1]) + {apps[|apps| - 1].manifest.id}
  }

  predicate DistinctIds(apps: seq<App>)
  {
    apps == [] ||
    (DistinctIds(apps[..|apps| - 1]) && apps[|apps| - 1].manifest.id !in IdsOf(apps[..|apps| - 1]))
  }

  lemma IdsSnoc(apps: seq<App>, a: App)
    ensures IdsOf(apps + [a]) == IdsOf(apps) + {a.manifest.id}
    ensures DistinctIds(apps + [a]) <==> DistinctIds(apps) && a.manifest.id !in IdsOf(apps)
  {
    assert (apps + [a])[..|apps|] == apps;
  }

  /** Some entry visited is one a scan that verifies everything adopts the app from. */
  ghost predicate Adopted(w: World, seen: seq<Entry>, a: App)
  {
    exists i :: 0 <= i < |seen| && VerifyAlways(w, seen[i]) == Install(a)
  }

  ghost predicate AllAdopted(w: World, seen: seq<Entry>, apps: seq<App>)
  {
    apps == [] || (AllAdopted(w, seen, apps[..|apps| - 1]) && Adopted(w, seen, apps[|apps| - 1]))
  }

  /** Visiting more entries, before or after, leaves an app adopted. */
  lemma AdoptedStays(w: World, before: seq<Entry>, seen: seq<Entry>, after: seq<Entry>, a: App)
    requires Adopted(w, seen, a)
    ensures Adopted(w, before + seen + after, a)
  {
    var i :| 0 <= i < |seen| && VerifyAlways(w, seen[i]) == Install(a);
    assert (before + seen + after)[|before| + i] == seen[i];
  }

  lemma AdoptedLater(w: World, seen: seq<Entry>, more: seq<Entry>, a: App)
    requires Adopted(w, seen, a)
    ensures Adopted(w, seen + more, a)
  {
    var i :| 0 <= i < |seen| && VerifyAlways(w, seen[i]) == Install(a);
    assert (seen + more)[i] == seen[i];
  }

  lemma {:induction false} AllAdoptedStay(w: World, before: seq<Entry>, seen: seq<Entry>, after: seq<Entry>,
                                          apps: seq<App>)
    requires AllAdopted(w, seen, apps)
    ensures AllAdopted(w, before + seen + after, apps)
  {
    if apps != [] {
      AllAdoptedStay(w, before, seen, after, apps[..|apps| - 1]);
      AdoptedStays(w, before, seen, after, apps[|apps| - 1]);
    }
  }

  /** The app's binary lies at or below its directory, as component lists. */
  ghost predicate BinaryInside(w: World, a: App)
  {
    exists end :: Paths.AbsComps(w.cwd, a.dir) <= end && a.binaryPath == Paths.Render(end)
  }

  /**
   * An app adopted from an entry is the one its manifest describes, valid and in
   * the dir named after it; a sideloaded one carried its marker at that visit and
   * passed the sideload policy, any other verified under the pin the catalogue
   * showed at that visit; and its binary lies inside its dir.
   */
  lemma AdoptedMeans(w: World, e: Entry, a: App)
    requires VerifyAlways(w, e) == Install(a) && Paths.AllProper(w.cwd)
    ensures ManifestOf(w, e) == Parsed(a.manifest) && w.valid(a.manifest)
    ensures e.name == a.manifest.id && a.dir == DirOf(w, a.manifest.id) && BinaryInside(w, a)
    ensures a.sideloaded == e.sideloadMarker
    ensures if a.sideloaded then SideloadSafe(a.manifest) else Trusted(w, a.manifest, e.pin)
  {
    var end := Paths.ResolvedInside(w.cwd, DirOf(w, e.name), a.manifest.binaryPath);
  }

  lemma VisitFinds(w: World, fails: Failures, e: Entry)
    ensures var f := Visit(w, fails, e).1;
            f.Install? ==> f.app.manifest.id == e.name && VerifyAlways(w, e) == f
  {
    VisitWithholds(w, fails, e);
  }

  lemma AdoptedSnoc(w: World, seen: seq<Entry>, apps: seq<App>, a: App)
    requires AllAdopted(w, seen, apps) && Adopted(w, seen, a)
    ensures AllAdopted(w, seen, apps + [a])
  {
    assert (apps + [a])[..|apps|] == apps;
  }

  /** A scan returns each app id once. */
  lemma {:induction false} ScanReturnsDistinct(w: World, fails: Failures, entries: seq<Entry>)
    requires DistinctNames(entries)
    ensures DistinctIds(ScanAll(w, fails, entries).1)
    ensures IdsOf(ScanAll(w, fails, entries).1) <= NamesOf(entries)
  {
    if entries != [] {
      var front := entries[..|entries| - 1];
      ScanReturnsDistinct(w, fails, front);
      var (fails', apps) := ScanAll(w, fails, front);
      VisitFinds(w, fails', entries[|entries| - 1]);
      var f := Visit(w, fails', entries[|entries| - 1]).1;
      if f.Install? {
        IdsSnoc(apps, f.app);
      }
    }
  }

  /** Every app a scan returns is adopted from an entry it visits. */
  lemma {:induction false} ScanAdopts(w: World, fails: Failures, entries: seq<Entry>)
    ensures AllAdopted(w, entries, ScanAll(w, fails, entries).1)
  {
    if entries != [] {
      var front, e := entries[..|entries| - 1], entries[|entries| - 1];
      ScanAdopts(w, fails, front);
      var (fails', apps) := ScanAll(w, fails, front);
      AllAdoptedStay(w, [], front, [e], apps);
      assert [] + front + [e] == entries;
      VisitFinds(w, fails', e);
      var f := Visit(w, fails', e).1;
      if f.Install? {
        assert VerifyAlways(w, entries[|entries| - 1]) == Install(f.app);
        AdoptedSnoc(w, entries, apps, f.app);
      }
    }
  }
}
