/**
 * pkg/manifest: grants.go and sideload.go, over the manifest fields they read,
 * and the broker gate of plugin/appstore/supervisor.go that relies on them.
 */
module Manifests {
  import opened Text
  import Paths

  datatype Grant = Grant(cap: string, target: string, conditional: bool)

  /** A manifest. Lists whose entries the policy only counts hold opaque text. */
  datatype Manifest = Manifest(
    id: string, appVersion: string, binaryPath: string, binarySHA256: string,
    exposes: seq<string>, grants: seq<Grant>, protection: string,
    affiliates: seq<string>, depends: seq<string>, extends_: seq<string>, dynamicExtends: seq<string>)

  // ---- grants ----

  /** "*", the exact target, or "<prefix>.*". */
  predicate MatchGrantTarget(pattern: string, target: string)
  {
    if pattern == "*" then true
    else if pattern == target then true
    else if HasSuffix(pattern, ".*") then HasPrefix(target, pattern[..|pattern| - 1])
    else false
  }

  /** Some grant has the capability and matches the target. */
  predicate Granted(m: Manifest, cap: string, target: string)
  {
    exists i :: 0 <= i < |m.grants| && m.grants[i].cap == cap && MatchGrantTarget(m.grants[i].target, target)
  }

  method HasGrant(m: Manifest, cap: string, target: string) returns (found: bool)
    ensures found == Granted(m, cap, target)
  {
    for i := 0 to |m.grants|
      invariant forall j :: 0 <= j < i ==> !(m.grants[j].cap == cap && MatchGrantTarget(m.grants[j].target, target))
    {
      if m.grants[i].cap == cap && MatchGrantTarget(m.grants[i].target, target) {
        return true;
      }
    }
    return false;
  }

  method ExposesMethod(m: Manifest, name: string) returns (found: bool)
    ensures found == (name in m.exposes)
  {
    for i := 0 to |m.exposes|
      invariant name !in m.exposes[..i]
    {
      if m.exposes[i] == name {
        return true;
      }
    }
    return false;
  }

  /** A wildcard grant reaches the methods of its own prefix, and stops at the dot. */
  lemma WildcardMeaning(prefix: string, target: string)
    ensures MatchGrantTarget(prefix + ".*", target) <==>
      target == prefix + ".*" || HasPrefix(target, prefix + ".")
  {
    var pattern := prefix + ".*";
    assert pattern[|pattern| - 2..] == ".*";
    assert pattern[..|pattern| - 1] == prefix + ".";
    assert pattern[|pattern| - 2] == '.';
  }

  /** What a pattern reaches: everything, exactly itself, or everything under a prefix and its dot. */
  ghost predicate Reaches(pattern: string, target: string)
  {
    || pattern == "*"
    || pattern == target
    || exists prefix :: pattern == prefix + ".*" && HasPrefix(target, prefix + ".")
  }

  /** The pattern test is exactly that, for every pattern and target. */
  lemma MatchIff(pattern: string, target: string)
    ensures MatchGrantTarget(pattern, target) <==> Reaches(pattern, target)
  {
    if HasSuffix(pattern, ".*") {
      var prefix := pattern[..|pattern| - 2];
      assert pattern == prefix + ".*";
      WildcardMeaning(prefix, target);
    }
    if exists prefix :: pattern == prefix + ".*" && HasPrefix(target, prefix + ".") {
      var prefix :| pattern == prefix + ".*" && HasPrefix(target, prefix + ".");
      WildcardMeaning(prefix, target);
    }
  }

  // ---- sideload policy ----

  const SIDELOAD_ALLOWED_CAPS: set<string> := {"audit.log", "fs.read", "fs.write"}

  /** The target points inside "$APP/". */
  predicate IsAppLocalTarget(target: string)
  {
    var t := TrimSpace(target);
    HasPrefix(t, "$APP/") &&
    var rest := t[5..];
    rest != "" && !Contains(rest, "..") && !HasPrefix(rest, "/")
  }

  predicate GrantSafe(g: Grant)
  {
    && g.cap in SIDELOAD_ALLOWED_CAPS
    && (g.cap == "fs.read" || g.cap == "fs.write" ==> IsAppLocalTarget(g.target))
    && !g.conditional
  }

  /** Every declared surface of the manifest is on the allow-list. */
  predicate SideloadSafe(m: Manifest)
  {
    && m.protection != "guarded"
    && m.extends_ == [] && m.dynamicExtends == [] && m.affiliates == [] && m.depends == []
    && forall i :: 0 <= i < |m.grants| ==> GrantSafe(m.grants[i])
  }

  /** A file target that names something under "$APP/": no further slash first, and no two dots in a row. */
  predicate UnderApp(target: string)
  {
    var t := TrimSpace(target);
    |t| > 5 && t[..5] == "$APP/" && t[5] != '/' && forall k :: 5 <= k < |t| - 1 ==> !(t[k] == '.' && t[k + 1] == '.')
  }

  lemma LocalIff(target: string)
    ensures IsAppLocalTarget(target) <==> UnderApp(target)
  {
    var t := TrimSpace(target);
    if |t| > 5 && t[..5] == "$APP/" {
      var rest := t[5..];
      forall k | 0 <= k < |rest| - 1 ensures HasPrefix(rest[k..], "..") <==> t[k + 5] == '.' && t[k + 6] == '.' {
        assert rest[k..][..2] == [t[k + 5], t[k + 6]];
      }
      if Contains(rest, "..") {
        var k :| 0 <= k <= |rest| && HasPrefix(rest[k..], "..");
        assert t[k + 5] == '.' && t[k + 6] == '.';
      }
      if exists k :: 5 <= k < |t| - 1 && t[k] == '.' && t[k + 1] == '.' {
        var k :| 5 <= k < |t| - 1 && t[k] == '.' && t[k + 1] == '.';
        assert HasPrefix(rest[k - 5..], "..");
      }
      assert HasPrefix(rest, "/") <==> rest[0] == '/' by {
        assert rest[..1] == [rest[0]];
      }
    }
  }

  /** The capabilities a sideloaded app may ask for, unconditionally; files only under its own directory. */
  ghost predicate HarmlessGrant(g: Grant)
  {
    !g.conditional && (g.cap == "audit.log" || ((g.cap == "fs.read" || g.cap == "fs.write") && UnderApp(g.target)))
  }

  lemma GrantSafeIff(g: Grant)
    ensures GrantSafe(g) <==> HarmlessGrant(g)
  {
    LocalIff(g.target);
  }

  datatype ManifestRef = NilManifest | Of(m: Manifest)

  datatype Verdict =
    | Fits
    | NoManifest | GuardedProtection | ExtendsDeclared | DynamicExtendsDeclared | AffiliatesDeclared | DependsDeclared
    | GrantRefused(index: nat)

  /** Nothing but harmless grants is declared. */
  ghost predicate Harmless(m: Manifest)
  {
    && m.protection != "guarded"
    && |m.extends_| == 0 && |m.dynamicExtends| == 0 && |m.affiliates| == 0 && |m.depends| == 0
    && forall i :: 0 <= i < |m.grants| ==> HarmlessGrant(m.grants[i])
  }

  lemma SideloadSafeIff(m: Manifest)
    ensures SideloadSafe(m) <==> Harmless(m)
  {
    forall i | 0 <= i < |m.grants| ensures GrantSafe(m.grants[i]) <==> HarmlessGrant(m.grants[i]) {
      GrantSafeIff(m.grants[i]);
    }
  }

  /** Accepts exactly the harmless manifests; otherwise names the first violation, of grants the first unsafe one. */
  method EnforceSideloadPolicy(ref: ManifestRef) returns (v: Verdict)
    ensures v.Fits? <==> ref.Of? && SideloadSafe(ref.m)
    ensures v.Fits? <==> ref.Of? && Harmless(ref.m)
    ensures v.NoManifest? <==> ref.NilManifest?
    ensures v.GuardedProtection? <==> ref.Of? && ref.m.protection == "guarded"
    ensures v.GrantRefused? ==>
      && ref.Of? && v.index < |ref.m.grants| && !GrantSafe(ref.m.grants[v.index])
      && forall j :: 0 <= j < v.index ==> GrantSafe(ref.m.grants[j])
  {
    if ref.NilManifest? {
      return NoManifest;
    }
    var m := ref.m;
    SideloadSafeIff(m);
    if m.protection == "guarded" {
      return GuardedProtection;
    }
    if m.extends_ != [] {
      return ExtendsDeclared;
    }
    if m.dynamicExtends != [] {
      return DynamicExtendsDeclared;
    }
    if m.affiliates != [] {
      return AffiliatesDeclared;
    }
    if m.depends != [] {
      return DependsDeclared;
    }
    for i := 0 to |m.grants|
      invariant forall j :: 0 <= j < i ==> GrantSafe(m.grants[j])
    {
      var g := m.grants[i];
      if g.cap !in SIDELOAD_ALLOWED_CAPS {
        return GrantRefused(i);
      }
      if (g.cap == "fs.read" || g.cap == "fs.write") && !IsAppLocalTarget(g.target) {
        return GrantRefused(i);
      }
      if g.conditional {
        return GrantRefused(i);
      }
    }
    return Fits;
  }

  /** A safe manifest holds no grant outside the three allowed capabilities, cross-app calls included. */
  lemma SafeHasNoOtherGrant(m: Manifest, cap: string, target: string)
    requires SideloadSafe(m) && cap !in SIDELOAD_ALLOWED_CAPS
    ensures !Granted(m, cap, target)
  {
    forall i | 0 <= i < |m.grants| ensures m.grants[i].cap != cap {
      assert GrantSafe(m.grants[i]);
    }
  }

  /** A file target the policy accepts leads, from any app directory, to a place at or below it. */
  lemma LocalTargetStaysInside(target: string, dir: seq<string>)
    requires IsAppLocalTarget(target)
    ensures dir <= Paths.Walk(dir, Split(TrimSpace(target)[5..], '/'))
  {
    var rest := TrimSpace(target)[5..];
    if ".." in Split(rest, '/') {
      Paths.DotsShow(rest);
    }
    Paths.NoDotsStaysInside(dir, Split(rest, '/'));
  }

  // ---- the broker gate ----

  /** An installed app as the scan records it. */
  datatype App = App(manifest: Manifest, dir: string, binaryPath: string, sideloaded: bool)

  datatype Origin = NoOrigin | Attested(node: string)

  datatype Gate = AppNotInstalled | MethodNotExposed | GrantMissing | AppNotReady | Dial(app: App, origin: Origin)

  /**
   * callFrom up to the dial: the snapshot of both apps, then the gates in order.
   * `ready` is whether the app was ready, or became so within the wait.
   */
  function CallGate(installed: map<string, App>, ready: bool, callerID: string, appID: string, name: string,
                    origin: Origin): Gate
  {
    var origin' := if callerID != "" then NoOrigin else origin;
    if appID !in installed then AppNotInstalled
    else if name !in installed[appID].manifest.exposes then MethodNotExposed
    else if callerID != "" && callerID !in installed then GrantMissing
    else if callerID != "" && !Granted(installed[callerID].manifest, "ipc.call", appID + "." + name) then GrantMissing
    else if !ready then AppNotReady
    else Dial(installed[appID], origin')
  }

  /** The caller may call the target: the daemon itself, or an installed app with a grant that reaches it. */
  ghost predicate MayCall(installed: map<string, App>, callerID: string, target: string)
  {
    callerID == "" ||
    (callerID in installed && HoldsCallGrant(installed[callerID].manifest, target))
  }

  ghost predicate HoldsCallGrant(m: Manifest, target: string)
  {
    exists i :: 0 <= i < |m.grants| && m.grants[i].cap == "ipc.call" && Reaches(m.grants[i].target, target)
  }

  lemma HoldsIff(m: Manifest, target: string)
    ensures Granted(m, "ipc.call", target) <==> HoldsCallGrant(m, target)
  {
    forall i | 0 <= i < |m.grants|
      ensures MatchGrantTarget(m.grants[i].target, target) <==> Reaches(m.grants[i].target, target)
    {
      MatchIff(m.grants[i].target, target);
    }
  }

  /**
   * What is dialed and what is refused, and by which gate: the first of these that
   * fails, in this order. The target is installed; it exposes the method; the
   * caller may call it; it is ready.
   */
  ghost predicate FirstFailing(g: Gate, installed: map<string, App>, ready: bool, callerID: string, appID: string,
                               name: string, origin: Origin)
  {
    if appID !in installed then g == AppNotInstalled
    else if name !in installed[appID].manifest.exposes then g == MethodNotExposed
    else if !MayCall(installed, callerID, appID + "." + name) then g == GrantMissing
    else if !ready then g == AppNotReady
    else g == Dial(installed[appID], if callerID == "" then origin else NoOrigin)
  }

  /** The broker's gates are those, in that order. */
  lemma GateIsFirstFailing(installed: map<string, App>, ready: bool, callerID: string, appID: string, name: string,
                           origin: Origin)
    ensures FirstFailing(CallGate(installed, ready, callerID, appID, name, origin),
                         installed, ready, callerID, appID, name, origin)
  {
    if callerID in installed {
      HoldsIff(installed[callerID].manifest, appID + "." + name);
    }
  }

  /** A cross-app call by a sideloaded app that passed the policy is never dialed, whatever the target and method. */
  lemma SideloadedNeverDials(installed: map<string, App>, ready: bool, callerID: string, appID: string, name: string,
                             origin: Origin)
    requires callerID != "" && callerID in installed && SideloadSafe(installed[callerID].manifest)
    ensures !CallGate(installed, ready, callerID, appID, name, origin).Dial?
  {
    SafeHasNoOtherGrant(installed[callerID].manifest, "ipc.call", appID + "." + name);
  }
}
