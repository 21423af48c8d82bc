# App store supervisor, hooks, limiters and IPC: a Dafny model

This project models the stateful core of the app store and proves what it keeps over whole runs:

- **the app supervisor**: the scan of the install root with the signature throttle in front of it (`Scan`, `SignatureThrottle`), the table of installed apps with its cancel handles and the rescan tick (`Supervisor`, `SupervisorLinks`, `SupervisorEffects`, `SupervisorPasses`), whole runs (`SupervisorRuns`) the object that carries them out (`SupervisorDaemon`) and runs of a concrete world (`SupervisorExamples`), the supervise loop (`SuperviseLoop`, `Backoff`) with its crash window (`CrashLoop`), the version order and its relation to Semantic Versioning (`Versions`, `Semver`), audit-log rotation (`AuditLog`) and path containment (`Paths`);
- **hooks**: the registry with its re-sort and in-place filters (`HookRegistry`), the per-app cap (`RegistrationCap`), the chain with its provenance trail (`HookChain`), `Wrap` (`HookWrap`), and what the rate limiter means for the chain (`HookBudget`);
- **rate limiters** (`TokenBucket`, `NodeLimiter`);
- **IPC** (`Ipc`): frames on a byte stream and the `Serve` loop;
- **manifests** (`Manifests`): sideload policy, grants and the broker gate.

`Seqs` and `Text` hold the sequence and string operations the others share.

Disk contents, catalogue pins, clock readings, process exits, hook and handler answers, context cancellation, manifest validity, hashes and signature checks are inputs: every statement is for all of them. Steps that the source takes under one lock, or in the single rescan goroutine, are atomic. Each method that changes state is proved against a specification function or a whole-history rule, and the laws are lemmas about those.

## What is proved, and what is not true of the code

The main results:

- In every run of a start, rescan ticks and loop events, every app always has at most one live loop, its handle is the one stored, and the handles' ids are the installed ids, if and only if the run only resumes apps that have no live loop, and never in the tick that starts them (`RunInStepIff`, `TickInStepIff`, `AtMostOneLive`).
- With fixed pins the signature throttle is invisible: a run with it and a run that verifies every manifest at every tick pass through the same states (`ThrottleInvisible`).
- In every reachable state every installed app is one that the run found at some visit: valid, with its binary inside its directory, and verified under the pin the catalogue showed at that visit, or, with its sideload marker there, within the sideload policy (`InstalledAreVerified`); sideloaded apps never dial another app; versions never decrease while an app stays installed; a second rescan of the same scan result is a no-op.
- The two limiters, the crash window and the registry answer exactly as rules over the whole history do, and hook dispatches of an app keep to the rate however chains overlap (`DispatchesBounded`).
- The supervise loop on a script of turns is a function of the script; from a clean record it is suspended for crash-looping at its sixth exit or never (`SixthExitOrNever`), and a process that keeps exiting is suspended exactly when its first six exits take under 29 seconds beyond the restart waits of 1 + 2 + 4 + 8 + 16 seconds (`CrashBudget`).
- `Serve` answers every request once, in order, with the handler's answer, and returns nil exactly on a stated set of streams.
- What each operation does is also stated apart from the definitions the proofs use: every pass of the rescan by versions, hashes, dirs and markers (`SupervisorEffects`), every visit of a scan by what is on disk (`AdoptionIff`, `VisitRecords`), removals by how often each hook is left (`HooksAfterUnregisterOne`), chains by what reaches the next hook (`ChainPassesOn`, `WrapCalls`), replies field by field (`OwedReplies`), the supervise loop by its timeline (`WatchTimeline`), and the broker by the first gate that fails (`GateIsFirstFailing`).

Where the code does less than its comments, its design or a standard say, the code is modelled, an input is given, and the exact condition is proved:

- **`.resume` of an app that runs.** `rescanForResume` forgets the cancel handle without calling it, and its comment assumes the old loop has returned. If it has not, the app gets a second live loop (`ResumingLiveAppDoubles`). The same happens although the old loop has returned, when one tick finds both an upgrade and a resume marker: `rescanForNew` starts a loop and `rescanForResume` drops its handle and starts another (`UpgradeAndResumeDoubles`). `TickInStepIff` says exactly when, from the state before the tick: some resumed app has a live loop, or is new, rebuilt or upgraded in the same tick. `SampleResume` and `SampleUpgrade` are such runs.
- **A cut right after a header.** `ReadFrame`'s comment promises an error that is not `io.EOF` for every partial frame. A stream cut right after a complete in-range header yields a wrapped `io.EOF`, and `Serve` returns nil (`CutAfterHeaderLooksClean`); `ServeReturnsNilIff` says exactly when `Serve` returns nil.
- **The cap of 32 hooks per app.** The count and the insertion are two critical sections. With k overlapping calls an app can reach 31 + k hooks and no more (`CapReached`, `CapUnderOverlap`, `CapExceeded`); the documented cap holds in every interleaving exactly when the app's calls never overlap (`DocumentedCapIffSerialized`).
- **Details left by the core.** Scratch details that the core leaves behind are stamped on the first post hook if it hands them on: when it returns nothing, returns the map it was given (`HandedOnDetailsAreStamped`), or adds to what it finds (`AddedDetailsAreStamped`). Every stamp's details come only from its own hook if and only if there is no post hook, or the first one leaves no entry that the core left (`WrapStampsOwn`); whatever the hooks answer, if and only if the core left none or there is no post hook (`OwnWhateverHooksAnswer`). A hook's own details are the entries it leaves that it was not given.
- **Prerelease order.** Prereleases are compared as text and not by section 11, item 4 of Semantic Versioning 2.0.0: 9 is put above 10 (`NineAboveTen`) and a.b above a-b (`DottedAboveHyphened`). `TextAgreesIff` gives the exact condition on the first identifiers that differ: neither is continued by a hyphen in the other while more follow it; of two numbers the one with fewer digits comes first as text, and a number comes first as text before anything else.
- **Large components.** A component that does not fit an int reads as zero (`ComponentFits`), so an upgrade to a larger major is refused as a downgrade (`OverflowIsDowngrade`). `AgreesIff` is the exact condition for whole versions; where components that do not fit decide, it compares what the later parts are read as.
- **The root directory.** With the root as its base, `resolveUnder` accepts only paths that end at the root itself (`ResolveUnderRoot`).
- **When the throttle shows.** Pins are read afresh on every scan. If a pin changes after a failure, the scan's answer can differ from the verifying one (`PinChangeUnseen`, and `SampleThrottle` in a concrete world), exactly while some trusted app's record is in backoff (`ScanDiffersIffWithheld`), and then for less than 300 s after the same bytes failed under another pin (`ThrottleShowsBriefly`).

## Model

| member | source | states |
|---|---|---|
| `Seqs.CompactInPlace` | pkg/extend/extend.go:219-227 | the in-place `list[:0]` filter leaves exactly the accepted elements, in order, in the front of the slice |
| `TokenBucket.RateLimiter.constructor` | pkg/extend/ratelimit.go:28-35 | a limiter starts with no buckets and an empty history |
| `TokenBucket.RateLimiter.Refill` | pkg/extend/ratelimit.go:48-54 | a refill earns rate times the elapsed time, capped at the burst, and time never runs back |
| `TokenBucket.RateLimiter.Allow` | pkg/extend/ratelimit.go:39-60 | a call is admitted if and only if, for every earlier-or-equal call j of its key, admissions since j plus one fit burst + rate × (now − t_j) |
| `TokenBucket.LevelDecides` | pkg/extend/ratelimit.go:48-59 | on a bucket that represents a history, the refilled level reaches one exactly when the whole-history rule admits |
| `TokenBucket.CallKeepsRepresents` | pkg/extend/ratelimit.go:48-59 | one call, admitted or refused, keeps the bucket level the least slack of all open budgets |
| `TokenBucket.LaterCall` | pkg/extend/ratelimit.go:48-59 | a later call of a key is admitted exactly by the whole-history rule, and leaves a bucket that represents the longer history |
| `TokenBucket.FirstCall` | pkg/extend/ratelimit.go:43-59 | so is its first call, on a full bucket |
| `TokenBucket.TracksAfter` | pkg/extend/ratelimit.go:39-60 | when its verdict follows the rule, the key's new bucket tracks its longer history |
| `TokenBucket.AllTrackAfter` | pkg/extend/ratelimit.go:43-47 | a call of one key leaves every other key's bucket tracking its own history |
| `TokenBucket.AdmissionsBounded` | pkg/extend/ratelimit.go:26-60 | admissions between any two calls of a key are at most burst + rate × the time between them |
| `NodeLimiter.Limiter.constructor` | pkg/appkit/limiter.go:27-34 | a limiter starts empty, with the zero time as its last sweep |
| `NodeLimiter.Limiter.Allow` | pkg/appkit/limiter.go:39-52 | with a clock that does not go back, a request is admitted if and only if fewer than max admissions of the node's whole history lie in [t − window, t], whatever was swept or pruned; beyond the sweep only the node's own hits change |
| `NodeLimiter.Limiter.Sweep` | pkg/appkit/limiter.go:56-67 | at most once per window, exactly the nodes with no hit at or after the cutoff are forgotten |
| `NodeLimiter.PruneBefore` | pkg/appkit/limiter.go:72-78 | the loop drops exactly the leading hits before the cutoff |
| `NodeLimiter.PrunedSummarizes` | pkg/appkit/limiter.go:69-78 | on an ascending list that drops every hit before the cutoff, and changes no count from the cutoff on |
| `NodeLimiter.SweptCovers` | pkg/appkit/limiter.go:54-67 | swept or not, the stored hits still stand for every node's admissions |
| `NodeLimiter.SweepsOncePerWindow` | pkg/appkit/limiter.go:56-67 | a sweep is due once a window has passed, and then keeps exactly the nodes whose last hit lies in the window ending now |
| `NodeLimiter.WindowNeverExceeded` | pkg/appkit/limiter.go:25-52 | no closed interval of one window length ever holds more than max admissions of a node |
| `Backoff.RampIsCappedDoubling` | plugin/appstore/supervisor.go:978-984 | the k-th delay of any ramp is min(start × 2^k, max) |
| `CrashLoop.Prune` | plugin/appstore/supervisor.go:247-254 | the in-place filter keeps exactly the crashes after the cutoff |
| `CrashLoop.CrashOnto` | plugin/appstore/supervisor.go:245-258 | one more crash keeps the record a summary of the whole history, sticky suspension included |
| `CrashLoop.TracksCrash` | plugin/appstore/supervisor.go:245-258 | pruning then appending on a record that tracks a history tracks the longer history |
| `CrashLoop.CountAfter` | plugin/appstore/supervisor.go:247-257 | at least k crashes are left after pruning exactly when the k-th from the end is after the cutoff |
| `CrashLoop.FewInAnyWindow` | plugin/appstore/supervisor.go:216-222 | an app that is not suspended never has more than five crashes in any window |
| `CrashLoop.LoopingIff` | plugin/appstore/supervisor.go:216-222 | the rule in numbers: a sixth crash within less than 60 s of the first of the six |
| `CrashLoop.CrashTable.constructor` | plugin/appstore/supervisor.go:192-210 | no app has a crash record at first |
| `CrashLoop.CrashTable.RecordCrash` | plugin/appstore/supervisor.go:237-259 | the app is suspended if and only if it was marked or some six consecutive crashes since its record was cleared span less than 60 s; other apps are untouched |
| `CrashLoop.CrashTable.MarkSuspended` | plugin/appstore/supervisor.go:264-273 | the app is suspended whatever its crashes, and no history changes |
| `CrashLoop.CrashTable.IsSuspended` | plugin/appstore/supervisor.go:276-281 | the stored bit answers the whole-history rule |
| `CrashLoop.CrashTable.Clear` | plugin/appstore/supervisor.go:876-881 | a cleared record starts a new history |
| `SuperviseLoop.RestartRampFloor` | plugin/appstore/supervisor.go:978-984 | the restart waits are at least 2, 4, 8 and 16 s, then 30 s |
| `SuperviseLoop.SpacedBursts` | plugin/appstore/supervisor.go:1018-1100 | exits spaced by the restart waits loop if and only if the first six span less than 60 s |
| `SuperviseLoop.SuperviseOne` | plugin/appstore/supervisor.go:987-1101 | whatever is on the record at the start, the loop ends where the turns of its script lead, after as many of them, with exactly its exits added to the record |
| `SuperviseLoop.WatchFollows` | plugin/appstore/supervisor.go:1018-1100 | of any script the loop records exactly the exits that are neither cancelled nor reinstalls, goes on until a turn cancels it, spends the restart budget or is the tenth verification failure in a row, and stops there |
| `SuperviseLoop.WatchTimeline` | plugin/appstore/supervisor.go:1018-1100 | the exits are recorded exactly when the script puts them: restart waits of 1, 2, 4, 8, 16 and then 30 s by the crashes since the start or the last reinstall, one rescan and a second after a reinstall, and the same ramp for failed verifications in a row |
| `SuperviseLoop.WatchEnds` | plugin/appstore/supervisor.go:1025-1100 | what each turn ends the loop with, or that it goes on, told from the script |
| `SuperviseLoop.WatchIsJudged` | plugin/appstore/supervisor.go:1078-1093 | it is suspended for crash-looping at the first exit after which the app was marked or six consecutive crashes, those on record before included, span less than 60 s |
| `SuperviseLoop.RecordExit` | plugin/appstore/supervisor.go:1078-1079 | recording an exit adds it to the record and answers whether the restart budget is spent |
| `SuperviseLoop.WatchIsPaced` | plugin/appstore/supervisor.go:1018-1100 | without reinstalls the exits are spaced by the restart ramp |
| `SuperviseLoop.SixthExitOrNever` | plugin/appstore/supervisor.go:216-218 | from a clean record and without reinstalls it is suspended at the sixth crash of its script or never: exactly when the script gets to a sixth and the first six span less than 60 s |
| `SuperviseLoop.CrashBudget` | plugin/appstore/supervisor.go:1018-1100 | told from the script alone: a process that keeps exiting is suspended if and only if its first six exits take under 29 s beyond the restart waits |
| `SignatureThrottle.Throttle.NoteFailure` | plugin/appstore/supervisor.go:375-401 | the new record and exactly the lines logged |
| `SignatureThrottle.Throttle.Clear` | plugin/appstore/supervisor.go:407-415 | the record goes, and recovery is logged only if there was one |
| `SignatureThrottle.EpisodeIsThrottled` | plugin/appstore/supervisor.go:314-401 | for an unchanged failing manifest and any visits: n failures leave the n-th delay, verifications are spaced by the delays, the failure line is logged once and the quarantine line once, at the fifth failure |
| `SignatureThrottle.EpisodeInNumbers` | plugin/appstore/supervisor.go:314-401 | after n failures of the same bytes the next verification is due exactly min(2^n, 300) s after the last, quarantine is from the fifth on, and the lines logged are these |
| `SignatureThrottle.NotedKeeps` | plugin/appstore/supervisor.go:375-401 | the record and the lines after one more failure of the same hash |
| `SignatureThrottle.VerificationsAreRare` | plugin/appstore/supervisor.go:314-344 | the N-th verification comes no earlier than the first N − 1 delays together after the first |
| `SignatureThrottle.DelayIsCappedPower` | plugin/appstore/supervisor.go:321-344 | the delay after the k-th failure is min(2^k, 300) seconds |
| `Versions.CompareByKey` | plugin/appstore/supervisor.go:899-965 | on all strings, the comparison is that of three numbers, then release above prerelease, then text |
| `Versions.CompareAntisymmetric` | plugin/appstore/supervisor.go:899-924 | the order is total and antisymmetric in sign; equal versions are those with one key |
| `Versions.CompareTransitive` | plugin/appstore/supervisor.go:899-924 | the order is transitive, strictly so when either step is strict |
| `Semver.KeyOfShow` | plugin/appstore/supervisor.go:927-965 | a written version is read back component by component, each as itself or, if it does not fit an int, as zero |
| `Semver.ComponentFits` | plugin/appstore/supervisor.go:959-965 | a component reads as its number if and only if it fits an int; beyond that it is zero |
| `Semver.TextAgreesIff` | plugin/appstore/supervisor.go:916-923 | the text order of two prereleases is item 4 of section 11 if and only if a condition holds on the first identifiers that differ and on whether more follow them |
| `Semver.AgreesIff` | plugin/appstore/supervisor.go:896-965 | on every pair of versions the order is items 2 to 4 of section 11 if and only if: where components first differ both fit an int, or both read alike and what follows goes the right way; where none differs, the prereleases meet the condition |
| `Semver.FittingAgreesIff` | plugin/appstore/supervisor.go:896-924 | when all components fit an int it disagrees only on two prereleases of one triple that fail the condition |
| `Semver.NumbersAsText` | plugin/appstore/supervisor.go:916-923 | of two numeric identifiers, one with fewer digits and a larger text is put above the other, against item 4 |
| `Semver.HyphenBeforeDot` | plugin/appstore/supervisor.go:916-923 | an identifier with more after it is put above one that continues it with a hyphen, against item 4 |
| `Semver.NineAboveTen` | plugin/appstore/supervisor.go:916-923 | such an input: prerelease 9 is put above 10 |
| `Semver.DottedAboveHyphened` | plugin/appstore/supervisor.go:916-923 | such an input: prerelease a.b is put above a-b |
| `Semver.OverflowIsDowngrade` | plugin/appstore/supervisor.go:936-965 | a major version too large for an int is put below every positive one that fits |
| `Semver.MissingParts` | plugin/appstore/supervisor.go:936-957 | a missing component reads as zero |
| `Semver.NonNumberIsZero` | plugin/appstore/supervisor.go:959-965 | a component that is not a number reads as zero |
| `AuditLog.Log.constructor` | plugin/appstore/supervisor.go:78-101 | takes over whatever files are there, gaps included |
| `AuditLog.Log.RotateGenerations` | plugin/appstore/supervisor.go:136-161 | the oldest slot is lost and every other generation moves down by one, gaps included |
| `AuditLog.Log.RotateIfLarge` | plugin/appstore/supervisor.go:110-128 | rotates exactly when the active file has reached the limit, and leaves it under the limit |
| `AuditLog.Log.WriteLine` | plugin/appstore/supervisor.go:78-101 | one line is added after a rotation exactly when one is due; after any number of writes the kept generations, oldest to newest, are a suffix of all lines written, and take under (keep + 1) × (max + longest line) bytes |
| `AuditLog.RotationLosesOldest` | plugin/appstore/supervisor.go:136-161 | what was kept is the lost generation followed by what is kept now |
| `AuditLog.RotateKeeps` | plugin/appstore/supervisor.go:110-161 | a rotation keeps the suffix property, the size bounds and the fullness of rotated files |
| `AuditLog.AppendKeeps` | plugin/appstore/supervisor.go:78-101 | so does appending a line to a file under the limit |
| `AuditLog.FootprintBounded` | plugin/appstore/supervisor.go:103-128 | the files of one app stay under (keep + 1) × (max + longest line) bytes |
| `AuditLog.LossNeedsFullLogs` | plugin/appstore/supervisor.go:103-161 | a line written in the run is lost only when at least keep × max newer bytes are kept |
| `Paths.JoinWalks` | plugin/appstore/supervisor.go:1533-1550 | joining and cleaning is walking the relative elements from the base |
| `Paths.TextAgreesWithComponents` | plugin/appstore/supervisor.go:1533-1550 | the separator-prefix test on texts agrees with component-list prefix, except at the root |
| `Paths.ResolveUnderIsContainment` | plugin/appstore/supervisor.go:1533-1550 | the path is resolved if and only if the walk ends at or below the directory, and then to where it ends |
| `Paths.ResolveUnderRoot` | plugin/appstore/supervisor.go:1533-1550 | under the root only paths that end at the root are accepted |
| `Paths.ResolvedInside` | plugin/appstore/supervisor.go:1533-1550 | whatever the base, a path that is resolved ends at or below it |
| `Paths.WalkSteps` | plugin/appstore/supervisor.go:1533-1550 | dots stay, two dots undo one step and stop at the root, any other element leads one down |
| `Paths.AbsMeans` | plugin/appstore/supervisor.go:1538-1541 | an absolute base is walked from the root, any other from the working directory |
| `HookRegistry.StableSortSpec` | pkg/extend/extend.go:205-211 | the list is sorted by Order and keeps registration order among equals |
| `HookRegistry.StableSortUnique` | pkg/extend/extend.go:205-211 | any sorted list with the same sublist for every Order is that one |
| `HookRegistry.SortWithout` | pkg/extend/extend.go:216-228 | filtering a sorted list is sorting the filtered registrations: nothing is lost, duplicated or reordered |
| `HookRegistry.SurvivorsAfter` | pkg/extend/extend.go:182-228 | the surviving registrations, defined position by position over the whole history, grow by a registration and shrink by a removal |
| `HookRegistry.SurvivesIff` | pkg/extend/extend.go:182-324 | a registration survives if and only if no later call removes its app or its (app, point, method) triple |
| `HookRegistry.WithoutTriple` | pkg/extend/extend.go:312-324 | removing a triple takes every registration of it and leaves every other as often as it was |
| `HookRegistry.WithoutApp` | pkg/extend/extend.go:216-228 | removing an app takes every registration of it and leaves every other as often as it was |
| `HookRegistry.HooksMultiset` | pkg/extend/extend.go:232-239 | a point runs each surviving registration of its own exactly as often as it survives, and no other |
| `HookRegistry.HooksAfterUnregisterOne` | pkg/extend/extend.go:312-324 | afterwards every point runs what it ran, as often, but for that triple |
| `HookRegistry.HooksAfterUnregister` | pkg/extend/extend.go:216-228 | afterwards every point runs what it ran, as often, but for that app |
| `HookRegistry.ValidIff` | pkg/extend/extend.go:66-79 | a point is well-formed exactly when it is words joined by dots and then pre or post |
| `HookRegistry.AcceptableIff` | pkg/extend/extend.go:182-201 | an extension is accepted exactly when its point is well-formed, its method and app are not blank, and every flag starts with two hyphens and has one of three kinds |
| `HookRegistry.OthersUntouched` | pkg/extend/extend.go:216-228 | a removal leaves every other app's hooks in place, in order and in number |
| `HookRegistry.CheckExtension` | pkg/extend/extend.go:182-201 | accepts exactly those, and otherwise names the first check that fails |
| `HookRegistry.SliceStable` | pkg/extend/extend.go:205-211 | re-sorting on insertion is the stable sort of the whole list |
| `HookRegistry.FilterList` | pkg/extend/extend.go:216-228 | the in-place filter is the removal |
| `HookRegistry.Registry.constructor` | pkg/extend/extend.go:130-143 | a registry starts with no history |
| `HookRegistry.Registry.HooksFor` | pkg/extend/extend.go:232-239 | the hooks of a point are one stable sort of the surviving registrations at that point, in registration order |
| `HookRegistry.Registry.Register` | pkg/extend/extend.go:182-212 | an acceptable extension joins the history and keeps every point's list that sort; any other changes nothing |
| `HookRegistry.Registry.Unregister` | pkg/extend/extend.go:216-228 | removes every hook of the app at every point, and no other |
| `HookRegistry.Registry.UnregisterOne` | pkg/extend/extend.go:312-324 | removes one (app, point, method) triple, as often as it is registered, and no other hook at any point |
| `HookRegistry.Registry.CountForApp` | pkg/extend/extend.go:163-175 | the sum over all points is the number of the app's surviving registrations |
| `RegistrationCap.DaemonHandler.constructor` | pkg/extend/runtime.go:62-69 | holds the registry and the permissions; nil permissions deny everything |
| `RegistrationCap.DaemonHandler.Register` | pkg/extend/runtime.go:74-89 | exactly when a call succeeds, and that the hook then registered is the one asked for, under the caller's id; alone, it keeps the cap |
| `RegistrationCap.DaemonHandler.Unregister` | pkg/extend/runtime.go:94-100 | removes the caller's own triple and no other hook; a malformed point changes nothing |
| `RegistrationCap.StepKeepsCap` | pkg/extend/runtime.go:74-89 | every step keeps hooks held plus calls past the check within 31 + k |
| `RegistrationCap.RunKeepsCap` | pkg/extend/runtime.go:74-89 | so does every interleaving with at most k overlapping calls, with unregistrations in between |
| `RegistrationCap.CapUnderOverlap` | pkg/extend/runtime.go:45-60 | hence the app holds at most 31 + k hooks |
| `RegistrationCap.CapReached` | pkg/extend/runtime.go:74-89 | for every k some interleaving reaches 31 + k |
| `RegistrationCap.CapExceeded` | pkg/extend/runtime.go:45-89 | for every k above one there are an app and an interleaving that exceed the documented cap |
| `RegistrationCap.DocumentedCapIffSerialized` | pkg/extend/runtime.go:45-60 | 32 is a bound in every interleaving if and only if at most one call of the app is in flight |
| `HookChain.AppendUniqueSpec` | pkg/extend/wiremeta.go:169-181 | the old list stays a prefix, exactly the new names join it, none twice |
| `HookChain.AppendUniqueLoop` | pkg/extend/wiremeta.go:169-181 | the loop with its lookup table computes that |
| `HookChain.Run` | pkg/extend/extend.go:281-307 | the loop over the snapshot is the specified chain, failures included; each dispatch is preceded by one call of the limiter, keyed by its app, whose verdict is the token bucket rule |
| `HookChain.ChainRunsInOrder` | pkg/extend/extend.go:281-307 | a chain that finishes called every hook once, in registry order |
| `HookChain.ChainTrail` | pkg/extend/extend.go:281-307 | for hooks that hand the meta back, the trail grows by one stamp per hook, and Required stays duplicate-free |
| `HookChain.ChainStampsOwn` | pkg/extend/wiremeta.go:140-167 | in a chain started without scratch keys every stamp's details come from its own hook |
| `HookChain.ChainStampsInOrder` | pkg/extend/extend.go:298-304 | a finished chain adds one stamp per hook, in registry order, each naming its hook, its point and when it returned |
| `HookChain.StampCarriesDetails` | pkg/extend/wiremeta.go:149-153 | a stamp carries what its call left under the details key as an in-process dictionary, and else nothing |
| `HookChain.ChainPassesOn` | pkg/extend/extend.go:281-307 | a chain stops at the first hook it does not go on from, for its reason; outside the reserved keys it ends with, and gives each hook, exactly what the last hook that returned a map left, or the initial args |
| `HookChain.ChainLabels` | pkg/extend/wiremeta.go:154-161 | for hooks that hand the meta back, the labels are the initial ones and then each hook's in order, and the required names exactly the initial ones and theirs |
| `HookChain.MetaSurvivesRoundTrip` | pkg/extend/wiremeta.go:49-68 | metadata reads the same in process and after a JSON round trip; without any, it is empty |
| `HookWrap.WrapCommand` | pkg/extend/cmdwrap.go:23-49 | over a registry and its limiter, each chain runs the hooks that survive at its point when it starts, in their stable order, though the registry may change in between; the limiter answers the calls of both chains and no other |
| `HookWrap.CoreRunsOnce` | pkg/extend/cmdwrap.go:23-49 | the core runs exactly once if the pre chain finished, and never otherwise |
| `HookWrap.CallsInOrder` | pkg/extend/cmdwrap.go:23-49 | a successful Wrap calls the pre hooks in order, the core, then the post hooks in order |
| `HookWrap.WrapTrail` | pkg/extend/cmdwrap.go:23-49 | a successful Wrap yields the initial trail, then position by position one stamp per pre hook and per post hook in registry order; Required stays duplicate-free |
| `HookWrap.WrapLabels` | pkg/extend/cmdwrap.go:23-49 | so do its labels and required names |
| `HookWrap.WrapEnds` | pkg/extend/cmdwrap.go:23-49 | how a Wrap ends, told from the answers: the pre hook, core or post hook that stops it and why, or that it succeeds |
| `HookWrap.WrapPassesOn` | pkg/extend/cmdwrap.go:23-49 | outside the reserved keys a successful Wrap ends with exactly what the last hook or core that returned a map left, or the initial args |
| `HookWrap.WrapCalls` | pkg/extend/cmdwrap.go:23-49 | the calls made, in order, each on exactly what was left for it, and no post hook after a core that fails |
| `HookWrap.WrapStampsOwn` | pkg/extend/cmdwrap.go:23-49 | every stamp's details come only from its own hook if and only if there is no post hook, or the first one leaves no entry that the core left |
| `HookWrap.OwnWhateverHooksAnswer` | pkg/extend/cmdwrap.go:23-49 | that holds for every answer of the post hooks if and only if the core left no details or there is no post hook |
| `HookWrap.HandedOnDetailsAreStamped` | pkg/extend/extend.go:289-304 | a first post hook that returns the map it was given is stamped with the core's details |
| `HookWrap.AddedDetailsAreStamped` | pkg/extend/extend.go:289-304 | a first post hook that keeps an entry the core left and adds others is stamped with that entry too |
| `HookBudget.RunsDispatch` | pkg/extend/extend.go:281-307 | however runs overlap on one limiter, an app's hooks are dispatched as often as the limiter admits the app |
| `HookBudget.DispatchesBounded` | pkg/extend/extend.go:145-158 | whatever was asked before and however further runs overlap, an app's dispatches in them are at most burst + rate × the time from its first call of the limiter in them to its last |
| `Ipc.Uint32RoundTrip` | pkg/ipc/frame.go:31-33 | a length survives its header, whose bytes are its own, the most significant first |
| `Ipc.Uint32Inverse` | pkg/ipc/frame.go:46-54 | a header is the big-endian form of its value |
| `Ipc.Conn.ReadFrame` | pkg/ipc/frame.go:46-69 | reads the frame at the front of the stream, with each of its errors, a failing stream included |
| `Ipc.Conn.WriteFrame` | pkg/ipc/frame.go:24-41 | writes the whole frame exactly when the envelope encodes, fits and the peer takes it |
| `Ipc.WrittenWhole` | pkg/ipc/frame.go:24-41 | an envelope of more than 1048576 bytes, or that does not encode, is not written, and a smaller one is framed whole |
| `Ipc.NotAFrame` | pkg/ipc/frame.go:46-69 | what each stream that does not hold a whole good frame is reported as |
| `Ipc.FrameOfBody` | pkg/ipc/frame.go:24-69 | a good body's frame is read back, whatever follows it |
| `Ipc.ParseStream` | pkg/ipc/frame.go:46-69 | good frames up to a clean end parse to the envelopes they carry |
| `Ipc.ParseNeedsGood` | pkg/ipc/frame.go:46-69 | conversely a stream that parses to an end of file is good frames up to a clean end |
| `Ipc.OneReplies` | pkg/ipc/server.go:84-94 | a reply is the handler's payload or its error if the method is registered, and otherwise an error that names the missing method |
| `Ipc.Serve` | pkg/ipc/server.go:58-82 | the loop's result and output are those of the stream specification |
| `Ipc.ServeFromExact` | pkg/ipc/server.go:58-82 | while not cancelled, the loop writes exactly the owed replies and returns nil at an end of file, the read error otherwise, or a write error when the peer stops |
| `Ipc.ServeReturnsNilIff` | pkg/ipc/server.go:46-82 | when not cancelled, nil if and only if the stream does not fail, the input is good frames ending at a boundary or right after an in-range header, and the replies fit |
| `Ipc.CutAfterHeaderLooksClean` | pkg/ipc/frame.go:43-62 | every in-range header with nothing after it ends Serve with nil |
| `Ipc.ServeAnswersEveryRequest` | pkg/ipc/server.go:58-94 | over framed envelopes Serve writes exactly one framed reply per request, in order, and nothing for other envelopes |
| `Ipc.OwedReplies` | pkg/ipc/server.go:64-94 | the k-th reply is the reply to the k-th request, field by field |
| `Ipc.ServeRepliesToEveryRequest` | pkg/ipc/server.go:58-94 | over framed envelopes Serve writes those replies, framed, and nothing else |
| `Ipc.CancelledServe` | pkg/ipc/server.go:58-82 | when the context ends at a turn, Serve stops there with its error, having written exactly the replies owed so far |
| `Ipc.OwedKeepsIds` | pkg/ipc/server.go:64-94 | the replies' ids are the requests' ids, in order, and no reply is a request |
| `Manifests.HasGrant` | pkg/manifest/grants.go:34-41 | the search finds a grant exactly when one with the capability matches the target |
| `Manifests.ExposesMethod` | pkg/manifest/grants.go:10-17 | the search finds exactly the exposed methods |
| `Manifests.WildcardMeaning` | pkg/manifest/grants.go:45-58 | a wildcard reaches the methods of its own prefix and stops at the dot |
| `Manifests.MatchIff` | pkg/manifest/grants.go:45-58 | a pattern matches exactly everything, itself, or what lies under its prefix and dot |
| `Manifests.EnforceSideloadPolicy` | pkg/manifest/sideload.go:59-109 | accepts exactly the harmless manifests, and names the first unsafe grant |
| `Manifests.SideloadSafeIff` | pkg/manifest/sideload.go:36-109 | the accepted manifests, in full: not guarded, extending and depending on nothing, and granted only audit.log, and fs.read and fs.write under the app, unconditionally |
| `Manifests.LocalIff` | pkg/manifest/sideload.go:116-132 | the accepted file targets, character by character |
| `Manifests.SafeHasNoOtherGrant` | pkg/manifest/sideload.go:36-109 | a safe manifest holds no grant outside the three allowed capabilities |
| `Manifests.LocalTargetStaysInside` | pkg/manifest/sideload.go:116-132 | an accepted file target leads, from any app directory, to a place at or below it |
| `Manifests.SideloadedNeverDials` | plugin/appstore/supervisor.go:1379-1415 | a safe manifest's cross-app call is never dialed, for any target and method |
| `Manifests.GateIsFirstFailing` | plugin/appstore/supervisor.go:1379-1415 | a call is answered by the first that fails of: the target is installed, exposes the method, the caller is the daemon or holds an ipc.call grant that reaches it, the target is ready; and is dialed if none fails |
| `Scan.ScanInstalled` | plugin/appstore/supervisor.go:472-611 | the walk over the install root is the fold of the per-entry decision |
| `Scan.VisitEntry` | plugin/appstore/supervisor.go:489-609 | one entry's decision and its effect on the failure records |
| `Scan.AdoptionIff` | plugin/appstore/supervisor.go:489-609 | a verifying scan adopts exactly the dirs that hold a valid manifest named after them, harmless and marked or else signed and anchored, with a binary inside the dir that is no symlink |
| `Scan.VisitRecords` | plugin/appstore/supervisor.go:359-415 | what a visit leaves on record: a failure with its count and delay, nothing after a success, and otherwise what was there; other dirs keep theirs |
| `Scan.ScanWithholdsExactly` | plugin/appstore/supervisor.go:535-572 | whatever the pins and records, a scan returns exactly what a verifying scan returns for the entries that are not withheld |
| `Scan.ScanDiffersIffWithheld` | plugin/appstore/supervisor.go:535-572 | its answer differs from the verifying one if and only if some trusted entry's record is in backoff |
| `Scan.ScanExplained` | plugin/appstore/supervisor.go:375-415 | every failure record left by a scan was noted for an entry visited, and holds its dir back for at most 300 s |
| `Scan.WithheldAfterPinChange` | plugin/appstore/supervisor.go:535-572 | an entry is withheld only after its very bytes failed in its dir under another pin, for less than 300 s |
| `Scan.AdoptedMeans` | plugin/appstore/supervisor.go:489-609 | an app adopted from an entry is what its manifest describes, valid and in the dir named after it, within the sideload policy if it carries the marker and otherwise verified under the pin read at that visit, with its binary inside its dir |
| `Scan.VisitKeepsUntrusted` | plugin/appstore/supervisor.go:489-609 | under fixed pins records only name bytes that do not verify, and then no entry is decided differently |
| `Scan.ScanIsFullScan` | plugin/appstore/supervisor.go:472-611 | under fixed pins one throttled scan returns what a scan that verifies everything returns, and keeps the records so |
| `Scan.ScanReturnsDistinct` | plugin/appstore/supervisor.go:517-533 | a scan returns each app id once, and only ids of dirs it visits |
| `Scan.ScanAdopts` | plugin/appstore/supervisor.go:472-611 | every app a scan returns is adopted from an entry it visits |
| `Supervisor.Table.constructor` | plugin/appstore/supervisor.go:192-210 | the empty table |
| `Supervisor.Table.StartLoops` | plugin/appstore/supervisor.go:665-667 | the apps are started in order |
| `Supervisor.Table.RegisterInstalled` | plugin/appstore/supervisor.go:622-637 | the scanned apps enter the table |
| `Supervisor.Table.RescanForNew` | plugin/appstore/supervisor.go:714-796 | the whole pass over a scan result, with what it starts and logs |
| `Supervisor.Table.RescanForGone` | plugin/appstore/supervisor.go:808-830 | every app whose dir is gone is cancelled and dropped, in any walk order |
| `Supervisor.Table.RescanForResume` | plugin/appstore/supervisor.go:861-894 | resume markers are consumed, in any walk order |
| `Supervisor.Table.CallFrom` | plugin/appstore/supervisor.go:1379-1423 | the gates up to the dial |
| `Supervisor.Table.RescanTick` | plugin/appstore/supervisor.go:683-697 | one tick is new, start, gone, resume, start, and both walks cover the table |
| `SupervisorLinks.AtMostOneLive` | plugin/appstore/supervisor.go:652-701 | in step, an app has at most one live loop, and the stored handle is its own |
| `SupervisorLinks.CancelLinked` | plugin/appstore/supervisor.go:738-741 | cancelling keeps handles and live loops linked, and leaves the app waiting for a loop |
| `SupervisorLinks.StartOneLinked` | plugin/appstore/supervisor.go:654-664 | starting a waiting app links it to its new loop |
| `SupervisorLinks.NewAllStarts` | plugin/appstore/supervisor.go:714-796 | a rescan starts exactly the apps that are new, rebuilt or upgraded against the table before it |
| `SupervisorLinks.BeforeResumeRunning` | plugin/appstore/supervisor.go:683-691 | when markers are looked for, an app that is not gone runs if and only if it ran before the tick or this tick started it |
| `SupervisorLinks.TickInStepIff` | plugin/appstore/supervisor.go:683-894 | a tick keeps loops, handles and table in step if and only if, in the state before it, every app it resumes has no live loop and is not new, rebuilt or upgraded |
| `SupervisorLinks.NoisyTickDoubles` | plugin/appstore/supervisor.go:861-894 | otherwise that app ends the tick with two live loops |
| `SupervisorLinks.ResumingLiveAppDoubles` | plugin/appstore/supervisor.go:861-894 | resuming an app whose loop is live leaves it with two live loops |
| `SupervisorLinks.UpgradeAndResumeDoubles` | plugin/appstore/supervisor.go:683-697 | so does an upgrade and a resume marker in one tick, although the old loop has returned |
| `SupervisorEffects.ChangeTold` | plugin/appstore/supervisor.go:725-768 | which case a scanned app is, by version and hash |
| `SupervisorEffects.RescanEntries` | plugin/appstore/supervisor.go:714-796 | a scanned app takes over exactly if its id is not installed, or the version is equal and the hash differs, or the version differs and is not below; then its entries are these, and otherwise unchanged; a downgrade is warned of |
| `SupervisorEffects.RescanSpares` | plugin/appstore/supervisor.go:714-796 | an id that was not scanned keeps its entries and its warning |
| `SupervisorEffects.RescanStarts` | plugin/appstore/supervisor.go:714-796 | exactly those that take over are started, in scan order, and exactly the refusals not just said are logged |
| `SupervisorEffects.RescanCancels` | plugin/appstore/supervisor.go:738-741 | exactly the loops of the apps replaced are cancelled |
| `SupervisorEffects.GoneExactly` | plugin/appstore/supervisor.go:808-830 | exactly the walked apps whose dirs are gone lose all their entries and their loops, and nothing else changes |
| `SupervisorEffects.ResumeExactly` | plugin/appstore/supervisor.go:861-894 | exactly the apps whose marker is consumed lose their record and handle, a marker that cannot be removed is warned of, and nothing else changes |
| `SupervisorEffects.StartExactly` | plugin/appstore/supervisor.go:654-667 | each app gets one new live loop, in order, whose handle is stored, and nothing else changes |
| `SupervisorEffects.RegisterExactly` | plugin/appstore/supervisor.go:622-637 | a start installs exactly the apps of the first scan |
| `SupervisorPasses.ChangeNotBelow` | plugin/appstore/supervisor.go:725-768 | an app replaces the one installed only at the same or a higher version |
| `SupervisorPasses.NewAllVersions` | plugin/appstore/supervisor.go:714-796 | a rescan keeps or raises the version of every installed app |
| `SupervisorPasses.RescanConverges` | plugin/appstore/supervisor.go:714-796 | a second pass over the same scan result changes nothing, starts nothing and logs nothing |
| `SupervisorPasses.TableFollowsDisk` | plugin/appstore/supervisor.go:714-830 | after a tick the table holds what it held and what was scanned, less what is gone |
| `SupervisorPasses.TickStartsClean` | plugin/appstore/supervisor.go:714-894 | every loop a tick starts, starts without a crash record |
| `SupervisorPasses.ReplacedIsNotReady` | plugin/appstore/supervisor.go:729-795 | an installed app that a rescan replaces is not ready, and no app becomes ready by it |
| `SupervisorPasses.GoneLeavesNothing` | plugin/appstore/supervisor.go:808-830 | from a state in step, an uninstalled app leaves no entry in any table and no live loop |
| `SupervisorRuns.NextInStepIff` | plugin/appstore/supervisor.go:652-894 | a step of a run keeps loops and table in step if and only if it is quiet, loop events included |
| `SupervisorRuns.RunInStepIff` | plugin/appstore/supervisor.go:652-894 | a run is in step after its start and every step if and only if every step is quiet |
| `SupervisorRuns.RunSound` | plugin/appstore/supervisor.go:472-609 | in every run every installed app was adopted from an entry the run visited |
| `SupervisorRuns.InstalledAreVerified` | plugin/appstore/supervisor.go:472-637 | in every reachable state every installed app was found at some visit of the run: valid, filed under its id, with its binary inside its dir, and verified under the pin the catalogue showed at that visit, or within the sideload policy if it carried its marker then |
| `SupervisorRuns.SideloadedNeverDialsInAnyRun` | plugin/appstore/supervisor.go:1379-1415 | in every reachable state a cross-app call by a sideloaded app never reaches the dial |
| `SupervisorRuns.DialsWhatWasFound` | plugin/appstore/supervisor.go:1379-1415 | in every reachable state the broker answers by the first gate that fails, and dials only an app found at some visit whose manifest lists the method |
| `SupervisorRuns.ListingNoted` | plugin/appstore/supervisor.go:714-721 | a failing listing is warned of and a good one clears that warning, and nothing else changes |
| `SupervisorRuns.EventsTell` | plugin/appstore/supervisor.go:1268-1278 | events of the loops change readiness, one crash record or one loop, and nothing else |
| `SupervisorRuns.ThrottleInvisible` | plugin/appstore/supervisor.go:314-415 | with fixed pins, over every disk history the run is that of a supervisor that verifies every manifest every time |
| `SupervisorRuns.RunExplained` | plugin/appstore/supervisor.go:375-415 | every failure record of a run was noted for an entry it visited, and holds its dir back for at most 300 s |
| `SupervisorRuns.ThrottleShowsBriefly` | plugin/appstore/supervisor.go:535-572 | when a scan's answer differs from the verifying one, some app is withheld whose very bytes failed to verify under another pin less than 300 s before |
| `SupervisorRuns.PinChangeUnseen` | plugin/appstore/supervisor.go:556-572 | a possible run in which a pin published after a failure is not seen by the next rescan, and a verifying one sees it |
| `SupervisorRuns.RunFollowsDisk` | plugin/appstore/supervisor.go:714-830 | after every rescan of a run the table holds what it held and what was scanned, less what is gone |
| `SupervisorRuns.VersionsNeverDecrease` | plugin/appstore/supervisor.go:714-830 | in every run an app's version never decreases from registration until it is dropped |
| `SupervisorDaemon.Daemon.constructor` | plugin/appstore/supervisor.go:192-210 | the first scan, the registrations and the starts are the start of a run, in step |
| `SupervisorDaemon.Daemon.Rescan` | plugin/appstore/supervisor.go:683-722 | listing, scan and tick on the object are the next step of the run, whose walks cover the table; it stays in step if and only if the step is quiet |
| `SupervisorDaemon.Daemon.Observe` | plugin/appstore/supervisor.go:652-664 | an event of a loop is the next step of the run, and keeps it in step |
| `SupervisorDaemon.Daemon.CallFrom` | plugin/appstore/supervisor.go:1379-1423 | on the object, after any steps: a call is dialed exactly when the target is installed and lists the method, the caller may call it and it is ready; each refusal names the first of these that fails; what is dialed was verified at some visit, never for a sideloaded caller, and a cross-app call carries no origin |
| `SupervisorExamples.ResumeWhileRunning` | plugin/appstore/supervisor.go:861-894 | for any app a scan adopts there is a possible run of one tick that leaves it with two live loops |
| `SupervisorExamples.ResumeWithUpgrade` | plugin/appstore/supervisor.go:683-697 | and one in which its loop returns, and a tick then finds an upgrade and a resume marker |
| `SupervisorExamples.SampleResume` | plugin/appstore/supervisor.go:861-894 | in a concrete world, a run that resumes a live app |
| `SupervisorExamples.SampleUpgrade` | plugin/appstore/supervisor.go:683-697 | in that world, a run that upgrades and resumes at once, to any later major version |
| `SupervisorExamples.SampleThrottle` | plugin/appstore/supervisor.go:556-572 | in that world, a run in which the throttle shows |

## Left out

- Process control: `spawn`, `reapStale`, `stopAppGroup`, `watchSocket`, resource limits. A spawn that returned, a cancellation and a reinstall are events.
- The `ready` map as a statement about live processes: an old loop may clear it after its replacement starts, so it is only an input of the broker gate.
- Cryptography, JSON and base64: abstract functions, with only the facts that are used stated as hypotheses.
- `manifest.Validate`: a predicate; its individual checks would only add one-branch members.
- The notes about skipped directories (`noteSkipped`, `misnamedNote`) and log formatting: no state but the log depends on them.
- Prerelease texts that the manifest pattern admits but the standard does not (empty identifiers, numbers with leading zeros): the standard gives them no precedence, so the comparison with it leaves them out; `CompareByKey`, `CompareAntisymmetric` and `CompareTransitive` cover them.
- Two loops of one app recording crashes at once: the supervise loop is one loop on one record, whatever is on that record when it starts.
- Failing file operations in audit rotation, and more than one writer of one app's log.
- Floating-point rounding in the token bucket: tokens and seconds are reals.
- Aliasing of hook arguments: `cloneArgs` is shallow and a hook that returns nil leaves the stamp on the map it was given; argument maps are values here.
- Reference semantics of crash records and buckets: the source stores pointers, each reachable from its map only, and the model stores the records themselves.
- `MissingRequired`, `FlagsFor`, `AllRegistered`, `List`, `Methods`, `Apps`: read-only listings.
- `filepath.Abs` failing because the working directory cannot be read.
- Stopping the whole service: the context's end is an event of each loop, not a final state of the run.
- Payment registries, the application-kit middleware, telemetry and service start and stop: wrappers over interfaces and I/O.
