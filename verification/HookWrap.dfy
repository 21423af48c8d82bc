/**
 * pkg/extend/cmdwrap.go: Wrap, which runs a point's pre hooks, a command's core
 * and its post hooks. What the core answers is an input.
 */
module HookWrap {
  import opened HookRegistry
  import opened HookChain
  import TokenBucket
  import Text

  datatype MaybeArgs = NilArgs | Given(args: Args)

  /** A call of Wrap, the points' hooks as Run reads them, and what hooks and core answer. */
  datatype Command = Command(
    haveRegistry: bool, haveCore: bool, cmd: string, args: MaybeArgs,
    pre: seq<Extension>, preScript: seq<Response>, coreReply: Reply,
    post: seq<Extension>, postScript: seq<Response>)
  {
    /** Every hook has an answer. */
    predicate Answered()
    {
      |pre| <= |preScript| && |post| <= |postScript|
    }

    /** The call itself is in order. */
    predicate Proper()
    {
      haveRegistry && haveCore && cmd != ""
    }

    function Start(): Args
    {
      if args.NilArgs? then map[] else args.args
    }

    function PreRun(): Outcome
      requires Answered()
    {
      RunFrom(pre, cmd + ".pre", Start(), preScript, 0, [])
    }

    /** The calls made once the core has run. */
    function Traced(): seq<Event>
      requires Answered()
    {
      PreRun().trace + [CoreRan(PreRun().args, coreReply)]
    }

    /** What the post chain starts from. */
    function AfterCore(): Args
      requires Answered()
    {
      Current(PreRun().args, coreReply)
    }
  }

  /** The pre chain, the core, the post chain, with early returns. */
  function Wrap(c: Command): Outcome
    requires c.Answered()
  {
    if !c.Proper() then Aborted(map[], BadCall, [])
    else
      var transformed := c.PreRun();
      if transformed.Aborted? then Aborted(map[], transformed.why, transformed.trace)
      else if c.coreReply.Failed? then Aborted(map[], CoreFailed(c.coreReply.error), c.Traced())
      else RunFrom(c.post, c.cmd + ".post", c.AfterCore(), c.postScript, 0, c.Traced())
  }

  /** What other goroutines do to the registry in the meantime; the history holds accepted registrations only. */
  method Meanwhile(reg: Registry, ops: seq<Op>)
    requires reg.Valid() && forall i :: 0 <= i < |ops| && ops[i].Add? ==> Acceptable(ops[i].ext)
    modifies reg
    ensures reg.Valid() && reg.ops == old(reg.ops) + ops
  {
    for i := 0 to |ops|
      invariant reg.Valid() && reg.ops == old(reg.ops) + ops[..i]
    {
      match ops[i] {
        case Add(e) => var _ := reg.Register(e);
        case Remove(OfApp(a)) => reg.Unregister(a);
        case Remove(OneHook(a, p, m)) => reg.UnregisterOne(a, p, m);
      }
      assert ops[..i + 1] == ops[..i] + [ops[i]];
    }
    assert ops[..|ops|] == ops;
  }

  /** The calls of the limiter a Wrap makes: those of the pre chain, and of the post chain if it runs. */
  ghost function AskedByWrap(c: Command, preMoments: seq<Moment>, postMoments: seq<Moment>): seq<TokenBucket.Call>
    requires c.Answered() && |c.preScript| == |preMoments| && |c.postScript| == |postMoments|
  {
    if !c.Proper() then []
    else
      Asked(c.pre, preMoments, c.preScript, 0)
      + if c.PreRun().Finished? && !c.coreReply.Failed? then Asked(c.post, postMoments, c.postScript, 0) else []
  }

  /** Registry.Run at a point: the hooks that survive there now. */
  method RunPoint(reg: Registry, limiter: TokenBucket.RateLimiter?, point: string, args: Args, moments: seq<Moment>,
                  before: seq<Event>)
    returns (out: Outcome, ghost script: seq<Response>)
    requires reg.Valid() && (limiter != null ==> limiter.Valid())
    requires |HooksAt(reg.ops, point)| <= |moments|
    modifies if limiter == null then {} else {limiter}
    ensures FillsIn(script, moments) && (limiter == null ==> NoneLimited(script))
    ensures out == RunFrom(HooksAt(reg.ops, point), point, args, script, 0, before)
    ensures Logged(limiter, old(LogOf(limiter)), Asked(HooksAt(reg.ops, point), moments, script, 0))
  {
    var hooks := reg.HooksFor(point);
    out, script := Run(limiter, hooks, point, args, moments, before);
  }

  /**
   * Wrap over a registry and its limiter. Each chain runs the hooks that survive
   * at its point when it starts: the registry may change while the pre chain and
   * the core run. The limiter answers the calls of both chains and no other.
   */
  method WrapCommand(reg: Registry, limiter: TokenBucket.RateLimiter?, cmd: string, args: MaybeArgs,
                     preMoments: seq<Moment>, coreReply: Reply, meanwhile: seq<Op>, postMoments: seq<Moment>)
    returns (out: Outcome, ghost c: Command)
    requires reg.Valid() && (limiter != null ==> limiter.Valid())
    requires forall i :: 0 <= i < |meanwhile| && meanwhile[i].Add? ==> Acceptable(meanwhile[i].ext)
    requires |HooksAt(reg.ops, cmd + ".pre")| <= |preMoments|
    requires |HooksAt(reg.ops + meanwhile, cmd + ".post")| <= |postMoments|
    modifies reg, if limiter == null then {} else {limiter}
    ensures reg.Valid() && c.Answered()
    ensures FillsIn(c.preScript, preMoments) && FillsIn(c.postScript, postMoments)
    ensures limiter == null ==> NoneLimited(c.preScript) && NoneLimited(c.postScript)
    ensures c == Command(true, true, cmd, args, HooksAt(old(reg.ops), cmd + ".pre"), c.preScript, coreReply,
                         HooksAt(old(reg.ops) + meanwhile, cmd + ".post"), c.postScript)
    ensures out == Wrap(c)
    ensures Logged(limiter, old(LogOf(limiter)), AskedByWrap(c, preMoments, postMoments))
  {
    ghost var ops, log := reg.ops, LogOf(limiter);
    c := Command(true, true, cmd, args, HooksAt(ops, cmd + ".pre"), Unasked(preMoments), coreReply,
                 HooksAt(ops + meanwhile, cmd + ".post"), Unasked(postMoments));
    if cmd == "" {
      return Aborted(map[], BadCall, []), c;
    }
    var start := if args.NilArgs? then map[] else args.args;
    var transformed;
    ghost var script;
    transformed, script := RunPoint(reg, limiter, cmd + ".pre", start, preMoments, []);
    c := c.(preScript := script);
    if transformed.Aborted? {
      return Aborted(map[], transformed.why, transformed.trace), c;
    }
    var trace := transformed.trace + [CoreRan(transformed.args, coreReply)];
    Meanwhile(reg, meanwhile);
    if coreReply.Failed? {
      return Aborted(map[], CoreFailed(coreReply.error), trace), c;
    }
    var result := if coreReply.Returned? then coreReply.args else transformed.args;
    ghost var asked := Asked(c.pre, preMoments, script, 0);
    out, script := RunPoint(reg, limiter, cmd + ".post", result, postMoments, trace);
    c := c.(postScript := script);
    Text.Associate(log, asked, Asked(c.post, postMoments, script, 0));
  }

  // ---- what runs, and in which order ----

  lemma CoreRunsSnoc(trace: seq<Event>, ev: Event)
    ensures CoreRuns(trace + [ev]) == CoreRuns(trace) + (if ev.CoreRan? then 1 else 0)
  {
    assert (trace + [ev])[..|trace|] == trace;
  }

  /**
   * Hooks extend the core and never replace it: it runs exactly once when the pre
   * chain finishes, and not at all when it aborts, whatever happens afterwards.
   */
  lemma CoreRunsOnce(c: Command)
    requires c.Answered() && c.Proper()
    ensures CoreRuns(Wrap(c).trace) == if c.PreRun().Finished? then 1 else 0
  {
    ChainAddsHooksOnly(c.pre, c.cmd + ".pre", c.Start(), c.preScript, 0, []);
    if c.PreRun().Finished? {
      CoreRunsSnoc(c.PreRun().trace, CoreRan(c.PreRun().args, c.coreReply));
      if !c.coreReply.Failed? {
        ChainAddsHooksOnly(c.post, c.cmd + ".post", c.AfterCore(), c.postScript, 0, c.Traced());
      }
    }
  }

  /** A successful Wrap calls the pre hooks in registry order, then the core, then the post hooks in registry order. */
  lemma CallsInOrder(c: Command)
    requires c.Answered() && Wrap(c).Finished?
    ensures Labels(Wrap(c).trace)
         == HookLabels(c.pre, c.cmd + ".pre", 0) + [Core] + HookLabels(c.post, c.cmd + ".post", 0)
  {
    ChainRunsInOrder(c.pre, c.cmd + ".pre", c.Start(), c.preScript, 0, []);
    assert Labels([]) + HookLabels(c.pre, c.cmd + ".pre", 0) == HookLabels(c.pre, c.cmd + ".pre", 0);
    LabelsSnoc(c.PreRun().trace, CoreRan(c.PreRun().args, c.coreReply));
    ChainRunsInOrder(c.post, c.cmd + ".post", c.AfterCore(), c.postScript, 0, c.Traced());
  }

  // ---- the trail ----

  /** Hooks and core hand back the trail they were given. */
  ghost predicate TrailHandedBack(c: Command)
    requires c.Answered()
  {
    && HandsBack(c.pre, c.cmd + ".pre", c.Start(), c.preScript, 0)
    && GetMeta(c.AfterCore()) == GetMeta(c.PreRun().args)
    && HandsBack(c.post, c.cmd + ".post", c.AfterCore(), c.postScript, 0)
  }

  /** From position `from` of the trail, one stamp by each of the hooks, in registry order. */
  ghost predicate StampsAt(trail: seq<Stamp>, from: nat, hooks: seq<Extension>, point: string, script: seq<Response>)
    requires |hooks| <= |script| && from + |hooks| <= |trail|
  {
    forall k :: from <= k < from + |hooks| ==> MadeBy(trail[k], hooks[k - from], point, script[k - from])
  }

  lemma StampsShift(initial: seq<Stamp>, before: seq<Stamp>, hooks: seq<Extension>, point: string,
                    script: seq<Response>, stamps: seq<Stamp>)
    requires |hooks| <= |script| && AddsStamps(hooks, point, script, 0, before, stamps)
    ensures StampsAt(initial + stamps, |initial| + |before|, hooks, point, script)
  {
  }

  /** Later stamps leave earlier ones where they are. */
  lemma StampsStay(trail: seq<Stamp>, trail': seq<Stamp>, from: nat, hooks: seq<Extension>, point: string,
                   script: seq<Response>)
    requires |hooks| <= |script| && from + |hooks| <= |trail| <= |trail'| && trail'[..|trail|] == trail
    requires StampsAt(trail, from, hooks, point, script)
    ensures StampsAt(trail', from, hooks, point, script)
  {
    forall k | from <= k < from + |hooks| ensures trail'[k] == trail[k] {
      assert trail'[k] == trail'[..|trail|][k];
    }
  }

  /** Stamps of one chain, and then of another. */
  lemma StampsOfBoth(initial: seq<Stamp>, early: seq<Stamp>, all: seq<Stamp>, c: Command)
    requires c.Answered()
    requires AddsStamps(c.pre, c.cmd + ".pre", c.preScript, 0, [], early)
    requires AddsStamps(c.post, c.cmd + ".post", c.postScript, 0, early, all)
    ensures StampsAt(initial + all, |initial|, c.pre, c.cmd + ".pre", c.preScript)
    ensures StampsAt(initial + all, |initial| + |c.pre|, c.post, c.cmd + ".post", c.postScript)
  {
    StampsShift(initial, [], c.pre, c.cmd + ".pre", c.preScript, early);
    StampsShift(initial, early, c.post, c.cmd + ".post", c.postScript, all);
    assert (initial + all)[..|initial + early|] == initial + early;
    StampsStay(initial + early, initial + all, |initial|, c.pre, c.cmd + ".pre", c.preScript);
  }

  /** The stamps a successful Wrap's calls leave: one by each pre hook, then one by each post hook. */
  lemma WrapAddsStamps(c: Command)
    requires c.Answered() && Wrap(c).Finished?
    ensures AddsStamps(c.pre, c.cmd + ".pre", c.preScript, 0, [], Stamps(c.PreRun().trace))
    ensures AddsStamps(c.post, c.cmd + ".post", c.postScript, 0, Stamps(c.PreRun().trace), Stamps(Wrap(c).trace))
    ensures c.post != [] ==>
      Stamps(Wrap(c).trace)[|c.pre|] == StampOf(Called(c.post[0], c.cmd + ".post", c.AfterCore(), c.postScript[0]))
  {
    ChainStampsInOrder(c.pre, c.cmd + ".pre", c.Start(), c.preScript, 0, []);
    StampsSnoc(c.PreRun().trace, CoreRan(c.PreRun().args, c.coreReply));
    ChainStampsInOrder(c.post, c.cmd + ".post", c.AfterCore(), c.postScript, 0, c.Traced());
  }

  /** The trail of a successful Wrap is the initial one and then the stamps of its calls; Required gains no repeat. */
  lemma WrapKeepsTrail(c: Command)
    requires c.Answered() && TrailHandedBack(c) && Wrap(c).Finished?
    ensures GetMeta(Wrap(c).args).touchedBy == GetMeta(c.Start()).touchedBy + Stamps(Wrap(c).trace)
    ensures NoDuplicates(GetMeta(c.Start()).required) ==> NoDuplicates(GetMeta(Wrap(c).args).required)
  {
    var trail := GetMeta(c.Start()).touchedBy;
    assert trail + Stamps([]) == trail;
    ChainTrail(c.pre, c.cmd + ".pre", c.Start(), c.preScript, 0, [], trail);
    StampsSnoc(c.PreRun().trace, CoreRan(c.PreRun().args, c.coreReply));
    ChainTrail(c.post, c.cmd + ".post", c.AfterCore(), c.postScript, 0, c.Traced(), trail);
  }

  /**
   * When hooks and core hand back the trail they were given, a successful Wrap
   * extends the initial trail by one stamp per pre hook and then one per post
   * hook, each in registry order and made by its hook, and keeps Required free of
   * repeats.
   */
  lemma WrapTrail(c: Command)
    requires c.Answered() && TrailHandedBack(c) && Wrap(c).Finished?
    ensures var initial, final := GetMeta(c.Start()), GetMeta(Wrap(c).args);
            var n := |initial.touchedBy|;
            && |final.touchedBy| == n + |c.pre| + |c.post|
            && final.touchedBy[..n] == initial.touchedBy
            && StampsAt(final.touchedBy, n, c.pre, c.cmd + ".pre", c.preScript)
            && StampsAt(final.touchedBy, n + |c.pre|, c.post, c.cmd + ".post", c.postScript)
            && (NoDuplicates(initial.required) ==> NoDuplicates(final.required))
  {
    WrapKeepsTrail(c);
    WrapAddsStamps(c);
    StampsOfBoth(GetMeta(c.Start()).touchedBy, Stamps(c.PreRun().trace), Stamps(Wrap(c).trace), c);
  }

  /** So do its labels and required names: the initial ones, and then those each hook asks for, in order. */
  lemma WrapLabels(c: Command)
    requires c.Answered() && TrailHandedBack(c) && Wrap(c).Finished?
    ensures Labelled(GetMeta(Wrap(c).args), GetMeta(c.Start()), Wrap(c).trace)
  {
    var initial, core := GetMeta(c.Start()), CoreRan(c.PreRun().args, c.coreReply);
    assert initial.encoding + [] == initial.encoding;
    assert Labelled(initial, initial, []);
    ChainLabels(c.pre, c.cmd + ".pre", c.Start(), c.preScript, 0, [], initial);
    AllLeftSnoc(c.PreRun().trace, core, "__meta_encoding");
    AllLeftSnoc(c.PreRun().trace, core, "__meta_required");
    ChainLabels(c.post, c.cmd + ".post", c.AfterCore(), c.postScript, 0, c.Traced(), initial);
  }

  // ---- how it ends, and what it passes on ----

  /** What the pre hooks leave for the core. */
  function ForCore(c: Command): Args
    requires c.Answered()
  {
    Left(c.preScript, 0, |c.pre|, c.Start())
  }

  /** What the core leaves for the post hooks. */
  function ForPost(c: Command): Args
    requires c.Answered()
  {
    if c.coreReply.Returned? then c.coreReply.args else ForCore(c)
  }

  /** The pre chain stops at a hook, or the core fails, or the post chain stops, or none of these. */
  ghost predicate EndsAsTold(c: Command, out: Outcome)
    requires c.Answered()
  {
    var k, k' := StopIndex(c.preScript, 0, |c.pre|), StopIndex(c.postScript, 0, |c.post|);
    if !c.Proper() then out == Aborted(map[], BadCall, [])
    else if k < |c.pre| then out.Aborted? && out.args == map[] && out.why == WhyStopped(c.preScript[k])
    else if c.coreReply.Failed? then out.Aborted? && out.args == map[] && out.why == CoreFailed(c.coreReply.error)
    else if k' < |c.post| then out.Aborted? && out.why == WhyStopped(c.postScript[k'])
    else out.Finished?
  }

  /** The calls made: those of the pre chain, the core on what it left, those of the post chain on what that left. */
  ghost predicate CallsAsTold(c: Command, out: Outcome)
    requires c.Answered() && c.Proper()
  {
    var n := CallsMade(c.preScript, 0, |c.pre|);
    && n <= |out.trace| && MakesCalls(c.pre, c.cmd + ".pre", c.Start(), c.preScript, 0, [], out.trace[..n])
    && if StopIndex(c.preScript, 0, |c.pre|) < |c.pre| then |out.trace| == n
       else
         && |out.trace| > n && out.trace[n].CoreRan? && out.trace[n].reply == c.coreReply
         && Payload(out.trace[n].given) == Payload(ForCore(c))
         && if c.coreReply.Failed? then |out.trace| == n + 1
            else MakesCalls(c.post, c.cmd + ".post", ForPost(c), c.postScript, 0, out.trace[..n + 1], out.trace)
  }

  /** Payload for payload, a chain continues in the same way. */
  lemma {:induction false} LeftAlike(script: seq<Response>, i: nat, k: nat, before: Args, before': Args)
    requires i <= k <= |script| && Payload(before) == Payload(before')
    ensures Payload(Left(script, i, k, before)) == Payload(Left(script, i, k, before'))
    decreases k
  {
    if k > i && !script[k - 1].reply.Returned? {
      LeftAlike(script, i, k - 1, before, before');
    }
  }

  lemma CallsAlike(hooks: seq<Extension>, point: string, before: Args, before': Args, script: seq<Response>,
                   trace: seq<Event>, trace': seq<Event>)
    requires |hooks| <= |script| && Payload(before) == Payload(before')
    requires MakesCalls(hooks, point, before, script, 0, trace, trace')
    ensures MakesCalls(hooks, point, before', script, 0, trace, trace')
  {
    forall m | |trace| <= m < |trace'| ensures CallOf(trace'[m], hooks, point, before', script, 0, m - |trace|) {
      LeftAlike(script, 0, m - |trace|, before, before');
    }
  }

  lemma WrapEnds(c: Command)
    requires c.Answered()
    ensures EndsAsTold(c, Wrap(c))
  {
    ChainPassesOn(c.pre, c.cmd + ".pre", c.Start(), c.preScript, 0, []);
    if c.Proper() && c.PreRun().Finished? && !c.coreReply.Failed? {
      ChainPassesOn(c.post, c.cmd + ".post", c.AfterCore(), c.postScript, 0, c.Traced());
    }
  }

  /**
   * Outside the reserved keys, the args a successful Wrap ends with are exactly
   * what the last hook or core that returned a map left, or the initial ones if
   * none did.
   */
  lemma WrapPassesOn(c: Command)
    requires c.Answered() && Wrap(c).Finished?
    ensures Payload(Wrap(c).args) == Payload(Left(c.postScript, 0, |c.post|, ForPost(c)))
  {
    ChainPassesOn(c.pre, c.cmd + ".pre", c.Start(), c.preScript, 0, []);
    ChainPassesOn(c.post, c.cmd + ".post", c.AfterCore(), c.postScript, 0, c.Traced());
    LeftAlike(c.postScript, 0, |c.post|, c.AfterCore(), ForPost(c));
  }

  /** Every hook and the core are given exactly that, and who is called is told by the answers. */
  lemma WrapCalls(c: Command)
    requires c.Answered() && c.Proper()
    ensures CallsAsTold(c, Wrap(c))
  {
    var pre, out := c.PreRun(), Wrap(c);
    var n := CallsMade(c.preScript, 0, |c.pre|);
    ChainPassesOn(c.pre, c.cmd + ".pre", c.Start(), c.preScript, 0, []);
    if pre.Aborted? {
      assert out.trace[..n] == pre.trace;
    } else {
      assert c.Traced()[..n] == pre.trace && c.Traced()[n] == CoreRan(pre.args, c.coreReply);
      if c.coreReply.Failed? {
        assert out.trace[..n] == pre.trace;
      } else {
        ChainPassesOn(c.post, c.cmd + ".post", c.AfterCore(), c.postScript, 0, c.Traced());
        CallsAlike(c.post, c.cmd + ".post", c.AfterCore(), ForPost(c), c.postScript, c.Traced(), out.trace);
        assert out.trace[..n + 1] == c.Traced();
        assert out.trace[..n] == out.trace[..n + 1][..n] && out.trace[n] == out.trace[..n + 1][n];
      }
    }
  }

  // ---- whose details the stamps carry ----

  /** The details a successful core leaves behind: none unless it returns some. */
  function CoreDetails(coreReply: Reply): map<string, string>
  {
    if coreReply.Returned? then ScratchDetails(coreReply.args) else map[]
  }

  /** The stamps' details come only from their own hooks. */
  predicate OwnDetailsOnly(trace: seq<Event>) { Stamps(trace) == OwnStamps(trace) }

  /**
   * When the initial args hold no scratch values, every stamp's details come only
   * from its own hook if and only if there is no post hook, or the first one
   * leaves no entry that the core left.
   */
  lemma WrapStampsOwn(c: Command)
    requires c.Answered() && Wrap(c).Finished? && NoScratch(c.Start())
    ensures OwnDetailsOnly(Wrap(c).trace) <==>
      || c.post == []
      || AllNew(CoreDetails(c.coreReply), ScratchDetails(Current(c.AfterCore(), c.postScript[0].reply)))
  {
    ChainStampsOwn(c.pre, c.cmd + ".pre", c.Start(), c.preScript, 0, []);
    StampsSnoc(c.PreRun().trace, CoreRan(c.PreRun().args, c.coreReply));
    ChainStampsFirst(c.post, c.cmd + ".post", c.AfterCore(), c.postScript, c.Traced());
    assert ScratchDetails(c.AfterCore()) == CoreDetails(c.coreReply);
  }

  /** However the post hooks answer, a call that succeeds gives every stamp its own hook's details only. */
  ghost predicate AlwaysOwn(c: Command)
    requires c.Answered()
  {
    forall answers | |c.post| <= |answers| ::
      Wrap(c.(postScript := answers)).Finished? ==> OwnDetailsOnly(Wrap(c.(postScript := answers)).trace)
  }

  /**
   * What a caller can rely on before the post hooks run: that holds if and only if
   * the core leaves no details behind or there is no post hook.
   */
  lemma OwnWhateverHooksAnswer(c: Command)
    requires c.Answered() && c.Proper() && NoScratch(c.Start())
    requires c.PreRun().Finished? && !c.coreReply.Failed?
    ensures AlwaysOwn(c) <==> CoreDetails(c.coreReply) == map[] || c.post == []
  {
    if CoreDetails(c.coreReply) == map[] || c.post == [] {
      forall answers | |c.post| <= |answers| && Wrap(c.(postScript := answers)).Finished?
        ensures OwnDetailsOnly(Wrap(c.(postScript := answers)).trace)
      {
        WrapStampsOwn(c.(postScript := answers));
      }
    } else {
      var silent := seq(|c.post|, _ => Response(false, false, NoChange, 0));
      var quiet := c.(postScript := silent);
      SilentFinishes(c.post, c.cmd + ".post", c.AfterCore(), silent, 0, c.Traced());
      assert Wrap(quiet).Finished?;
      WrapStampsOwn(quiet);
      SomeKept(CoreDetails(c.coreReply));
    }
  }

  /** Handing on any entries at all is not leaving only new ones. */
  lemma SomeKept(given: map<string, string>)
    requires given != map[]
    ensures !AllNew(given, given)
  {
    var key :| key in given;
    assert Kept(given, given, key);
  }

  /** A hook that adds to what it finds is stamped with both. */
  lemma AddedDetailsAreStamped(c: Command, key: string)
    requires c.Answered() && Wrap(c).Finished? && NoScratch(c.Start())
    requires c.post != [] && c.postScript[0].reply.Returned?
    requires Kept(CoreDetails(c.coreReply), ScratchDetails(c.postScript[0].reply.args), key)
    ensures var stamps := Stamps(Wrap(c).trace);
            && |stamps| == |c.pre| + |c.post| && stamps[|c.pre|].appID == c.post[0].appID
            && key in stamps[|c.pre|].details && stamps[|c.pre|].details[key] == CoreDetails(c.coreReply)[key]
            && !OwnDetailsOnly(Wrap(c).trace)
  {
    WrapAddsStamps(c);
    WrapStampsOwn(c);
  }

  /**
   * A first post hook that hands on the core's details, as one that returns the
   * map it was given does, is stamped with them.
   */
  lemma HandedOnDetailsAreStamped(c: Command)
    requires c.Answered() && Wrap(c).Finished? && NoScratch(c.Start())
    requires CoreDetails(c.coreReply) != map[] && c.post != [] && c.postScript[0].reply == Returned(c.AfterCore())
    ensures var stamps := Stamps(Wrap(c).trace);
            && |stamps| == |c.pre| + |c.post|
            && stamps[|c.pre|].appID == c.post[0].appID && stamps[|c.pre|].details == CoreDetails(c.coreReply)
            && !OwnDetailsOnly(Wrap(c).trace)
  {
    WrapAddsStamps(c);
    SomeKept(CoreDetails(c.coreReply));
    WrapStampsOwn(c);
  }
}
