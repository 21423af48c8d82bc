/**
 * pkg/extend: the hook chain (Registry.Run) and the provenance trail it writes
 * (wiremeta.go).
 *
 * What a hook, the clock and the context answer is a script of responses, so
 * every statement holds for all of them; so is the rate limiter's answer in the
 * specification, and Run fills it in from the token bucket. Argument maps are
 * values.
 */
module HookChain {
  import opened HookRegistry
  import TokenBucket
  import Text

  const META_KEY := "__meta"
  const DETAILS_KEY := "__meta_details"
  const REQUIRED_KEY := "__meta_required"
  const ENCODING_KEY := "__meta_encoding"

  datatype Stamp = Stamp(appID: string, primitive: string, version: string, at: int, details: map<string, string>)

  datatype WireMeta = WireMeta(touchedBy: seq<Stamp>, required: seq<string>, encoding: seq<string>)

  const EMPTY_META := WireMeta([], [], [])

  /**
   * An argument value by its in-process type. `decoded` is what a JSON round trip
   * of the value reads as trail metadata (empty when it does not parse).
   */
  datatype Value =
    | Nil
    | Meta(meta: WireMeta)
    | Dict(entries: map<string, string>, decoded: WireMeta)
    | Strings(items: seq<string>)
    | Foreign(raw: string, decoded: WireMeta)

  type Args = map<string, Value>

  function GetMeta(args: Args): WireMeta
  {
    if META_KEY !in args then EMPTY_META
    else match args[META_KEY]
      case Nil => EMPTY_META
      case Meta(m) => m
      case Dict(_, decoded) => decoded
      case Strings(_) => EMPTY_META
      case Foreign(_, decoded) => decoded
  }

  /** The details a hook left for its stamp; only an in-process dictionary counts. */
  function ScratchDetails(args: Args): map<string, string>
  {
    if DETAILS_KEY in args && args[DETAILS_KEY].Dict? then args[DETAILS_KEY].entries else map[]
  }

  function ScratchList(args: Args, key: string): seq<string>
  {
    if key in args && args[key].Strings? then args[key].items else []
  }

  predicate NoScratch(args: Args)
  {
    DETAILS_KEY !in args && REQUIRED_KEY !in args && ENCODING_KEY !in args
  }

  /** The keys the registry keeps for itself. */
  predicate Reserved(key: string)
  {
    key == "__meta" || key == "__meta_details" || key == "__meta_required" || key == "__meta_encoding"
  }

  /** Everything else: what the command and its hooks pass to each other. */
  function Payload(args: Args): Args
  {
    map key | key in args && !Reserved(key) :: args[key]
  }

  /** Trail metadata reads the same in process and after a JSON round trip, in whatever shape it comes back. */
  lemma MetaSurvivesRoundTrip(args: Args, m: WireMeta, entries: map<string, string>, raw: string)
    ensures GetMeta(args["__meta" := Meta(m)]) == m
    ensures GetMeta(args["__meta" := Dict(entries, m)]) == m && GetMeta(args["__meta" := Foreign(raw, m)]) == m
    ensures "__meta" !in args || args["__meta"].Nil? ==> GetMeta(args) == WireMeta([], [], [])
  {
  }

  // ---- appendUnique ----

  function AppendUnique(dst: seq<string>, src: seq<string>): seq<string>
  {
    if src == [] then dst
    else
      var d := AppendUnique(dst, src[..|src| - 1]);
      if src[|src| - 1] in d then d else d + [src[|src| - 1]]
  }

  ghost predicate NoDuplicates(s: seq<string>)
  {
    s == [] || (NoDuplicates(s[..|s| - 1]) && s[|s| - 1] !in s[..|s| - 1])
  }

  /** The old list stays a prefix, exactly the new names are added, and none twice. */
  lemma {:induction false} AppendUniqueSpec(dst: seq<string>, src: seq<string>)
    ensures dst <= AppendUnique(dst, src)
    ensures forall x :: x in AppendUnique(dst, src) <==> x in dst || x in src
    ensures NoDuplicates(dst) ==> NoDuplicates(AppendUnique(dst, src))
  {
    if src != [] {
      var n := |src| - 1;
      AppendUniqueSpec(dst, src[..n]);
      var d := AppendUnique(dst, src[..n]);
      assert src == src[..n] + [src[n]];
      assert (d + [src[n]])[..|d|] == d;
    }
  }

  /** appendUnique with its lookup table. */
  method AppendUniqueLoop(dst: seq<string>, src: seq<string>) returns (out: seq<string>)
    ensures out == AppendUnique(dst, src)
  {
    out := dst;
    var have := set x | x in dst;
    for i := 0 to |src|
      invariant out == AppendUnique(dst, src[..i])
      invariant forall x :: x in have <==> x in out
    {
      assert src[..i + 1][..i] == src[..i];
      if src[i] !in have {
        out := out + [src[i]];
        have := have + {src[i]};
      }
    }
    assert src[..|src|] == src;
  }

  // ---- stamping ----

  /** Moves a hook's scratch values into the trail and clears them. */
  function StampAndConsume(args: Args, e: Extension, point: string, now: int): Args
  {
    var meta := GetMeta(args);
    var stamp := Stamp(e.appID, point, e.version, now, ScratchDetails(args));
    var meta' := WireMeta(
      meta.touchedBy + [stamp],
      AppendUnique(meta.required, ScratchList(args, REQUIRED_KEY)),
      meta.encoding + ScratchList(args, ENCODING_KEY));
    (args - {DETAILS_KEY, REQUIRED_KEY, ENCODING_KEY})[META_KEY := Meta(meta')]
  }

  lemma StampEffect(args: Args, e: Extension, point: string, now: int)
    ensures var args' := StampAndConsume(args, e, point, now);
            var stamp := Stamp(e.appID, point, e.version, now, ScratchDetails(args));
            && NoScratch(args')
            && GetMeta(args').touchedBy == GetMeta(args).touchedBy + [stamp]
            && GetMeta(args').required == AppendUnique(GetMeta(args).required, ScratchList(args, REQUIRED_KEY))
            && GetMeta(args').encoding == GetMeta(args).encoding + ScratchList(args, ENCODING_KEY)
            && Payload(args') == Payload(args)
  {
  }

  // ---- the chain ----

  datatype Reply = Failed(error: string) | NoChange | Returned(args: Args)

  /** What the environment answers around one hook. */
  datatype Response = Response(contextDone: bool, limited: bool, reply: Reply, now: int)

  /** One call made: a hook at a point, or the core. */
  datatype Event =
    | HookRan(ext: Extension, point: string, given: Args, reply: Reply, now: int)
    | CoreRan(given: Args, reply: Reply)

  datatype Why = ContextDone | RateLimited | HookFailed(error: string) | CoreFailed(error: string) | BadCall

  datatype Outcome =
    | Finished(args: Args, trace: seq<Event>)
    | Aborted(args: Args, why: Why, trace: seq<Event>)

  /** What a call leaves as the current args: what it returned, or what it was given. */
  function Current(given: Args, reply: Reply): Args
  {
    if reply.Returned? then reply.args else given
  }

  /** The call a response records. */
  function Called(e: Extension, point: string, current: Args, r: Response): Event
  {
    HookRan(e, point, current, r.reply, r.now)
  }

  /** The args after a hook's response has been stamped. */
  function Stamped(e: Extension, point: string, current: Args, r: Response): Args
  {
    StampAndConsume(Current(current, r.reply), e, point, r.now)
  }

  /** Runs hooks i, i+1, ... of a point on `current`. */
  function RunFrom(hooks: seq<Extension>, point: string, current: Args, script: seq<Response>, i: nat,
                   trace: seq<Event>): Outcome
    requires i <= |hooks| <= |script|
    decreases |hooks| - i
  {
    if i == |hooks| then Finished(current, trace)
    else
      var r := script[i];
      if r.contextDone then Aborted(current, ContextDone, trace)
      else if r.limited then Aborted(current, RateLimited, trace)
      else
        var trace' := trace + [Called(hooks[i], point, current, r)];
        if r.reply.Failed? then Aborted(current, HookFailed(r.reply.error), trace')
        else RunFrom(hooks, point, Stamped(hooks[i], point, current, r), script, i + 1, trace')
  }

  /** What the environment answers around one hook, but for the limiter: it is read at `clock`. */
  datatype Moment = Moment(contextDone: bool, clock: real, reply: Reply, now: int)

  /** The script is the moments with some verdicts of the limiter filled in. */
  ghost predicate FillsIn(script: seq<Response>, moments: seq<Moment>)
  {
    |script| == |moments| && forall k :: 0 <= k < |script| ==> FillsInAt(script[k], moments[k])
  }

  predicate FillsInAt(r: Response, m: Moment)
  {
    r.contextDone == m.contextDone && r.reply == m.reply && r.now == m.now
  }

  /** The calls of the limiter a chain makes from hook i on: one before each dispatch, keyed by the hook's app. */
  function Asked(hooks: seq<Extension>, moments: seq<Moment>, script: seq<Response>, i: nat): seq<TokenBucket.Call>
    requires i <= |hooks| <= |script| && |script| == |moments|
    decreases |hooks| - i
  {
    if i == |hooks| || script[i].contextDone then []
    else
      [TokenBucket.Call(hooks[i].appID, moments[i].clock, !script[i].limited)]
      + if script[i].limited || script[i].reply.Failed? then [] else Asked(hooks, moments, script, i + 1)
  }

  /** A chain to run: the hooks of a point, what it starts from, and the calls made before it. */
  datatype Chain = Chain(hooks: seq<Extension>, point: string, moments: seq<Moment>, args: Args, before: seq<Event>)

  /** How far it got: the args and the calls so far, and the calls of the limiter. */
  datatype Progress = Progress(current: Args, trace: seq<Event>, asked: seq<TokenBucket.Call>)

  ghost predicate Fits(c: Chain, script: seq<Response>)
  {
    |c.hooks| <= |c.moments| && FillsIn(script, c.moments)
  }

  /** With this script the chain continues at hook i from this progress. */
  ghost predicate Continues(c: Chain, script: seq<Response>, i: nat, p: Progress)
    requires Fits(c, script) && i <= |c.hooks|
  {
    && RunFrom(c.hooks, c.point, c.args, script, 0, c.before)
       == RunFrom(c.hooks, c.point, p.current, script, i, p.trace)
    && Asked(c.hooks, c.moments, script, 0) == p.asked + Asked(c.hooks, c.moments, script, i)
  }

  /** So it does with every script that gives hooks 0 to i - 1 the same answers. */
  ghost predicate Reaches(c: Chain, script: seq<Response>, i: nat, p: Progress)
    requires Fits(c, script) && i <= |c.hooks|
  {
    forall s :: Fits(c, s) && s[..i] == script[..i] ==> Continues(c, s, i, p)
  }

  ghost predicate NoneLimited(script: seq<Response>)
  {
    forall k :: 0 <= k < |script| ==> !script[k].limited
  }

  /** The script before the limiter has been asked anything. */
  function Unasked(moments: seq<Moment>): seq<Response>
  {
    seq(|moments|, k requires 0 <= k < |moments| =>
      Response(moments[k].contextDone, false, moments[k].reply, moments[k].now))
  }

  lemma Begins(c: Chain)
    requires |c.hooks| <= |c.moments|
    ensures Fits(c, Unasked(c.moments)) && NoneLimited(Unasked(c.moments))
    ensures Reaches(c, Unasked(c.moments), 0, Progress(c.args, c.before, []))
  {
  }

  /** What a dispatched hook's answer adds. */
  function Advanced(c: Chain, r: Response, i: nat, p: Progress): Progress
    requires i < |c.hooks| <= |c.moments|
  {
    Progress(Stamped(c.hooks[i], c.point, p.current, r),
             p.trace + [Called(c.hooks[i], c.point, p.current, r)],
             p.asked + [TokenBucket.Call(c.hooks[i].appID, c.moments[i].clock, true)])
  }

  lemma {:induction false} ContinuesNext(c: Chain, s: seq<Response>, i: nat, p: Progress)
    requires Fits(c, s) && i < |c.hooks| && Continues(c, s, i, p)
    requires !s[i].contextDone && !s[i].limited && !s[i].reply.Failed?
    ensures Continues(c, s, i + 1, Advanced(c, s[i], i, p))
  {
    var call := TokenBucket.Call(c.hooks[i].appID, c.moments[i].clock, true);
    assert p.asked + ([call] + Asked(c.hooks, c.moments, s, i + 1))
        == p.asked + [call] + Asked(c.hooks, c.moments, s, i + 1);
  }

  /** Answering hook i leaves a script that still reaches it. */
  lemma {:induction false} Answered(c: Chain, script: seq<Response>, i: nat, p: Progress, r: Response)
    requires Fits(c, script) && i < |c.hooks| && Reaches(c, script, i, p) && FillsInAt(r, c.moments[i])
    ensures Fits(c, script[i := r]) && Continues(c, script[i := r], i, p)
    ensures NoneLimited(script) && !r.limited ==> NoneLimited(script[i := r])
    ensures !r.contextDone && !r.limited && !r.reply.Failed? ==>
              Reaches(c, script[i := r], i + 1, Advanced(c, r, i, p))
  {
    var script' := script[i := r];
    assert Fits(c, script') by {
      assert forall k :: 0 <= k < |script| ==> FillsInAt(script[k], c.moments[k]);
    }
    assert script'[..i] == script[..i];
    if !r.contextDone && !r.limited && !r.reply.Failed? {
      forall s | Fits(c, s) && s[..i + 1] == script'[..i + 1]
        ensures Continues(c, s, i + 1, Advanced(c, r, i, p))
      {
        assert s[i] == s[..i + 1][i] == script'[..i + 1][i] == r;
        assert s[..i] == s[..i + 1][..i] == script'[..i + 1][..i] == script[..i];
        ContinuesNext(c, s, i, p);
      }
    }
  }

  /** Where and how a chain that gets to hook i stops there. */
  function StopAt(c: Chain, r: Response, i: nat, p: Progress): Outcome
    requires i < |c.hooks| && (r.contextDone || r.limited || r.reply.Failed?)
  {
    if r.contextDone then Aborted(p.current, ContextDone, p.trace)
    else if r.limited then Aborted(p.current, RateLimited, p.trace)
    else Aborted(p.current, HookFailed(r.reply.error), p.trace + [Called(c.hooks[i], c.point, p.current, r)])
  }

  lemma {:induction false} Stops(c: Chain, script: seq<Response>, i: nat, p: Progress)
    requires Fits(c, script) && i < |c.hooks| && Continues(c, script, i, p)
    requires script[i].contextDone || script[i].limited || script[i].reply.Failed?
    ensures RunFrom(c.hooks, c.point, c.args, script, 0, c.before) == StopAt(c, script[i], i, p)
    ensures Asked(c.hooks, c.moments, script, 0) == p.asked +
      if script[i].contextDone then []
      else [TokenBucket.Call(c.hooks[i].appID, c.moments[i].clock, !script[i].limited)]
  {
  }

  lemma {:induction false} Ends(c: Chain, script: seq<Response>, p: Progress)
    requires Fits(c, script) && Reaches(c, script, |c.hooks|, p)
    ensures RunFrom(c.hooks, c.point, c.args, script, 0, c.before) == Finished(p.current, p.trace)
    ensures Asked(c.hooks, c.moments, script, 0) == p.asked
  {
    assert Continues(c, script, |c.hooks|, p);
  }

  /** The limiter has answered these calls since `was`. */
  ghost predicate Logged(limiter: TokenBucket.RateLimiter?, was: seq<TokenBucket.Call>, asked: seq<TokenBucket.Call>)
    reads limiter
  {
    limiter != null ==> limiter.Valid() && limiter.log == was + asked
  }

  ghost function LogOf(limiter: TokenBucket.RateLimiter?): seq<TokenBucket.Call>
    reads limiter
  {
    if limiter == null then [] else limiter.log
  }

  /** What is settled once hook i has its answer: the chain stops there, or goes on to the next hook. */
  ghost predicate Settled(c: Chain, script: seq<Response>, i: nat, p: Progress, asked: seq<TokenBucket.Call>)
    requires Fits(c, script) && i < |c.hooks|
  {
    var r := script[i];
    if r.contextDone || r.limited || r.reply.Failed? then
      && RunFrom(c.hooks, c.point, c.args, script, 0, c.before) == StopAt(c, r, i, p)
      && Asked(c.hooks, c.moments, script, 0) == asked
    else
      Reaches(c, script, i + 1, Advanced(c, r, i, p)) && asked == Advanced(c, r, i, p).asked
  }

  /** Asks the limiter about hook i, unless the context is done; without a limiter every dispatch is allowed. */
  method Ask(limiter: TokenBucket.RateLimiter?, ghost c: Chain, hook: Extension, m: Moment, ghost i: nat,
             ghost p: Progress, ghost script: seq<Response>, ghost was: seq<TokenBucket.Call>)
    returns (ok: bool, ghost script': seq<Response>, ghost asked: seq<TokenBucket.Call>)
    requires i < |c.hooks| && Fits(c, script) && Reaches(c, script, i, p) && Logged(limiter, was, p.asked)
    requires hook == c.hooks[i] && m == c.moments[i]
    modifies if limiter == null then {} else {limiter}
    ensures Logged(limiter, was, asked)
    ensures Fits(c, script') && script'[i] == Response(m.contextDone, !ok, m.reply, m.now)
    ensures limiter == null && NoneLimited(script) ==> NoneLimited(script')
    ensures Settled(c, script', i, p, asked)
  {
    ok, asked := true, p.asked;
    if !m.contextDone {
      if limiter != null {
        ok := limiter.Allow(hook.appID, m.clock);
      }
      asked := asked + [TokenBucket.Call(hook.appID, m.clock, ok)];
    }
    ghost var r := Response(m.contextDone, !ok, m.reply, m.now);
    Answered(c, script, i, p, r);
    script' := script[i := r];
    if r.contextDone || r.limited || r.reply.Failed? {
      Stops(c, script', i, p);
    }
  }

  /**
   * Registry.Run over a snapshot of the point's hooks; `before` are the calls
   * already made. Without a limiter no hook is limited; with one, each dispatch
   * is preceded by one call of it, and the verdicts are the limiter's.
   */
  method Run(limiter: TokenBucket.RateLimiter?, hooks: seq<Extension>, point: string, args: Args,
             moments: seq<Moment>, before: seq<Event>)
    returns (out: Outcome, ghost script: seq<Response>)
    requires |hooks| <= |moments| && (limiter != null ==> limiter.Valid())
    modifies if limiter == null then {} else {limiter}
    ensures FillsIn(script, moments)
    ensures out == RunFrom(hooks, point, args, script, 0, before)
    ensures limiter == null ==> NoneLimited(script)
    ensures limiter != null ==> limiter.Valid()
    ensures limiter != null ==> limiter.log == old(limiter.log) + Asked(hooks, moments, script, 0)
  {
    var current, trace := args, before;
    ghost var c, was := Chain(hooks, point, moments, args, before), LogOf(limiter);
    ghost var asked: seq<TokenBucket.Call> := [];
    script := Unasked(moments);
    Begins(c);
    for i := 0 to |hooks|
      invariant Fits(c, script) && Logged(limiter, was, asked)
      invariant limiter == null ==> NoneLimited(script)
      invariant Reaches(c, script, i, Progress(current, trace, asked))
    {
      var m := moments[i];
      var ok;
      ok, script, asked := Ask(limiter, c, hooks[i], m, i, Progress(current, trace, asked), script, was);
      if m.contextDone {
        return Aborted(current, ContextDone, trace), script;
      }
      if !ok {
        return Aborted(current, RateLimited, trace), script;
      }
      trace := trace + [HookRan(hooks[i], point, current, m.reply, m.now)];
      if m.reply.Failed? {
        return Aborted(current, HookFailed(m.reply.error), trace), script;
      }
      if m.reply.Returned? {
        current := m.reply.args;
      }
      current := StampAndConsume(current, hooks[i], point, m.now);
    }
    Ends(c, script, Progress(current, trace, asked));
    out := Finished(current, trace);
  }

  /** Every hook from i on hands the trail back as it got it. */
  ghost predicate HandsBack(hooks: seq<Extension>, point: string, current: Args, script: seq<Response>, i: nat)
    requires i <= |hooks| <= |script|
    decreases |hooks| - i
  {
    i < |hooks| && !script[i].reply.Failed? ==>
      && GetMeta(Current(current, script[i].reply)) == GetMeta(current)
      && HandsBack(hooks, point, Stamped(hooks[i], point, current, script[i]), script, i + 1)
  }

  /** The stamp a call leaves, from what was current when it returned. */
  function StampOf(ev: Event): Stamp
    requires ev.HookRan?
  {
    Stamp(ev.ext.appID, ev.point, ev.ext.version, ev.now, ScratchDetails(Current(ev.given, ev.reply)))
  }

  /** The entry is among those that were there already. */
  predicate Kept(given: map<string, string>, left: map<string, string>, key: string)
  {
    key in left && key in given && given[key] == left[key]
  }

  /** None of the entries left was there already. */
  predicate AllNew(given: map<string, string>, left: map<string, string>)
  {
    forall key :: key in left ==> !Kept(given, left, key)
  }

  /** The details a call leaves that it was not given. */
  function OwnDetails(ev: Event): map<string, string>
    requires ev.HookRan?
  {
    var given, left := ScratchDetails(ev.given), ScratchDetails(Current(ev.given, ev.reply));
    map key | key in left && !Kept(given, left, key) :: left[key]
  }

  /** The stamp whose details come only from the hook itself. */
  function OwnStamp(ev: Event): Stamp
    requires ev.HookRan?
  {
    Stamp(ev.ext.appID, ev.point, ev.ext.version, ev.now, OwnDetails(ev))
  }

  /** The stamps of a trace, in order; the core leaves none. */
  function Stamps(trace: seq<Event>): seq<Stamp>
  {
    if trace == [] then []
    else if trace[|trace| - 1].HookRan? then Stamps(trace[..|trace| - 1]) + [StampOf(trace[|trace| - 1])]
    else Stamps(trace[..|trace| - 1])
  }

  function OwnStamps(trace: seq<Event>): seq<Stamp>
  {
    if trace == [] then []
    else if trace[|trace| - 1].HookRan? then OwnStamps(trace[..|trace| - 1]) + [OwnStamp(trace[|trace| - 1])]
    else OwnStamps(trace[..|trace| - 1])
  }

  lemma StampsSnoc(trace: seq<Event>, ev: Event)
    ensures Stamps(trace + [ev]) == if ev.HookRan? then Stamps(trace) + [StampOf(ev)] else Stamps(trace)
    ensures OwnStamps(trace + [ev]) == if ev.HookRan? then OwnStamps(trace) + [OwnStamp(ev)] else OwnStamps(trace)
  {
    assert (trace + [ev])[..|trace|] == trace;
  }

  /** What a trace shows of the order of calls. */
  datatype Label = Hook(ext: Extension, point: string) | Core

  function LabelOf(ev: Event): Label
  {
    if ev.HookRan? then Hook(ev.ext, ev.point) else Core
  }

  function Labels(trace: seq<Event>): seq<Label>
  {
    if trace == [] then [] else Labels(trace[..|trace| - 1]) + [LabelOf(trace[|trace| - 1])]
  }

  /** Hooks i, i+1, ... of a point, in registry order. */
  function HookLabels(hooks: seq<Extension>, point: string, i: nat): seq<Label>
    requires i <= |hooks|
    decreases |hooks| - i
  {
    if i == |hooks| then [] else [Hook(hooks[i], point)] + HookLabels(hooks, point, i + 1)
  }

  lemma LabelsSnoc(trace: seq<Event>, ev: Event)
    ensures Labels(trace + [ev]) == Labels(trace) + [LabelOf(ev)]
  {
    assert (trace + [ev])[..|trace|] == trace;
  }

  /** A chain that finishes called every hook once, in registry order. */
  lemma {:induction false} ChainRunsInOrder(hooks: seq<Extension>, point: string, current: Args,
                                            script: seq<Response>, i: nat, trace: seq<Event>)
    requires i <= |hooks| <= |script|
    requires RunFrom(hooks, point, current, script, i, trace).Finished?
    ensures Labels(RunFrom(hooks, point, current, script, i, trace).trace)
         == Labels(trace) + HookLabels(hooks, point, i)
    decreases |hooks| - i
  {
    if i < |hooks| {
      var r := script[i];
      var ev := Called(hooks[i], point, current, r);
      ChainRunsInOrder(hooks, point, Stamped(hooks[i], point, current, r), script, i + 1, trace + [ev]);
      LabelsSnoc(trace, ev);
    }
  }

  /** Whatever a chain's outcome, it only adds hook calls to the trace. */
  lemma {:induction false} ChainAddsHooksOnly(hooks: seq<Extension>, point: string, current: Args,
                                              script: seq<Response>, i: nat, trace: seq<Event>)
    requires i <= |hooks| <= |script|
    ensures CoreRuns(RunFrom(hooks, point, current, script, i, trace).trace) == CoreRuns(trace)
    decreases |hooks| - i
  {
    if i < |hooks| && !script[i].contextDone && !script[i].limited {
      var r := script[i];
      var ev := Called(hooks[i], point, current, r);
      assert (trace + [ev])[..|trace|] == trace;
      if !r.reply.Failed? {
        ChainAddsHooksOnly(hooks, point, Stamped(hooks[i], point, current, r), script, i + 1, trace + [ev]);
      }
    }
  }

  /** How often the core ran. */
  function CoreRuns(trace: seq<Event>): nat
  {
    if trace == [] then 0 else CoreRuns(trace[..|trace| - 1]) + (if trace[|trace| - 1].CoreRan? then 1 else 0)
  }

  /** One stamped response adds its stamp to the trail and no repeat to Required. */
  lemma TrailStep(e: Extension, point: string, current: Args, r: Response, trace: seq<Event>, trail: seq<Stamp>)
    requires GetMeta(Current(current, r.reply)) == GetMeta(current)
    requires GetMeta(current).touchedBy == trail + Stamps(trace)
    ensures var next := Stamped(e, point, current, r);
            && GetMeta(next).touchedBy == trail + Stamps(trace + [Called(e, point, current, r)])
            && (NoDuplicates(GetMeta(current).required) ==> NoDuplicates(GetMeta(next).required))
  {
    var held := Current(current, r.reply);
    StampEffect(held, e, point, r.now);
    StampsSnoc(trace, Called(e, point, current, r));
    AppendUniqueSpec(GetMeta(held).required, ScratchList(held, REQUIRED_KEY));
  }

  /**
   * The trail after a finished chain is the trail before it plus one stamp per
   * call, and Required stays free of repeats.
   */
  lemma {:induction false} ChainTrail(hooks: seq<Extension>, point: string, current: Args, script: seq<Response>,
                                      i: nat, trace: seq<Event>, trail: seq<Stamp>)
    requires i <= |hooks| <= |script|
    requires HandsBack(hooks, point, current, script, i)
    requires RunFrom(hooks, point, current, script, i, trace).Finished?
    requires GetMeta(current).touchedBy == trail + Stamps(trace)
    ensures var out := RunFrom(hooks, point, current, script, i, trace);
            && GetMeta(out.args).touchedBy == trail + Stamps(out.trace)
            && (NoDuplicates(GetMeta(current).required) ==> NoDuplicates(GetMeta(out.args).required))
    decreases |hooks| - i
  {
    if i < |hooks| {
      var r := script[i];
      var ev := Called(hooks[i], point, current, r);
      TrailStep(hooks[i], point, current, r, trace, trail);
      ChainTrail(hooks, point, Stamped(hooks[i], point, current, r), script, i + 1, trace + [ev], trail);
    }
  }

  /** In a chain started without scratch values every stamp's details are its own hook's. */
  lemma {:induction false} ChainStampsOwn(hooks: seq<Extension>, point: string, current: Args,
                                          script: seq<Response>, i: nat, trace: seq<Event>)
    requires i <= |hooks| <= |script| && NoScratch(current)
    requires RunFrom(hooks, point, current, script, i, trace).Finished?
    requires Stamps(trace) == OwnStamps(trace)
    ensures var out := RunFrom(hooks, point, current, script, i, trace);
            NoScratch(out.args) && Stamps(out.trace) == OwnStamps(out.trace)
    decreases |hooks| - i
  {
    if i < |hooks| {
      var r := script[i];
      var ev := Called(hooks[i], point, current, r);
      StampsSnoc(trace, ev);
      StampAgrees(ev);
      StampEffect(Current(current, r.reply), hooks[i], point, r.now);
      ChainStampsOwn(hooks, point, Stamped(hooks[i], point, current, r), script, i + 1, trace + [ev]);
    }
  }

  // ---- whose details ----

  lemma StampAgrees(ev: Event)
    requires ev.HookRan?
    ensures StampOf(ev) == OwnStamp(ev) <==>
      AllNew(ScratchDetails(ev.given), ScratchDetails(Current(ev.given, ev.reply)))
  {
    var given, left := ScratchDetails(ev.given), ScratchDetails(Current(ev.given, ev.reply));
    forall key | Kept(given, left, key) ensures key !in OwnDetails(ev) {
    }
    if AllNew(given, left) {
      assert OwnDetails(ev) == left;
    }
  }

  /** Only the first hook of a chain can be stamped with details that were there before it. */
  lemma ChainStampsFirst(hooks: seq<Extension>, point: string, current: Args, script: seq<Response>, trace: seq<Event>)
    requires |hooks| <= |script|
    requires RunFrom(hooks, point, current, script, 0, trace).Finished?
    requires Stamps(trace) == OwnStamps(trace)
    ensures var out := RunFrom(hooks, point, current, script, 0, trace);
            Stamps(out.trace) == OwnStamps(out.trace) <==>
              hooks == [] || AllNew(ScratchDetails(current), ScratchDetails(Current(current, script[0].reply)))
  {
    if hooks != [] {
      var r := script[0];
      var ev := Called(hooks[0], point, current, r);
      var next := Stamped(hooks[0], point, current, r);
      StampsSnoc(trace, ev);
      StampAgrees(ev);
      var out := RunFrom(hooks, point, current, script, 0, trace);
      assert out == RunFrom(hooks, point, next, script, 1, trace + [ev]);
      if StampOf(ev) == OwnStamp(ev) {
        StampEffect(Current(current, r.reply), hooks[0], point, r.now);
        ChainStampsOwn(hooks, point, next, script, 1, trace + [ev]);
      } else {
        assert (Stamps(trace) + [StampOf(ev)])[|Stamps(trace)|] == StampOf(ev);
        assert (OwnStamps(trace) + [OwnStamp(ev)])[|Stamps(trace)|] == OwnStamp(ev);
        StaysMisattributed(hooks, point, next, script, 1, trace + [ev]);
      }
    }
  }

  /** The trace holds as many stamps as own stamps, and some differ. */
  ghost predicate Misattributed(trace: seq<Event>)
  {
    |Stamps(trace)| == |OwnStamps(trace)| && Stamps(trace) != OwnStamps(trace)
  }

  lemma MisattributedSnoc(trace: seq<Event>, ev: Event)
    requires Misattributed(trace) && ev.HookRan?
    ensures Misattributed(trace + [ev])
  {
    StampsSnoc(trace, ev);
    var a, b := Stamps(trace), OwnStamps(trace);
    assert (a + [StampOf(ev)])[..|a|] == a && (b + [OwnStamp(ev)])[..|b|] == b;
  }

  /** A wrong stamp stays wrong in every longer trace. */
  lemma {:induction false} StaysMisattributed(hooks: seq<Extension>, point: string, current: Args,
                                              script: seq<Response>, i: nat, trace: seq<Event>)
    requires i <= |hooks| <= |script| && Misattributed(trace)
    ensures Misattributed(RunFrom(hooks, point, current, script, i, trace).trace)
    decreases |hooks| - i
  {
    if i < |hooks| && !script[i].contextDone && !script[i].limited {
      var ev := Called(hooks[i], point, current, script[i]);
      MisattributedSnoc(trace, ev);
      if !script[i].reply.Failed? {
        StaysMisattributed(hooks, point, Stamped(hooks[i], point, current, script[i]), script, i + 1, trace + [ev]);
      }
    }
  }

  // ---- stamps by position ----

  /** The stamp names this hook of the point, and when it returned. */
  predicate MadeBy(stamp: Stamp, e: Extension, point: string, r: Response)
  {
    stamp.appID == e.appID && stamp.primitive == point && stamp.version == e.version && stamp.at == r.now
  }

  /** The stamps are those before, and then one by each of hooks i, i+1, ... in registry order. */
  ghost predicate AddsStamps(hooks: seq<Extension>, point: string, script: seq<Response>, i: nat,
                             stamps: seq<Stamp>, stamps': seq<Stamp>)
    requires i <= |hooks| <= |script|
  {
    && |stamps'| == |stamps| + |hooks| - i
    && stamps'[..|stamps|] == stamps
    && forall k :: |stamps| <= k < |stamps'| ==>
         MadeBy(stamps'[k], hooks[k - |stamps| + i], point, script[k - |stamps| + i])
  }

  lemma {:induction false} AddsStampsFirst(hooks: seq<Extension>, point: string, script: seq<Response>, i: nat,
                                           stamps: seq<Stamp>, stamp: Stamp, stamps': seq<Stamp>)
    requires i < |hooks| <= |script| && MadeBy(stamp, hooks[i], point, script[i])
    requires AddsStamps(hooks, point, script, i + 1, stamps + [stamp], stamps')
    ensures AddsStamps(hooks, point, script, i, stamps, stamps') && stamps'[|stamps|] == stamp
  {
    assert stamps'[|stamps|] == stamps'[..|stamps| + 1][|stamps|];
    assert stamps'[..|stamps|] == stamps'[..|stamps| + 1][..|stamps|];
  }

  /** A finished chain adds one stamp per hook, in registry order; the first is made of what its hook left. */
  lemma {:induction false} ChainStampsInOrder(hooks: seq<Extension>, point: string, current: Args,
                                              script: seq<Response>, i: nat, trace: seq<Event>)
    requires i <= |hooks| <= |script|
    requires RunFrom(hooks, point, current, script, i, trace).Finished?
    ensures var stamps := Stamps(RunFrom(hooks, point, current, script, i, trace).trace);
            && AddsStamps(hooks, point, script, i, Stamps(trace), stamps)
            && (i < |hooks| ==> stamps[|Stamps(trace)|] == StampOf(Called(hooks[i], point, current, script[i])))
    decreases |hooks| - i
  {
    if i < |hooks| {
      var r := script[i];
      var ev := Called(hooks[i], point, current, r);
      var out := RunFrom(hooks, point, current, script, i, trace);
      StampsSnoc(trace, ev);
      ChainStampsInOrder(hooks, point, Stamped(hooks[i], point, current, r), script, i + 1, trace + [ev]);
      AddsStampsFirst(hooks, point, script, i, Stamps(trace), StampOf(ev), Stamps(out.trace));
    }
  }

  /** Hooks that change nothing always let a chain finish. */
  lemma {:induction false} SilentFinishes(hooks: seq<Extension>, point: string, current: Args,
                                          script: seq<Response>, i: nat, trace: seq<Event>)
    requires i <= |hooks| <= |script|
    requires forall k :: 0 <= k < |script| ==> script[k] == Response(false, false, NoChange, 0)
    ensures RunFrom(hooks, point, current, script, i, trace).Finished?
    decreases |hooks| - i
  {
    if i < |hooks| {
      var ev := Called(hooks[i], point, current, script[i]);
      SilentFinishes(hooks, point, Stamped(hooks[i], point, current, script[i]), script, i + 1, trace + [ev]);
    }
  }

  // ---- how a chain ends, and what it passes on ----

  /** The chain goes on to the next hook. */
  predicate GoesOn(r: Response)
  {
    !r.contextDone && !r.limited && !r.reply.Failed?
  }

  /** The first of hooks i to n - 1 the chain does not go on from, or n. */
  function StopIndex(script: seq<Response>, i: nat, n: nat): (k: nat)
    requires i <= n <= |script|
    ensures i <= k <= n && (k < n ==> !GoesOn(script[k]))
    ensures forall j :: i <= j < k ==> GoesOn(script[j])
    decreases n - i
  {
    if i < n && GoesOn(script[i]) then StopIndex(script, i + 1, n) else i
  }

  /** What the last of hooks i to k - 1 that returned a map left, or what there was before them. */
  function Left(script: seq<Response>, i: nat, k: nat, before: Args): Args
    requires i <= k <= |script|
    decreases k - i
  {
    if k == i then before
    else if script[k - 1].reply.Returned? then script[k - 1].reply.args
    else Left(script, i, k - 1, before)
  }

  /** Why a chain stops at this response. */
  function WhyStopped(r: Response): Why
    requires !GoesOn(r)
  {
    if r.contextDone then ContextDone else if r.limited then RateLimited else HookFailed(r.reply.error)
  }

  /** The call of hook j, on the payload that was left for it. */
  predicate CallOf(ev: Event, hooks: seq<Extension>, point: string, before: Args, script: seq<Response>, i: nat, j: nat)
    requires i <= j < |hooks| <= |script|
  {
    && ev.HookRan? && ev.ext == hooks[j] && ev.point == point
    && ev.reply == script[j].reply && ev.now == script[j].now
    && Payload(ev.given) == Payload(Left(script, i, j, before))
  }

  /** How many of hooks i to n - 1 are called: those gone on from, and one that fails. */
  function CallsMade(script: seq<Response>, i: nat, n: nat): nat
    requires i <= n <= |script|
  {
    var k := StopIndex(script, i, n);
    k - i + if k < n && !script[k].contextDone && !script[k].limited then 1 else 0
  }

  /** The calls are those before, and then one of each of hooks i, i+1, ... that is reached. */
  ghost predicate MakesCalls(hooks: seq<Extension>, point: string, before: Args, script: seq<Response>, i: nat,
                             trace: seq<Event>, trace': seq<Event>)
    requires i <= |hooks| <= |script|
  {
    && |trace'| == |trace| + CallsMade(script, i, |hooks|)
    && trace'[..|trace|] == trace
    && forall m :: |trace| <= m < |trace'| ==> CallOf(trace'[m], hooks, point, before, script, i, m - |trace| + i)
  }

  /** What is left when the first hook's answer is part of what was before. */
  lemma {:induction false} LeftStep(script: seq<Response>, i: nat, k: nat, before: Args, next: Args)
    requires i < k <= |script|
    requires Payload(next) == Payload(if script[i].reply.Returned? then script[i].reply.args else before)
    ensures Payload(Left(script, i + 1, k, next)) == Payload(Left(script, i, k, before))
    decreases k
  {
    if k > i + 1 && !script[k - 1].reply.Returned? {
      LeftStep(script, i, k - 1, before, next);
    }
  }

  lemma {:induction false} MakesCallsFirst(hooks: seq<Extension>, point: string, before: Args, script: seq<Response>,
                                           i: nat, trace: seq<Event>, ev: Event, next: Args, trace': seq<Event>)
    requires i < |hooks| <= |script| && GoesOn(script[i])
    requires Payload(next) == Payload(if script[i].reply.Returned? then script[i].reply.args else before)
    requires CallOf(ev, hooks, point, before, script, i, i)
    requires MakesCalls(hooks, point, next, script, i + 1, trace + [ev], trace')
    ensures MakesCalls(hooks, point, before, script, i, trace, trace')
  {
    assert trace'[..|trace|] == trace'[..|trace| + 1][..|trace|];
    assert trace'[|trace|] == trace'[..|trace| + 1][|trace|];
    forall m | |trace| < m < |trace'| ensures CallOf(trace'[m], hooks, point, before, script, i, m - |trace| + i) {
      LeftStep(script, i, m - |trace| + i, before, next);
    }
  }

  /**
   * Of any chain: it finishes if and only if every hook is gone on from, and
   * otherwise stops at the first that is not, for its reason. Outside the reserved
   * keys the args it ends with are exactly what the last hook that returned a map
   * left, or the initial ones; and each hook is given exactly that.
   */
  lemma {:induction false} ChainPassesOn(hooks: seq<Extension>, point: string, current: Args, script: seq<Response>,
                                         i: nat, trace: seq<Event>)
    requires i <= |hooks| <= |script|
    ensures var out, k := RunFrom(hooks, point, current, script, i, trace), StopIndex(script, i, |hooks|);
            && (out.Finished? <==> k == |hooks|)
            && (k < |hooks| ==> out.why == WhyStopped(script[k]))
            && Payload(out.args) == Payload(Left(script, i, k, current))
            && MakesCalls(hooks, point, current, script, i, trace, out.trace)
    decreases |hooks| - i
  {
    if i < |hooks| {
      var r := script[i];
      var ev := Called(hooks[i], point, current, r);
      if GoesOn(r) {
        var next := Stamped(hooks[i], point, current, r);
        StampEffect(Current(current, r.reply), hooks[i], point, r.now);
        ChainPassesOn(hooks, point, next, script, i + 1, trace + [ev]);
        var out := RunFrom(hooks, point, current, script, i, trace);
        LeftStep(script, i, StopIndex(script, i, |hooks|), current, next);
        MakesCallsFirst(hooks, point, current, script, i, trace, ev, next, out.trace);
      }
    }
  }

  /** The details a stamp carries are what its call left under their key as an in-process dictionary, and else none. */
  lemma StampCarriesDetails(ev: Event)
    requires ev.HookRan?
    ensures var left := if ev.reply.Returned? then ev.reply.args else ev.given;
            StampOf(ev).details ==
              if "__meta_details" in left && left["__meta_details"].Dict? then left["__meta_details"].entries else map[]
  {
  }

  // ---- labels and required names ----

  /** The strings a call leaves under a key for the registry to take. */
  function LeftUnder(ev: Event, key: string): seq<string>
  {
    var left := Current(ev.given, ev.reply);
    if ev.HookRan? && key in left && left[key].Strings? then left[key].items else []
  }

  /** Those of a trace, in order. */
  function AllLeftUnder(trace: seq<Event>, key: string): seq<string>
  {
    if trace == [] then [] else AllLeftUnder(trace[..|trace| - 1], key) + LeftUnder(trace[|trace| - 1], key)
  }

  lemma AllLeftSnoc(trace: seq<Event>, ev: Event, key: string)
    ensures AllLeftUnder(trace + [ev], key) == AllLeftUnder(trace, key) + LeftUnder(ev, key)
  {
    assert (trace + [ev])[..|trace|] == trace;
  }

  /** The metadata holds the initial labels and then each hook's, and requires exactly the initial names and theirs. */
  ghost predicate Labelled(m: WireMeta, initial: WireMeta, trace: seq<Event>)
  {
    && m.encoding == initial.encoding + AllLeftUnder(trace, "__meta_encoding")
    && initial.required <= m.required
    && forall x :: x in m.required <==> x in initial.required || x in AllLeftUnder(trace, "__meta_required")
  }

  lemma {:induction false} LabelStep(e: Extension, point: string, current: Args, r: Response, trace: seq<Event>,
                                     initial: WireMeta)
    requires GetMeta(Current(current, r.reply)) == GetMeta(current) && Labelled(GetMeta(current), initial, trace)
    ensures Labelled(GetMeta(Stamped(e, point, current, r)), initial, trace + [Called(e, point, current, r)])
  {
    var held, ev := Current(current, r.reply), Called(e, point, current, r);
    StampEffect(held, e, point, r.now);
    AllLeftSnoc(trace, ev, "__meta_encoding");
    AllLeftSnoc(trace, ev, "__meta_required");
    AppendUniqueSpec(GetMeta(held).required, ScratchList(held, REQUIRED_KEY));
    Text.Associate(initial.encoding, AllLeftUnder(trace, "__meta_encoding"), LeftUnder(ev, "__meta_encoding"));
  }

  /** For hooks that hand the meta back, labels accumulate in order and required names are exactly those asked for. */
  lemma {:induction false} ChainLabels(hooks: seq<Extension>, point: string, current: Args, script: seq<Response>,
                                       i: nat, trace: seq<Event>, initial: WireMeta)
    requires i <= |hooks| <= |script| && HandsBack(hooks, point, current, script, i)
    requires RunFrom(hooks, point, current, script, i, trace).Finished?
    requires Labelled(GetMeta(current), initial, trace)
    ensures var out := RunFrom(hooks, point, current, script, i, trace);
            Labelled(GetMeta(out.args), initial, out.trace)
    decreases |hooks| - i
  {
    if i < |hooks| {
      var r := script[i];
      LabelStep(hooks[i], point, current, r, trace, initial);
      ChainLabels(hooks, point, Stamped(hooks[i], point, current, r), script, i + 1,
                  trace + [Called(hooks[i], point, current, r)], initial);
    }
  }
}
