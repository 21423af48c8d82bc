/**
 * plugin/appstore/supervisor.go: the supervise loop of one app (superviseOne),
 * with its restart and verification ramps, on the app's crash record.
 * Times and durations are nanoseconds.
 */
module SuperviseLoop {
  import opened Backoff
  import opened Seqs
  import opened CrashLoop

  const MAX_VERIFY_FAILS: int := 10
  const MAX_BACKOFF: int := 30 * SECOND

  // ---- the restart ramp ----

  /** From the second step on, any five waits of the restart ramp fill the crash window. */
  lemma {:induction false} RestartRampFloor(k: nat)
    ensures k >= 1 ==> Ramp(SECOND, MAX_BACKOFF, k) >= 2 * SECOND
    ensures k >= 2 ==> Ramp(SECOND, MAX_BACKOFF, k) >= 4 * SECOND
    ensures k >= 3 ==> Ramp(SECOND, MAX_BACKOFF, k) >= 8 * SECOND
    ensures k >= 4 ==> Ramp(SECOND, MAX_BACKOFF, k) >= 16 * SECOND
    ensures k >= 5 ==> Ramp(SECOND, MAX_BACKOFF, k) == 30 * SECOND
    ensures SECOND <= Ramp(SECOND, MAX_BACKOFF, k) <= 30 * SECOND
  {
    if k > 0 {
      RestartRampFloor(k - 1);
      assert k == 1 ==> Ramp(SECOND, MAX_BACKOFF, 0) == SECOND;
    }
  }

  /** Each exit comes at least the restart wait after the one before. */
  ghost predicate Spaced(exits: seq<int>)
  {
    |exits| <= 1 ||
    (Spaced(exits[..|exits| - 1])
     && exits[|exits| - 1] - exits[|exits| - 2] >= Ramp(SECOND, MAX_BACKOFF, |exits| - 2))
  }

  lemma {:induction false} SpacedAt(exits: seq<int>, k: nat)
    requires Spaced(exits) && k + 1 < |exits|
    ensures exits[k + 1] - exits[k] >= Ramp(SECOND, MAX_BACKOFF, k)
  {
    if k + 2 < |exits| {
      SpacedAt(exits[..|exits| - 1], k);
    }
  }

  /** Restart waits keep every six exits after the first six from being a burst. */
  lemma {:induction false} SpacedBursts(exits: seq<int>)
    requires Spaced(exits)
    ensures Looping(exits) <==> |exits| >= 6 && exits[5] - exits[0] < CRASH_LOOP_WINDOW
  {
    forall i | 1 <= i < |exits| - MAX_CRASHES_IN_WINDOW ensures !Burst(exits, i) {
      forall k | i <= k < i + 5 ensures exits[k + 1] - exits[k] >= Ramp(SECOND, MAX_BACKOFF, k) {
        SpacedAt(exits, k);
      }
      RestartRampFloor(i);
      RestartRampFloor(i + 1);
      RestartRampFloor(i + 2);
      RestartRampFloor(i + 3);
      RestartRampFloor(i + 4);
      assert exits[i + 1] - exits[i] >= 2 * SECOND;
      assert exits[i + 2] - exits[i + 1] >= 4 * SECOND;
      assert exits[i + 3] - exits[i + 2] >= 8 * SECOND;
      assert exits[i + 4] - exits[i + 3] >= 16 * SECOND;
      assert exits[i + 5] - exits[i + 4] >= 30 * SECOND;
    }
    if |exits| >= 6 {
      assert Burst(exits, 0) <==> exits[5] - exits[0] < CRASH_LOOP_WINDOW;
    }
  }

  // ---- the loop, turn by turn ----

  /**
   * One turn of the loop, as the environment decides it. Durations are how long
   * each stage took; waits are given by how far they overshot their timer.
   */
  datatype Turn =
    | ContextDone
    | VerifyFailed(checking: nat, doneWhileWaiting: bool, overshoot: nat)
    | Exited(checking: nat, running: nat, doneAtExit: bool, reinstalled: bool, doneWhileWaiting: bool, overshoot: nat)

  datatype Outcome = Watching | Canceled | CrashLooped | VerifyCapped

  /** The loop's local variables, with the clock. */
  datatype Timers = Timers(now: int, backoff: int, verifyBackoff: int, verifyFails: nat)

  /** The app's record as the loop found it. */
  datatype Before = Before(prior: seq<int>, marked: bool)

  /** Where the loop is: the exits it recorded, and its variables. */
  datatype Watch = Watch(outcome: Outcome, exits: seq<int>, t: Timers)

  function Begun(start: int): Watch
  {
    Watch(Watching, [], Timers(start, SECOND, SECOND, 0))
  }

  /** With the crashes already on record, these exits spend the restart budget. */
  ghost predicate Spent(b: Before, exits: seq<int>)
  {
    exits != [] && (b.marked || Looping(b.prior + exits))
  }

  /** The verification failed: counted, capped, or retried after its own backoff. */
  function VerifyFails(s: Watch, checking: nat, done: bool, overshoot: nat): Watch
  {
    var t := s.t.(now := s.t.now + checking, verifyFails := s.t.verifyFails + 1);
    if t.verifyFails >= MAX_VERIFY_FAILS then s.(outcome := VerifyCapped, t := t)
    else if done then s.(outcome := Canceled, t := t)
    else s.(t := t.(now := t.now + t.verifyBackoff + overshoot,
                    verifyBackoff := NextBackoff(t.verifyBackoff, MAX_BACKOFF)))
  }

  /** The timers after the wait that follows a crash. */
  function Waited(t: Timers, overshoot: nat): Timers
  {
    t.(now := t.now + t.backoff + overshoot, backoff := NextBackoff(t.backoff, MAX_BACKOFF))
  }

  /** The exit was a crash: recorded, and then the end, or the restart wait. */
  ghost function Crashes(b: Before, s: Watch, done: bool, overshoot: nat): Watch
  {
    var s' := s.(exits := s.exits + [s.t.now]);
    if Spent(b, s'.exits) then s'.(outcome := CrashLooped)
    else if done then s'.(outcome := Canceled)
    else s'.(t := Waited(s.t, overshoot))
  }

  /** The timers when the process has exited: a verification passed first. */
  function AtExit(t: Timers, checking: nat, running: nat): Timers
  {
    t.(now := t.now + checking + running, verifyFails := 0, verifyBackoff := SECOND)
  }

  /** The install was replaced: not a crash; one rescan is waited for and the restart ramp starts over. */
  function Reinstalls(s: Watch, rescanInterval: nat, done: bool, overshoot: nat): Watch
  {
    if done then s.(outcome := Canceled)
    else s.(t := s.t.(now := s.t.now + rescanInterval + SECOND + overshoot, backoff := SECOND))
  }

  /** The process exited: a cancellation, a replaced install, or a crash. */
  ghost function Exits(b: Before, rescanInterval: nat, s: Watch, turn: Turn): Watch
    requires turn.Exited?
  {
    var s' := s.(t := AtExit(s.t, turn.checking, turn.running));
    if turn.doneAtExit then s'.(outcome := Canceled)
    else if turn.reinstalled then Reinstalls(s', rescanInterval, turn.doneWhileWaiting, turn.overshoot)
    else Crashes(b, s', turn.doneWhileWaiting, turn.overshoot)
  }

  /** One turn. */
  ghost function Turned(b: Before, rescanInterval: nat, s: Watch, turn: Turn): Watch
  {
    match turn
    case ContextDone => s.(outcome := Canceled)
    case VerifyFailed(checking, done, overshoot) => VerifyFails(s, checking, done, overshoot)
    case Exited(_, _, _, _, _, _) => Exits(b, rescanInterval, s, turn)
  }

  /** The loop after the first n turns of a script; once it has ended it takes no more. */
  ghost function Watched(b: Before, start: int, rescanInterval: nat, script: seq<Turn>, n: nat): Watch
    requires n <= |script|
  {
    if n == 0 then Begun(start)
    else
      var s := Watched(b, start, rescanInterval, script, n - 1);
      if s.outcome.Watching? then Turned(b, rescanInterval, s, script[n - 1]) else s
  }

  /** How many of the first n turns the loop takes. */
  ghost function Used(b: Before, start: int, rescanInterval: nat, script: seq<Turn>, n: nat): (used: nat)
    requires n <= |script|
    ensures used <= n
  {
    if n == 0 then 0
    else if Watched(b, start, rescanInterval, script, n - 1).outcome.Watching? then n
    else Used(b, start, rescanInterval, script, n - 1)
  }

  lemma {:induction false} EndedStays(b: Before, start: int, rescanInterval: nat, script: seq<Turn>, n: nat, m: nat)
    requires n <= m <= |script| && !Watched(b, start, rescanInterval, script, n).outcome.Watching?
    ensures Watched(b, start, rescanInterval, script, m) == Watched(b, start, rescanInterval, script, n)
    ensures Used(b, start, rescanInterval, script, m) == Used(b, start, rescanInterval, script, n)
    decreases m
  {
    if n < m {
      EndedStays(b, start, rescanInterval, script, n, m - 1);
    }
  }

  // ---- the loop on the crash table ----

  ghost function Found(table: CrashTable, id: string): Before
    reads table
  {
    Before(table.History(id), id in table.marked)
  }

  /** What is on the app's record: what the loop found, its exits, and the mark of the verification cap. */
  ghost function OnRecord(b: Before, s: Watch): Before
  {
    Before(b.prior + s.exits, b.marked || s.outcome.VerifyCapped?)
  }

  /** The verification failed: count it, give up at the cap, or wait and retry. */
  method AfterVerifyFail(table: CrashTable, id: string, s: Watch, turn: Turn, ghost b: Before) returns (s': Watch)
    requires turn.VerifyFailed? && s.outcome.Watching?
    requires table.Valid() && Found(table, id) == OnRecord(b, s)
    modifies table
    ensures s' == VerifyFails(s, turn.checking, turn.doneWhileWaiting, turn.overshoot)
    ensures table.Valid() && Found(table, id) == OnRecord(b, s')
  {
    var t := s.t.(now := s.t.now + turn.checking, verifyFails := s.t.verifyFails + 1);
    if t.verifyFails >= MAX_VERIFY_FAILS {
      table.MarkSuspended(id);
      return s.(outcome := VerifyCapped, t := t);
    }
    if turn.doneWhileWaiting {
      return s.(outcome := Canceled, t := t);
    }
    t := t.(now := t.now + t.verifyBackoff + turn.overshoot);
    t := t.(verifyBackoff := NextBackoff(t.verifyBackoff, MAX_BACKOFF));
    s' := s.(t := t);
  }

  lemma {:induction false} ExitsSnoc(prior: seq<int>, exits: seq<int>, now: int)
    ensures prior + exits + [now] == prior + (exits + [now])
  {
  }

  /** Records one more exit, and says whether the restart budget is spent. */
  method RecordExit(table: CrashTable, id: string, now: int, ghost b: Before, ghost exits: seq<int>)
    returns (suspended: bool)
    requires table.Valid() && Found(table, id) == Before(b.prior + exits, b.marked)
    requires NotAfter(b.prior + exits, now)
    modifies table
    ensures table.Valid() && Found(table, id) == Before(b.prior + (exits + [now]), b.marked)
    ensures suspended <==> Spent(b, exits + [now])
  {
    ExitsSnoc(b.prior, exits, now);
    suspended := table.RecordCrash(id, now);
  }

  /** The exit was a crash: record it, then give up or wait out the backoff. */
  method CountCrash(table: CrashTable, id: string, s: Watch, turn: Turn, ghost b: Before) returns (s': Watch)
    requires turn.Exited? && s.outcome.Watching? && NotAfter(b.prior + s.exits, s.t.now)
    requires table.Valid() && Found(table, id) == OnRecord(b, s)
    modifies table
    ensures s' == Crashes(b, s, turn.doneWhileWaiting, turn.overshoot)
    ensures table.Valid() && Found(table, id) == OnRecord(b, s')
  {
    var suspended := RecordExit(table, id, s.t.now, b, s.exits);
    s' := s.(exits := s.exits + [s.t.now]);
    if suspended {
      return s'.(outcome := CrashLooped);
    }
    if turn.doneWhileWaiting {
      return s'.(outcome := Canceled);
    }
    s' := s'.(t := Waited(s.t, turn.overshoot));
  }

  /** The process exited: a cancellation, a replaced install, or a crash to record. */
  method AfterExit(table: CrashTable, id: string, rescanInterval: nat, s: Watch, turn: Turn, ghost b: Before)
    returns (s': Watch)
    requires turn.Exited? && s.outcome.Watching? && NotAfter(b.prior + s.exits, s.t.now)
    requires table.Valid() && Found(table, id) == OnRecord(b, s)
    modifies table
    ensures s' == Exits(b, rescanInterval, s, turn)
    ensures table.Valid() && Found(table, id) == OnRecord(b, s')
  {
    s' := s.(t := AtExit(s.t, turn.checking, turn.running));
    if turn.doneAtExit {
      return s'.(outcome := Canceled);
    }
    if turn.reinstalled {
      if turn.doneWhileWaiting {
        return s'.(outcome := Canceled);
      }
      var t := s'.t.(now := s'.t.now + rescanInterval + SECOND + turn.overshoot, backoff := SECOND);
      return s'.(t := t);
    }
    s' := CountCrash(table, id, s', turn, b);
  }

  /** One turn of the loop. */
  method TakeTurn(table: CrashTable, id: string, rescanInterval: nat, s: Watch, turn: Turn, ghost b: Before)
    returns (s': Watch)
    requires s.outcome.Watching? && NotAfter(b.prior + s.exits, s.t.now)
    requires table.Valid() && Found(table, id) == OnRecord(b, s)
    modifies table
    ensures s' == Turned(b, rescanInterval, s, turn)
    ensures table.Valid() && Found(table, id) == OnRecord(b, s')
  {
    match turn {
      case ContextDone => s' := s.(outcome := Canceled);
      case VerifyFailed(_, _, _) => s' := AfterVerifyFail(table, id, s, turn, b);
      case Exited(_, _, _, _, _, _) => s' := AfterExit(table, id, rescanInterval, s, turn, b);
    }
  }

  /**
   * Watches one app, whatever is on its crash record, until its context is done,
   * it is suspended, or the script of turns ends: it is where the script leads.
   */
  method SuperviseOne(table: CrashTable, id: string, start: int, rescanInterval: nat, script: seq<Turn>)
    returns (s: Watch, used: nat)
    requires table.Valid() && NotAfter(table.History(id), start)
    modifies table
    ensures used == Used(old(Found(table, id)), start, rescanInterval, script, |script|)
    ensures s == Watched(old(Found(table, id)), start, rescanInterval, script, |script|)
    ensures table.Valid() && Found(table, id) == OnRecord(old(Found(table, id)), s)
  {
    ghost var b := Found(table, id);
    s, used := Begun(start), 0;
    assert b.prior + [] == b.prior;
    while used < |script| && s.outcome.Watching?
      invariant used <= |script| && s == Watched(b, start, rescanInterval, script, used)
      invariant used == Used(b, start, rescanInterval, script, used)
      invariant table.Valid() && Found(table, id) == OnRecord(b, s)
    {
      WatchKeepsTime(b, start, rescanInterval, script, used);
      s := TakeTurn(table, id, rescanInterval, s, script[used], b);
      used := used + 1;
    }
    if !s.outcome.Watching? {
      EndedStays(b, start, rescanInterval, script, used, |script|);
    }
  }

  // ---- time ----

  lemma {:induction false} NotAfterSnoc(prior: seq<int>, exits: seq<int>, now: int, later: int)
    requires NotAfter(prior + exits, now) && now <= later
    ensures NotAfter(prior + (exits + [now]), later)
  {
    var ts := prior + exits;
    ExitsSnoc(prior, exits, now);
    assert (ts + [now])[..|ts|] == ts;
  }

  /** The loop's clock does not go back, and its waits are positive. */
  ghost predicate InTime(b: Before, s: Watch)
  {
    NotAfter(b.prior + s.exits, s.t.now) && s.t.backoff > 0 && s.t.verifyBackoff > 0
  }

  /** An exit now, and the next turn not before it. */
  lemma {:induction false} CrashInTime(b: Before, s: Watch, done: bool, overshoot: nat)
    requires InTime(b, s)
    ensures InTime(b, Crashes(b, s, done, overshoot))
  {
    var s', exits' := Crashes(b, s, done, overshoot), s.exits + [s.t.now];
    NotAfterSnoc(b.prior, s.exits, s.t.now, s'.t.now);
    assert s'.exits == exits';
  }

  /** Only the clock moved on. */
  lemma {:induction false} LaterInTime(b: Before, s: Watch, s': Watch)
    requires InTime(b, s) && s'.exits == s.exits && s.t.now <= s'.t.now
    requires s'.t.backoff > 0 && s'.t.verifyBackoff > 0
    ensures InTime(b, s')
  {
  }

  lemma {:induction false} TurnInTime(b: Before, rescanInterval: nat, s: Watch, turn: Turn)
    requires InTime(b, s)
    ensures InTime(b, Turned(b, rescanInterval, s, turn))
  {
    var s' := Turned(b, rescanInterval, s, turn);
    if Counts(turn) {
      var at := s.(t := AtExit(s.t, turn.checking, turn.running));
      LaterInTime(b, s, at);
      CrashInTime(b, at, turn.doneWhileWaiting, turn.overshoot);
      assert s' == Crashes(b, at, turn.doneWhileWaiting, turn.overshoot);
    } else {
      LaterInTime(b, s, s');
    }
  }

  lemma {:induction false} WatchKeepsTime(b: Before, start: int, rescanInterval: nat, script: seq<Turn>, n: nat)
    requires n <= |script| && NotAfter(b.prior, start)
    ensures InTime(b, Watched(b, start, rescanInterval, script, n))
  {
    if n == 0 {
      assert b.prior + [] == b.prior;
    } else {
      WatchKeepsTime(b, start, rescanInterval, script, n - 1);
      TurnInTime(b, rescanInterval, Watched(b, start, rescanInterval, script, n - 1), script[n - 1]);
    }
  }

  // ---- what ends the loop, and what it counts ----

  /** The exit is recorded as a crash. */
  predicate Counts(turn: Turn) { turn.Exited? && !turn.doneAtExit && !turn.reinstalled }

  /** The turn ends the loop's context before, while or after it waits. */
  predicate Cancels(turn: Turn)
  {
    turn.ContextDone? || turn.doneWhileWaiting || (turn.Exited? && turn.doneAtExit)
  }

  /** How many of the first n turns are recorded as crashes. */
  function Counted(turns: seq<Turn>, n: nat): (k: nat)
    requires n <= |turns|
    ensures k <= n
  {
    if n == 0 then 0 else Counted(turns, n - 1) + if Counts(turns[n - 1]) then 1 else 0
  }

  /** How many verification failures in a row the first n turns end with; a cancellation is neither. */
  function FailsInARow(turns: seq<Turn>, n: nat): (fails: nat)
    requires n <= |turns|
    ensures fails <= n
  {
    if n > 0 && turns[n - 1].VerifyFailed? then FailsInARow(turns, n - 1) + 1 else 0
  }

  /** What the turns taken say of a loop: exactly the crashes are recorded, and it stops only where it must. */
  ghost predicate Follows(script: seq<Turn>, n: nat, s: Watch, used: nat)
    requires used <= n <= |script|
  {
    && |s.exits| == Counted(script, used)
    && (forall i :: 0 <= i < used - 1 ==> !Cancels(script[i]))
    && (s.outcome.VerifyCapped? <==> FailsInARow(script, used) == MAX_VERIFY_FAILS)
    && match s.outcome
       case Watching => used == n && s.t.verifyFails == FailsInARow(script, n) && (n > 0 ==> !Cancels(script[n - 1]))
       case Canceled => used > 0 && Cancels(script[used - 1])
       case CrashLooped => used > 0 && Counts(script[used - 1])
       case VerifyCapped => used > 0
  }

  lemma {:induction false} TurnFollows(b: Before, rescanInterval: nat, script: seq<Turn>, n: nat, s: Watch)
    requires n < |script| && s.outcome.Watching? && Follows(script, n, s, n) && s.t.verifyFails < MAX_VERIFY_FAILS
    ensures Follows(script, n + 1, Turned(b, rescanInterval, s, script[n]), n + 1)
  {
  }

  /**
   * Of any script, the loop records exactly the exits that are crashes, goes on
   * until a turn cancels it, spends the budget, or is the tenth verification
   * failure in a row, and stops there.
   */
  lemma {:induction false} WatchFollows(b: Before, start: int, rescanInterval: nat, script: seq<Turn>, n: nat)
    requires n <= |script|
    ensures Follows(script, n, Watched(b, start, rescanInterval, script, n), Used(b, start, rescanInterval, script, n))
  {
    if n > 0 {
      WatchFollows(b, start, rescanInterval, script, n - 1);
      var s := Watched(b, start, rescanInterval, script, n - 1);
      if s.outcome.Watching? {
        TurnFollows(b, rescanInterval, script, n - 1, s);
      }
    }
  }

  // ---- the judgement ----

  /** Suspension for crash-looping is the whole-history rule, at the first exit that meets it. */
  ghost predicate Judged(b: Before, s: Watch)
  {
    && (s.outcome.CrashLooped? <==> Spent(b, s.exits))
    && (s.exits != [] ==> !Spent(b, s.exits[..|s.exits| - 1]))
  }

  lemma {:induction false} WatchIsJudged(b: Before, start: int, rescanInterval: nat, script: seq<Turn>, n: nat)
    requires n <= |script|
    ensures Judged(b, Watched(b, start, rescanInterval, script, n))
  {
    if n > 0 {
      WatchIsJudged(b, start, rescanInterval, script, n - 1);
      var s := Watched(b, start, rescanInterval, script, n - 1);
      if s.outcome.Watching? {
        var s' := Turned(b, rescanInterval, s, script[n - 1]);
        if s'.exits != s.exits {
          assert s'.exits[..|s'.exits| - 1] == s.exits;
        }
      }
    }
  }

  // ---- the sixth exit or never ----

  predicate NoReinstall(turns: seq<Turn>)
  {
    forall i :: 0 <= i < |turns| ==> turns[i].Exited? ==> !turns[i].reinstalled
  }

  /** Without reinstalls the waits follow the ramp. */
  ghost predicate Paced(s: Watch)
  {
    && Spaced(s.exits)
    && (s.outcome.Watching? ==> s.t.backoff == Ramp(SECOND, MAX_BACKOFF, |s.exits|))
    && (s.outcome.Watching? && s.exits != [] ==>
          s.exits[|s.exits| - 1] + Ramp(SECOND, MAX_BACKOFF, |s.exits| - 1) <= s.t.now)
  }

  lemma {:induction false} SpacedSnoc(exits: seq<int>, now: int)
    requires Spaced(exits)
    requires exits != [] ==> exits[|exits| - 1] + Ramp(SECOND, MAX_BACKOFF, |exits| - 1) <= now
    ensures Spaced(exits + [now])
  {
    assert (exits + [now])[..|exits|] == exits;
  }

  lemma {:induction false} CrashPaced(b: Before, s: Watch, done: bool, overshoot: nat)
    requires Paced(s) && s.outcome.Watching?
    ensures Paced(Crashes(b, s, done, overshoot))
  {
    SpacedSnoc(s.exits, s.t.now);
  }

  /** Only the clock moved on. */
  lemma {:induction false} LaterPaced(s: Watch, s': Watch)
    requires Paced(s) && s.outcome.Watching? && s'.exits == s.exits && s.t.now <= s'.t.now
    requires s'.t.backoff == s.t.backoff
    ensures Paced(s')
  {
  }

  lemma {:induction false} TurnPaced(b: Before, rescanInterval: nat, s: Watch, turn: Turn)
    requires Paced(s) && s.outcome.Watching? && InTime(b, s) && (turn.Exited? ==> !turn.reinstalled)
    ensures Paced(Turned(b, rescanInterval, s, turn))
  {
    if Counts(turn) {
      var at := s.(t := AtExit(s.t, turn.checking, turn.running));
      LaterPaced(s, at);
      CrashPaced(b, at, turn.doneWhileWaiting, turn.overshoot);
      assert Turned(b, rescanInterval, s, turn) == Crashes(b, at, turn.doneWhileWaiting, turn.overshoot);
    } else {
      LaterPaced(s, Turned(b, rescanInterval, s, turn));
    }
  }

  lemma {:induction false} WatchIsPaced(b: Before, start: int, rescanInterval: nat, script: seq<Turn>, n: nat)
    requires n <= |script| && NotAfter(b.prior, start) && NoReinstall(script)
    ensures Paced(Watched(b, start, rescanInterval, script, n))
  {
    if n > 0 {
      WatchIsPaced(b, start, rescanInterval, script, n - 1);
      WatchKeepsTime(b, start, rescanInterval, script, n - 1);
      var s := Watched(b, start, rescanInterval, script, n - 1);
      if s.outcome.Watching? {
        TurnPaced(b, rescanInterval, s, script[n - 1]);
      }
    }
  }

  const CLEAN := Before([], false)

  /**
   * From a clean record, a script without reinstalls is suspended for
   * crash-looping at its sixth crash or never: exactly when the loop gets to a
   * sixth, and the first six span less than the window.
   */
  lemma {:induction false} SixthExitOrNever(start: int, rescanInterval: nat, script: seq<Turn>)
    requires NoReinstall(script)
    ensures var s := Watched(CLEAN, start, rescanInterval, script, |script|);
            var used := Used(CLEAN, start, rescanInterval, script, |script|);
            && |s.exits| == Counted(script, used)
            && (s.outcome.CrashLooped? ==> |s.exits| == 6 && used > 0 && Counts(script[used - 1]))
            && (s.outcome.CrashLooped? <==> |s.exits| >= 6 && s.exits[5] - s.exits[0] < CRASH_LOOP_WINDOW)
  {
    var s := Watched(CLEAN, start, rescanInterval, script, |script|);
    WatchFollows(CLEAN, start, rescanInterval, script, |script|);
    WatchIsJudged(CLEAN, start, rescanInterval, script, |script|);
    WatchIsPaced(CLEAN, start, rescanInterval, script, |script|);
    assert CLEAN.prior + s.exits == s.exits;
    SpacedBursts(s.exits);
    if s.exits != [] {
      var front := s.exits[..|s.exits| - 1];
      assert CLEAN.prior + front == front;
      SpacedBursts(front);
    }
  }

  // ---- the sixth exit, told from the script ----

  /** A process that runs, exits and is restarted, and nothing else. */
  predicate Plain(turn: Turn)
  {
    Counts(turn) && !turn.doneWhileWaiting
  }

  predicate AllPlain(turns: seq<Turn>)
  {
    forall i :: 0 <= i < |turns| ==> Plain(turns[i])
  }

  /** From the first exit to the n-th, the time beyond the restart waits: overshoots, checks and running times. */
  function Overhead(turns: seq<Turn>, n: nat): nat
    requires n <= |turns| && AllPlain(turns)
  {
    if n <= 1 then 0
    else Overhead(turns, n - 1) + turns[n - 2].overshoot + turns[n - 1].checking + turns[n - 1].running
  }

  /** The first n restart waits together. */
  function Waits(n: nat): int
  {
    if n == 0 then 0 else Waits(n - 1) + Ramp(SECOND, MAX_BACKOFF, n - 1)
  }

  /** The first five are 1 + 2 + 4 + 8 + 16 seconds. */
  lemma FiveWaits()
    ensures Waits(5) == 31 * SECOND
  {
    assert Ramp(SECOND, MAX_BACKOFF, 0) == SECOND;
    assert Ramp(SECOND, MAX_BACKOFF, 1) == 2 * SECOND;
    assert Ramp(SECOND, MAX_BACKOFF, 2) == 4 * SECOND;
    assert Ramp(SECOND, MAX_BACKOFF, 3) == 8 * SECOND;
    assert Ramp(SECOND, MAX_BACKOFF, 4) == 16 * SECOND;
    assert Waits(2) == 3 * SECOND && Waits(4) == 15 * SECOND;
  }

  /** Where a loop of plain turns is after its n-th exit and the wait that follows. */
  ghost predicate PlainAt(script: seq<Turn>, n: nat, s: Watch)
    requires n <= |script| && AllPlain(script)
  {
    && s.outcome.Watching? && |s.exits| == n && s.t.backoff == Ramp(SECOND, MAX_BACKOFF, n)
    && (n > 0 ==>
          && s.exits[n - 1] - s.exits[0] == Waits(n - 1) + Overhead(script, n)
          && s.t.now == s.exits[n - 1] + Ramp(SECOND, MAX_BACKOFF, n - 1) + script[n - 1].overshoot)
  }

  /** The next exit of such a loop. */
  lemma {:induction false} PlainExit(rescanInterval: nat, script: seq<Turn>, n: nat, s: Watch)
    requires n < |script| && AllPlain(script) && PlainAt(script, n, s)
    ensures var s' := Turned(CLEAN, rescanInterval, s, script[n]);
            && |s'.exits| == n + 1
            && s'.exits[n] - s'.exits[0] == Waits(n) + Overhead(script, n + 1)
            && (!Spent(CLEAN, s'.exits) ==> PlainAt(script, n + 1, s'))
  {
    assert Plain(script[n]);
    if n > 0 {
      assert Waits(n) == Waits(n - 1) + Ramp(SECOND, MAX_BACKOFF, n - 1);
    }
  }

  lemma {:induction false} NotSpentYet(exits: seq<int>)
    requires |exits| <= 5
    ensures !Spent(CLEAN, exits)
  {
    assert CLEAN.prior + exits == exits;
  }

  lemma {:induction false} PlainExits(start: int, rescanInterval: nat, script: seq<Turn>, n: nat)
    requires n <= |script| && n <= 5 && AllPlain(script)
    ensures PlainAt(script, n, Watched(CLEAN, start, rescanInterval, script, n))
  {
    if n > 0 {
      PlainExits(start, rescanInterval, script, n - 1);
      var s := Watched(CLEAN, start, rescanInterval, script, n - 1);
      PlainExit(rescanInterval, script, n - 1, s);
      NotSpentYet(Turned(CLEAN, rescanInterval, s, script[n - 1]).exits);
    }
  }

  /** What a loop with at least six exits on record knows of the first six stays so. */
  lemma {:induction false} FirstSixStay(b: Before, start: int, rescanInterval: nat, script: seq<Turn>, n: nat, m: nat)
    requires n <= m <= |script| && |Watched(b, start, rescanInterval, script, n).exits| >= 6
    ensures var s, s' := Watched(b, start, rescanInterval, script, n), Watched(b, start, rescanInterval, script, m);
            |s'.exits| >= 6 && s'.exits[0] == s.exits[0] && s'.exits[5] == s.exits[5]
    decreases m
  {
    if n < m {
      FirstSixStay(b, start, rescanInterval, script, n, m - 1);
    }
  }

  /**
   * Told from the script alone: from a clean record, a process that keeps exiting
   * is suspended, at its sixth exit, if and only if what its first six exits take
   * beyond the restart waits is under 29 seconds.
   */
  lemma CrashBudget(start: int, rescanInterval: nat, script: seq<Turn>)
    requires AllPlain(script) && |script| >= 6
    ensures var s := Watched(CLEAN, start, rescanInterval, script, |script|);
            s.outcome.CrashLooped? <==> Overhead(script, 6) < 29 * SECOND
  {
    PlainExits(start, rescanInterval, script, 5);
    PlainExit(rescanInterval, script, 5, Watched(CLEAN, start, rescanInterval, script, 5));
    FiveWaits();
    FirstSixStay(CLEAN, start, rescanInterval, script, 6, |script|);
    forall i | 0 <= i < |script| ensures script[i].Exited? && !script[i].reinstalled {
      assert Plain(script[i]);
    }
    SixthExitOrNever(start, rescanInterval, script);
  }

  // ---- the timeline, told from the script ----

  /** A restart or verification wait after k waits of its ramp: 1, 2, 4, 8, 16 seconds, then 30, in nanoseconds. */
  function Wait(k: nat): int
  {
    if k >= 5 then 30000000000 else Pow2(k) * 1000000000
  }

  lemma WaitIsRamp(k: nat)
    ensures Wait(k) == Ramp(SECOND, MAX_BACKOFF, k)
  {
    RampIsCappedDoubling(SECOND, MAX_BACKOFF, k);
    DoubledIsPow2(k);
    if k >= 5 {
      Pow2From5(k);
    } else {
      assert Pow2(4) == 2 * Pow2(3) && Pow2(3) == 2 * Pow2(2) && Pow2(2) == 4 && Pow2(1) == 2;
    }
  }

  lemma {:induction false} Pow2From5(k: nat)
    requires k >= 5
    ensures Pow2(k) >= 32
  {
    if k > 5 {
      Pow2From5(k - 1);
    } else {
      assert Pow2(5) == 2 * Pow2(4) && Pow2(4) == 2 * Pow2(3) && Pow2(3) == 8;
    }
  }

  /** How many crashes the first n turns hold since the ramp last started over, at the start or with a reinstall. */
  function CrashesInRamp(turns: seq<Turn>, n: nat): (k: nat)
    requires n <= |turns|
  {
    if n == 0 || (turns[n - 1].Exited? && !turns[n - 1].doneAtExit && turns[n - 1].reinstalled) then 0
    else CrashesInRamp(turns, n - 1) + if Counts(turns[n - 1]) then 1 else 0
  }

  /** How long turn k takes when it is waited out. */
  function TurnLength(turns: seq<Turn>, rescanInterval: nat, k: nat): int
    requires k < |turns|
  {
    match turns[k]
    case ContextDone => 0
    case VerifyFailed(checking, _, overshoot) => checking + Wait(FailsInARow(turns, k)) + overshoot
    case Exited(checking, running, _, reinstalled, _, overshoot) =>
      checking + running + overshoot
      + if reinstalled then rescanInterval + 1000000000 else Wait(CrashesInRamp(turns, k))
  }

  /** When turn k begins. */
  function BeginsAt(turns: seq<Turn>, start: int, rescanInterval: nat, k: nat): int
    requires k <= |turns|
  {
    if k == 0 then start
    else BeginsAt(turns, start, rescanInterval, k - 1) + TurnLength(turns, rescanInterval, k - 1)
  }

  /** When the crashes among the first n turns are recorded. */
  function CrashTimes(turns: seq<Turn>, start: int, rescanInterval: nat, n: nat): seq<int>
    requires n <= |turns|
  {
    if n == 0 then []
    else
      CrashTimes(turns, start, rescanInterval, n - 1)
      + if Counts(turns[n - 1])
        then [BeginsAt(turns, start, rescanInterval, n - 1) + turns[n - 1].checking + turns[n - 1].running]
        else []
  }

  /** The clock and both ramps are where the script puts them. */
  ghost predicate OnTime(turns: seq<Turn>, start: int, rescanInterval: nat, n: nat, s: Watch)
    requires n <= |turns|
  {
    && s.t.now == BeginsAt(turns, start, rescanInterval, n)
    && s.t.backoff == Wait(CrashesInRamp(turns, n))
    && s.t.verifyBackoff == Wait(FailsInARow(turns, n))
  }

  lemma {:induction false} NextWait(k: nat)
    ensures NextBackoff(Wait(k), MAX_BACKOFF) == Wait(k + 1)
  {
    WaitIsRamp(k);
    WaitIsRamp(k + 1);
  }

  lemma {:induction false} TurnOnTime(b: Before, rescanInterval: nat, turns: seq<Turn>, start: int, n: nat, s: Watch)
    requires n < |turns| && s.outcome.Watching? && OnTime(turns, start, rescanInterval, n, s)
    requires s.exits == CrashTimes(turns, start, rescanInterval, n)
    ensures var s' := Turned(b, rescanInterval, s, turns[n]);
            && s'.exits == CrashTimes(turns, start, rescanInterval, n + 1)
            && (s'.outcome.Watching? ==> OnTime(turns, start, rescanInterval, n + 1, s'))
  {
    NextWait(CrashesInRamp(turns, n));
    NextWait(FailsInARow(turns, n));
    assert Wait(0) == SECOND;
  }

  /**
   * Of any script the exits are recorded exactly when the script puts them: a turn
   * takes its checks, its running time and its overshoot, and then 1, 2, 4, 8, 16
   * or 30 seconds by the crashes since the start or the last reinstall; one rescan
   * and a second after a reinstall; or, for a failed verification, as many by the
   * failures in a row before it.
   */
  lemma {:induction false} WatchTimeline(b: Before, start: int, rescanInterval: nat, turns: seq<Turn>, n: nat)
    requires n <= |turns|
    ensures var s := Watched(b, start, rescanInterval, turns, n);
            && s.exits == CrashTimes(turns, start, rescanInterval, Used(b, start, rescanInterval, turns, n))
            && (s.outcome.Watching? ==>
                  OnTime(turns, start, rescanInterval, n, s) && Used(b, start, rescanInterval, turns, n) == n)
  {
    if n == 0 {
      assert Wait(0) == SECOND;
    } else {
      WatchTimeline(b, start, rescanInterval, turns, n - 1);
      var s := Watched(b, start, rescanInterval, turns, n - 1);
      if s.outcome.Watching? {
        TurnOnTime(b, rescanInterval, turns, start, n - 1, s);
      }
    }
  }

  /**
   * Why the loop ends, told from the script: at the first of its turns that
   * cancels it, is the tenth failed verification in a row, or is a crash that
   * spends the budget, in the order the loop looks.
   */
  lemma {:induction false} WatchEnds(b: Before, start: int, rescanInterval: nat, turns: seq<Turn>, n: nat)
    requires n < |turns| && Watched(b, start, rescanInterval, turns, n).outcome.Watching?
    ensures var outcome := Watched(b, start, rescanInterval, turns, n + 1).outcome;
            match turns[n]
            case ContextDone => outcome == Canceled
            case VerifyFailed(_, done, _) =>
              outcome == if FailsInARow(turns, n) >= 9 then VerifyCapped else if done then Canceled else Watching
            case Exited(_, _, doneAtExit, reinstalled, done, _) =>
              if doneAtExit then outcome == Canceled
              else if reinstalled then outcome == if done then Canceled else Watching
              else outcome == if Spent(b, CrashTimes(turns, start, rescanInterval, n + 1)) then CrashLooped
                              else if done then Canceled else Watching
  {
    WatchTimeline(b, start, rescanInterval, turns, n);
    WatchFollows(b, start, rescanInterval, turns, n);
    var s := Watched(b, start, rescanInterval, turns, n);
    TurnOnTime(b, rescanInterval, turns, start, n, s);
  }
}
