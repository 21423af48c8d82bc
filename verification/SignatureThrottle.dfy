/**
 * plugin/appstore/supervisor.go: the negative cache of manifest signature
 * failures (shouldAttemptSignature, noteSignatureFailure, clearSignatureFailure).
 */
module SignatureThrottle {
  import opened Backoff

  const SIG_BACKOFF_START: int := 2 * SECOND
  const SIG_BACKOFF_MAX: int := 300 * SECOND
  const SIG_QUARANTINE_AFTER: int := 5

  datatype Failure = Failure(hash: string, fails: nat, backoff: int, nextRetry: int, logged: bool, quarantined: bool)

  type Failures = map<string, Failure>

  /** The signature check of a dir's manifest is run now. */
  predicate Due(fails: Failures, dir: string, hash: string, now: int)
  {
    dir !in fails || fails[dir].hash != hash || now >= fails[dir].nextRetry
  }

  /** The record before a failure of `hash` is counted. */
  function Base(fails: Failures, dir: string, hash: string): Failure
  {
    if dir !in fails || fails[dir].hash != hash then Failure(hash, 0, SIG_BACKOFF_START, 0, false, false)
    else fails[dir].(backoff := NextBackoff(fails[dir].backoff, SIG_BACKOFF_MAX))
  }

  /** The record after it. */
  function Noted(fails: Failures, dir: string, hash: string, now: int): Failure
  {
    var rec := Base(fails, dir, hash);
    var n := rec.fails + 1;
    rec.(fails := n, nextRetry := now + rec.backoff, logged := true,
         quarantined := rec.quarantined || n >= SIG_QUARANTINE_AFTER)
  }

  /** A line of the log. */
  datatype Line =
    | VerificationFailed(dir: string, hash: string)
    | Quarantined(dir: string, hash: string)
    | Recovered(dir: string)

  /** What noting a failure logs. */
  function NotedLines(fails: Failures, dir: string, hash: string): seq<Line>
  {
    var rec := Base(fails, dir, hash);
    (if !rec.logged then [VerificationFailed(dir, hash)] else [])
    + (if rec.fails + 1 >= SIG_QUARANTINE_AFTER && !rec.quarantined then [Quarantined(dir, hash)] else [])
  }

  /** The supervisor's sigFails, updated in place. */
  class Throttle {
    var sigFails: Failures
    var lines: seq<Line>

    constructor ()
      ensures sigFails == map[] && lines == []
    {
      sigFails, lines := map[], [];
    }

    method ShouldAttempt(dir: string, hash: string, now: int) returns (due: bool)
      ensures due == Due(sigFails, dir, hash, now)
    {
      if dir !in sigFails || sigFails[dir].hash != hash {
        return true;
      }
      return !(now < sigFails[dir].nextRetry);
    }

    method NoteFailure(dir: string, hash: string, now: int)
      modifies this
      ensures sigFails == old(sigFails)[dir := Noted(old(sigFails), dir, hash, now)]
      ensures lines == old(lines) + NotedLines(old(sigFails), dir, hash)
    {
      var rec;
      if dir !in sigFails || sigFails[dir].hash != hash {
        rec := Failure(hash, 0, SIG_BACKOFF_START, 0, false, false);
      } else {
        rec := sigFails[dir];
        rec := rec.(backoff := NextBackoff(rec.backoff, SIG_BACKOFF_MAX));
      }
      rec := rec.(fails := rec.fails + 1);
      rec := rec.(nextRetry := now + rec.backoff);
      var firstForHash := !rec.logged;
      rec := rec.(logged := true);
      var emitQuarantine := rec.fails >= SIG_QUARANTINE_AFTER && !rec.quarantined;
      if emitQuarantine {
        rec := rec.(quarantined := true);
      }
      sigFails := sigFails[dir := rec];
      if firstForHash {
        lines := lines + [VerificationFailed(dir, hash)];
      }
      if emitQuarantine {
        lines := lines + [Quarantined(dir, hash)];
      }
    }

    method Clear(dir: string)
      modifies this
      ensures sigFails == old(sigFails) - {dir}
      ensures lines == if dir in old(sigFails) then old(lines) + [Recovered(dir)] else old(lines)
    {
      var existed := dir in sigFails;
      sigFails := sigFails - {dir};
      if existed {
        lines := lines + [Recovered(dir)];
      }
    }
  }

  // ---- an episode: one failing manifest, visited again and again ----

  /** A rescan reaching the dir: when the throttle is asked, and when a failure would be noted. */
  datatype Visit = Visit(checkedAt: int, notedAt: int)

  /** A dir whose manifest keeps failing with one hash: the record, the visits that verified it, the lines logged. */
  datatype Episode = Episode(fails: Failures, attempts: seq<Visit>, lines: seq<Line>)

  function VisitFailing(ep: Episode, dir: string, hash: string, v: Visit): Episode
  {
    if !Due(ep.fails, dir, hash, v.checkedAt) then ep
    else Episode(ep.fails[dir := Noted(ep.fails, dir, hash, v.notedAt)], ep.attempts + [v],
                 ep.lines + NotedLines(ep.fails, dir, hash))
  }

  /** All the visits of an episode that starts from any other state of the dir. */
  function EpisodeOf(fails: Failures, dir: string, hash: string, visits: seq<Visit>): Episode
  {
    if visits == [] then Episode(fails, [], [])
    else VisitFailing(EpisodeOf(fails, dir, hash, visits[..|visits| - 1]), dir, hash, visits[|visits| - 1])
  }

  /** The delay set after the k-th failure, k counted from 1: min(2^k, 300) seconds. */
  function DelayAfter(k: nat): int
    requires k >= 1
  {
    Ramp(SIG_BACKOFF_START, SIG_BACKOFF_MAX, k - 1)
  }

  /** When the last failure was noted. */
  function LastNoted(attempts: seq<Visit>): int
  {
    if attempts == [] then 0 else attempts[|attempts| - 1].notedAt
  }

  /** A verification that comes no earlier than the delay after the failures before it. */
  predicate AfterDelay(attempts: seq<Visit>, v: Visit)
  {
    attempts == [] || LastNoted(attempts) + DelayAfter(|attempts|) <= v.checkedAt
  }

  /** Every verification of the episode is one. */
  ghost predicate SpacedByDelays(attempts: seq<Visit>)
  {
    attempts == [] ||
    (SpacedByDelays(attempts[..|attempts| - 1]) && AfterDelay(attempts[..|attempts| - 1], attempts[|attempts| - 1]))
  }

  /** Once per episode: the failure line at the first failure, the quarantine line at the fifth. */
  function EpisodeLines(dir: string, hash: string, failures: nat): seq<Line>
  {
    (if failures >= 1 then [VerificationFailed(dir, hash)] else [])
    + (if failures >= SIG_QUARANTINE_AFTER then [Quarantined(dir, hash)] else [])
  }

  /** The dir's record after n failures of `hash`, the last of them noted at `last`. */
  ghost predicate Recorded(fails: Failures, dir: string, hash: string, n: nat, last: int)
  {
    if n == 0 then dir !in fails || fails[dir].hash != hash
    else dir in fails &&
         fails[dir] == Failure(hash, n, DelayAfter(n), last + DelayAfter(n), true, n >= SIG_QUARANTINE_AFTER)
  }

  /** The state of an episode with n failures so far. */
  ghost predicate After(ep: Episode, dir: string, hash: string)
  {
    && SpacedByDelays(ep.attempts)
    && ep.lines == EpisodeLines(dir, hash, |ep.attempts|)
    && Recorded(ep.fails, dir, hash, |ep.attempts|, LastNoted(ep.attempts))
  }

  /** One more failure: its record and its lines. */
  lemma NotedKeeps(fails: Failures, dir: string, hash: string, n: nat, last: int, now: int)
    requires Recorded(fails, dir, hash, n, last)
    ensures Recorded(fails[dir := Noted(fails, dir, hash, now)], dir, hash, n + 1, now)
    ensures EpisodeLines(dir, hash, n) + NotedLines(fails, dir, hash) == EpisodeLines(dir, hash, n + 1)
  {
  }

  lemma SpacedAfter(attempts: seq<Visit>, v: Visit)
    requires SpacedByDelays(attempts) && AfterDelay(attempts, v)
    ensures SpacedByDelays(attempts + [v])
  {
    assert (attempts + [v])[..|attempts|] == attempts;
  }

  lemma VisitKeeps(ep: Episode, dir: string, hash: string, v: Visit)
    requires After(ep, dir, hash)
    ensures After(VisitFailing(ep, dir, hash, v), dir, hash)
  {
    if Due(ep.fails, dir, hash, v.checkedAt) {
      NotedKeeps(ep.fails, dir, hash, |ep.attempts|, LastNoted(ep.attempts), v.notedAt);
      assert AfterDelay(ep.attempts, v);
      SpacedAfter(ep.attempts, v);
    }
  }

  /**
   * For an unchanged failing manifest, from any state in which the dir has no
   * record of it: the record, the spacing of verifications and the log lines.
   */
  lemma {:induction false} EpisodeIsThrottled(fails: Failures, dir: string, hash: string, visits: seq<Visit>)
    requires dir !in fails || fails[dir].hash != hash
    ensures After(EpisodeOf(fails, dir, hash, visits), dir, hash)
  {
    if visits != [] {
      EpisodeIsThrottled(fails, dir, hash, visits[..|visits| - 1]);
      VisitKeeps(EpisodeOf(fails, dir, hash, visits[..|visits| - 1]), dir, hash, visits[|visits| - 1]);
    }
  }

  /** The first n delays together. */
  function DelaySum(n: nat): int
  {
    if n == 0 then 0 else DelaySum(n - 1) + DelayAfter(n)
  }

  /** The N-th verification comes no earlier than the sum of the first N-1 delays after the first failure was noted. */
  lemma {:induction false} VerificationsAreRare(attempts: seq<Visit>)
    requires attempts != [] && SpacedByDelays(attempts)
    requires forall i :: 0 <= i < |attempts| ==> attempts[i].checkedAt <= attempts[i].notedAt
    ensures attempts[|attempts| - 1].notedAt >= attempts[0].notedAt + DelaySum(|attempts| - 1)
    ensures |attempts| > 1 ==> attempts[|attempts| - 1].checkedAt >= attempts[0].notedAt + DelaySum(|attempts| - 1)
  {
    if |attempts| > 1 {
      VerificationsAreRare(attempts[..|attempts| - 1]);
    }
  }

  /** The k-th delay is 2^k seconds, capped at five minutes. */
  lemma DelayIsCappedPower(k: nat)
    requires k >= 1
    ensures DelayAfter(k) == if Doubled(SECOND, k) > SIG_BACKOFF_MAX then SIG_BACKOFF_MAX else Doubled(SECOND, k)
  {
    RampIsCappedDoubling(SIG_BACKOFF_START, SIG_BACKOFF_MAX, k - 1);
    DoubledShift(k - 1);
  }

  lemma {:induction false} DoubledShift(k: nat)
    ensures Doubled(SIG_BACKOFF_START, k) == Doubled(SECOND, k + 1)
  {
    if k > 0 {
      DoubledShift(k - 1);
    }
  }

  /** 2^k seconds, but at most 300, in nanoseconds. */
  function DelayNanos(k: nat): int
  {
    if k >= 9 then 300000000000 else Pow2(k) * 1000000000
  }

  lemma {:induction false} Pow2Grows(k: nat)
    requires k >= 9
    ensures Pow2(k) >= 512
  {
    if k > 9 {
      Pow2Grows(k - 1);
    } else {
      assert Pow2(9) == 2 * Pow2(8) && Pow2(8) == 2 * Pow2(7) && Pow2(7) == 2 * Pow2(6) && Pow2(6) == 64;
    }
  }

  lemma Pow2Small(k: nat)
    requires k <= 8
    ensures Pow2(k) <= 256
  {
    assert Pow2(8) == 2 * Pow2(7) && Pow2(7) == 2 * Pow2(6) && Pow2(6) == 64 && Pow2(5) == 32 && Pow2(4) == 16;
  }

  lemma DelayInNanos(k: nat)
    requires k >= 1
    ensures DelayAfter(k) == DelayNanos(k)
  {
    DelayIsCappedPower(k);
    DoubledIsPow2(k);
    if k >= 9 {
      Pow2Grows(k);
    } else {
      Pow2Small(k);
    }
  }

  /**
   * An episode in numbers. After n failures of the same bytes, the last noted at
   * some time, the next verification is due exactly min(2^n, 300) seconds later and
   * not before; the dir is quarantined from the fifth failure on; and the log holds
   * one failure line from the first on, and then one quarantine line from the fifth.
   */
  lemma EpisodeInNumbers(fails: Failures, dir: string, hash: string, visits: seq<Visit>, now: int)
    requires dir !in fails || fails[dir].hash != hash
    ensures var ep := EpisodeOf(fails, dir, hash, visits);
            var n := |ep.attempts|;
            && (Due(ep.fails, dir, hash, now) <==> n == 0 || now >= ep.attempts[n - 1].notedAt + DelayNanos(n))
            && (n > 0 ==> dir in ep.fails && ep.fails[dir].fails == n && (ep.fails[dir].quarantined <==> n >= 5))
            && ep.lines == (if n >= 1 then [VerificationFailed(dir, hash)] else [])
                           + (if n >= 5 then [Quarantined(dir, hash)] else [])
  {
    EpisodeIsThrottled(fails, dir, hash, visits);
    var n := |EpisodeOf(fails, dir, hash, visits).attempts|;
    if n > 0 {
      DelayInNanos(n);
    }
  }
}
