/**
 * pkg/extend/ratelimit.go: the per-key token bucket that bounds hook dispatch.
 *
 * The bucket is a running summary. The rule it implements is about the whole
 * history of a key, and every verdict is proved equal to that rule. Seconds and
 * tokens are reals; a clock reading is an input of each call.
 */
module TokenBucket {

  datatype Bucket = Bucket(tokens: real, last: real)

  /** One answered call: the key, the clock reading, the verdict. */
  datatype Call = Call(key: string, at: real, ok: bool)

  /** The calls of one key, in order. */
  function For(log: seq<Call>, key: string): (h: seq<Call>)
  {
    if log == [] then []
    else
      var n := |log| - 1;
      For(log[..n], key) + (if log[n].key == key then [log[n]] else [])
  }

  /** How many calls were admitted, as an amount of tokens. */
  function Admitted(h: seq<Call>): real
  {
    if h == [] then 0.0
    else Admitted(h[..|h| - 1]) + Spent(h[|h| - 1])
  }

  /** What one call takes from a bucket. */
  function Spent(c: Call): real { if c.ok then 1.0 else 0.0 }

  function Max(a: real, b: real): real { if a < b then b else a }

  /** The clock as the bucket reads it after `h`: the running maximum of the readings. */
  function Clock(h: seq<Call>): real
    requires h != []
  {
    var n := |h| - 1;
    if n == 0 then h[0].at else Max(Clock(h[..n]), h[n].at)
  }

  /** The tokens earned up to reading `t`; a stretch earns the difference of its ends. */
  function Worth(rate: real, t: real): real { rate * t }

  lemma WorthOfStretch(rate: real, since: real, now: real)
    ensures Worth(rate, now) - Worth(rate, since) == (now - since) * rate
  {
  }

  lemma WorthMonotone(rate: real, since: real, now: real)
    requires rate >= 0.0 && since <= now
    ensures Worth(rate, since) <= Worth(rate, now)
  {
    assert rate * (now - since) >= 0.0;
  }

  /** What is left at time `now` of the budget that opened with call `j`. */
  function Slack(rate: real, burst: real, h: seq<Call>, j: nat, now: real): real
    requires j < |h|
  {
    burst + (Worth(rate, now) - Worth(rate, Clock(h[..j + 1]))) - Admitted(h[j..])
  }

  /** The running maximum once a reading `at` is taken. */
  function NowAt(h: seq<Call>, at: real): real
  {
    if h == [] then at else Max(Clock(h), at)
  }

  /** Every open budget still covers one more admission. */
  ghost predicate OpenBudgets(rate: real, burst: real, h: seq<Call>, now: real)
  {
    forall j :: 0 <= j < |h| ==> 1.0 <= Slack(rate, burst, h, j, now)
  }

  /**
   * The whole-history rule: a call at reading `at` fits when, for every call of
   * the key up to and including itself, the admissions since that call, plus one,
   * are at most burst + rate * (time since that call).
   */
  ghost predicate WithinBudget(rate: real, burst: real, h: seq<Call>, at: real)
  {
    OpenBudgets(rate, burst, h, NowAt(h, at)) && 1.0 <= burst
  }

  /** No open budget has less left than `level`. */
  ghost predicate AtMostSlack(rate: real, burst: real, h: seq<Call>, level: real, now: real)
  {
    forall j :: 0 <= j < |h| ==> level <= Slack(rate, burst, h, j, now)
  }

  /** Some open budget has exactly `level` left. */
  ghost predicate SomeSlack(rate: real, burst: real, h: seq<Call>, level: real, now: real)
  {
    exists j :: 0 <= j < |h| && level == Slack(rate, burst, h, j, now)
  }

  /** The bucket holds the least slack over all budgets, read at the running maximum. */
  ghost predicate Represents(rate: real, burst: real, b: Bucket, h: seq<Call>)
    requires h != []
  {
    && b.last == Clock(h)
    && b.tokens <= burst
    && AtMostSlack(rate, burst, h, b.tokens, b.last)
    && SomeSlack(rate, burst, h, b.tokens, b.last)
  }

  /** The i-th verdict of a key's history follows the rule. */
  ghost predicate LawfulAt(rate: real, burst: real, h: seq<Call>, i: nat)
    requires i < |h|
  {
    h[i].ok <==> WithinBudget(rate, burst, h[..i], h[i].at)
  }

  /** Every verdict in a key's history follows the rule. */
  ghost predicate Lawful(rate: real, burst: real, h: seq<Call>)
  {
    forall i :: 0 <= i < |h| ==> LawfulAt(rate, burst, h, i)
  }

  // ---- the bucket against the rule ----

  /** Appending a call lowers each open budget by the verdict. */
  lemma SlackAfter(rate: real, burst: real, h: seq<Call>, c: Call, j: nat, now: real)
    requires j < |h|
    ensures Slack(rate, burst, h + [c], j, now)
         == Slack(rate, burst, h, j, now) - Spent(c)
  {
    assert (h + [c])[..j + 1] == h[..j + 1];
    var t := (h + [c])[j..];
    assert t == h[j..] + [c];
    assert t[..|t| - 1] == h[j..];
  }

  lemma AdmittedOne(c: Call)
    ensures Admitted([c]) == Spent(c)
  {
    assert [c][..0] == [];
  }

  /** The budget a call opens itself. */
  lemma SlackOwn(rate: real, burst: real, h: seq<Call>, c: Call, now: real)
    requires now == Clock(h + [c])
    ensures Slack(rate, burst, h + [c], |h|, now) == burst - Spent(c)
  {
    assert (h + [c])[..|h| + 1] == h + [c];
    assert (h + [c])[|h|..] == [c];
    AdmittedOne(c);
  }

  lemma ClockAfter(h: seq<Call>, c: Call)
    requires h != []
    ensures Clock(h + [c]) == Max(Clock(h), c.at)
  {
    assert (h + [c])[..|h|] == h;
  }

  /** The level a refill brings a bucket to. */
  function Refilled(rate: real, burst: real, b: Bucket, at: real): real
  {
    if at - b.last > 0.0 then
      var full := b.tokens + (Worth(rate, at) - Worth(rate, b.last));
      if full > burst then burst else full
    else b.tokens
  }

  /** As time passes every open budget gains the same. */
  lemma SlackGains(rate: real, burst: real, h: seq<Call>, level: real, since: real, now: real)
    requires AtMostSlack(rate, burst, h, level, since) && SomeSlack(rate, burst, h, level, since)
    ensures AtMostSlack(rate, burst, h, level + (Worth(rate, now) - Worth(rate, since)), now)
    ensures SomeSlack(rate, burst, h, level + (Worth(rate, now) - Worth(rate, since)), now)
  {
    var gain := Worth(rate, now) - Worth(rate, since);
    forall j | 0 <= j < |h|
      ensures Slack(rate, burst, h, j, now) == Slack(rate, burst, h, j, since) + gain
    {
    }
    var w :| 0 <= w < |h| && level == Slack(rate, burst, h, w, since);
    assert level + gain == Slack(rate, burst, h, w, now);
  }

  /** The level a refill brings the bucket to, without the cap. */
  function Uncapped(rate: real, b: Bucket, at: real): real
  {
    b.tokens + (Worth(rate, Max(b.last, at)) - Worth(rate, b.last))
  }

  lemma RefilledIsCapped(rate: real, burst: real, b: Bucket, at: real)
    requires b.tokens <= burst
    ensures Refilled(rate, burst, b, at) == if Uncapped(rate, b, at) > burst then burst else Uncapped(rate, b, at)
  {
  }

  lemma UncappedIsLeast(rate: real, burst: real, b: Bucket, h: seq<Call>, at: real)
    requires h != [] && Represents(rate, burst, b, h)
    ensures AtMostSlack(rate, burst, h, Uncapped(rate, b, at), NowAt(h, at))
    ensures SomeSlack(rate, burst, h, Uncapped(rate, b, at), NowAt(h, at))
  {
    SlackGains(rate, burst, h, b.tokens, b.last, Max(b.last, at));
  }

  /** On a bucket that represents `h`, the level after the refill decides as the whole-history rule does. */
  lemma LevelDecides(rate: real, burst: real, b: Bucket, h: seq<Call>, at: real)
    requires h != [] && Represents(rate, burst, b, h)
    ensures Refilled(rate, burst, b, at) >= 1.0 <==> WithinBudget(rate, burst, h, at)
  {
    RefilledIsCapped(rate, burst, b, at);
    UncappedIsLeast(rate, burst, b, h, at);
    LeastDecides(rate, burst, h, Uncapped(rate, b, at), NowAt(h, at));
  }

  lemma LeastDecides(rate: real, burst: real, h: seq<Call>, level: real, now: real)
    requires AtMostSlack(rate, burst, h, level, now) && SomeSlack(rate, burst, h, level, now)
    ensures level >= 1.0 <==> OpenBudgets(rate, burst, h, now)
  {
  }

  /** Once the call's own budget is open too, the capped level less what the call took is the least slack. */
  lemma LeastAfter(rate: real, burst: real, h: seq<Call>, c: Call, level: real, now: real)
    requires AtMostSlack(rate, burst, h, level, now) && SomeSlack(rate, burst, h, level, now)
    requires now == Clock(h + [c])
    ensures var capped := if level > burst then burst else level;
            && AtMostSlack(rate, burst, h + [c], capped - Spent(c), now)
            && SomeSlack(rate, burst, h + [c], capped - Spent(c), now)
  {
    SlackOwn(rate, burst, h, c, now);
    forall j | 0 <= j < |h|
      ensures Slack(rate, burst, h + [c], j, now) == Slack(rate, burst, h, j, now) - Spent(c)
    {
      SlackAfter(rate, burst, h, c, j, now);
    }
    if level > burst {
      assert burst - Spent(c) == Slack(rate, burst, h + [c], |h|, now);
    } else {
      var w :| 0 <= w < |h| && level == Slack(rate, burst, h, w, now);
      assert level - Spent(c) == Slack(rate, burst, h + [c], w, now);
    }
  }

  /** One call keeps the bucket the least slack of the longer history. */
  lemma CallKeepsRepresents(rate: real, burst: real, b: Bucket, h: seq<Call>, c: Call)
    requires h != [] && Represents(rate, burst, b, h)
    ensures Represents(rate, burst, Bucket(Refilled(rate, burst, b, c.at) - Spent(c), Max(b.last, c.at)), h + [c])
  {
    RefilledIsCapped(rate, burst, b, c.at);
    UncappedIsLeast(rate, burst, b, h, c.at);
    ClockAfter(h, c);
    LeastAfter(rate, burst, h, c, Uncapped(rate, b, c.at), NowAt(h, c.at));
  }

  /** The first call of a key, on a full bucket. */
  lemma FirstCallRepresents(rate: real, burst: real, c: Call)
    requires c.ok == (burst >= 1.0)
    ensures c.ok <==> WithinBudget(rate, burst, [], c.at)
    ensures Represents(rate, burst, Bucket(burst - Spent(c), c.at), [c])
  {
    SlackOwn(rate, burst, [], c, c.at);
    assert [] + [c] == [c];
    assert Slack(rate, burst, [c], 0, c.at) == burst - Spent(c);
  }

  lemma LawfulAfter(rate: real, burst: real, h: seq<Call>, c: Call)
    requires Lawful(rate, burst, h)
    requires c.ok <==> WithinBudget(rate, burst, h, c.at)
    ensures Lawful(rate, burst, h + [c])
  {
    forall i | 0 <= i < |h + [c]|
      ensures LawfulAt(rate, burst, h + [c], i)
    {
      assert i < |h| ==> LawfulAt(rate, burst, h, i);
      assert (h + [c])[..i] == if i == |h| then h else h[..i];
    }
  }

  lemma ForAfter(log: seq<Call>, c: Call, key: string)
    ensures For(log + [c], key) == if c.key == key then For(log, key) + [c] else For(log, key)
  {
    assert (log + [c])[..|log|] == log;
  }

  /** What the limiter knows of one key: nothing yet, or a bucket that represents its calls. */
  ghost predicate Tracks(rate: real, burst: real, buckets: map<string, Bucket>, key: string, h: seq<Call>)
  {
    && (key in buckets <==> h != [])
    && (key in buckets ==> Represents(rate, burst, buckets[key], h))
    && Lawful(rate, burst, h)
  }

  /** A later call of a key: the refilled level decides, and the spent bucket represents the longer history. */
  lemma {:induction false} LaterCall(rate: real, burst: real, b: Bucket, h: seq<Call>, c: Call)
    requires h != [] && Represents(rate, burst, b, h)
    requires c.ok == (Refilled(rate, burst, b, c.at) >= 1.0)
    ensures c.ok <==> WithinBudget(rate, burst, h, c.at)
    ensures Represents(rate, burst, Bucket(Refilled(rate, burst, b, c.at) - Spent(c), Max(b.last, c.at)), h + [c])
  {
    LevelDecides(rate, burst, b, h, c.at);
    CallKeepsRepresents(rate, burst, b, h, c);
  }

  /** The first call of a key: the same, on a full bucket. */
  lemma {:induction false} FirstCall(rate: real, burst: real, c: Call)
    requires c.ok == (Refilled(rate, burst, Bucket(burst, c.at), c.at) >= 1.0)
    ensures c.ok <==> WithinBudget(rate, burst, [], c.at)
    ensures Represents(rate, burst, Bucket(Refilled(rate, burst, Bucket(burst, c.at), c.at) - Spent(c), c.at), [c])
  {
    FirstCallRepresents(rate, burst, c);
  }

  /** The key's new bucket tracks its longer history. */
  lemma {:induction false} TracksAfter(rate: real, burst: real, buckets: map<string, Bucket>, key: string, h: seq<Call>,
                                       c: Call, b': Bucket)
    requires Tracks(rate, burst, buckets, key, h) && Represents(rate, burst, b', h + [c])
    requires c.ok <==> WithinBudget(rate, burst, h, c.at)
    ensures Tracks(rate, burst, buckets[key := b'], key, h + [c])
  {
    LawfulAfter(rate, burst, h, c);
  }

  /** The buckets track every key's own calls. */
  ghost predicate AllTrack(rate: real, burst: real, buckets: map<string, Bucket>, log: seq<Call>)
  {
    forall k :: Tracks(rate, burst, buckets, k, For(log, k))
  }

  lemma AllTrackAfter(rate: real, burst: real, buckets: map<string, Bucket>, log: seq<Call>, c: Call, b': Bucket)
    requires AllTrack(rate, burst, buckets, log)
    requires Tracks(rate, burst, buckets[c.key := b'], c.key, For(log, c.key) + [c])
    ensures AllTrack(rate, burst, buckets[c.key := b'], log + [c])
  {
    forall k ensures Tracks(rate, burst, buckets[c.key := b'], k, For(log + [c], k)) {
      ForAfter(log, c, k);
      assert Tracks(rate, burst, buckets, k, For(log, k));
    }
  }

  class RateLimiter {
    const rate: real
    const burst: int
    var buckets: map<string, Bucket>

    /** Every call answered so far, over all keys. */
    ghost var log: seq<Call>

    ghost predicate Valid()
      reads this
    {
      AllTrack(rate, burst as real, buckets, log)
    }

    constructor (ratePerSec: real, burst: int)
      ensures Valid() && log == [] && buckets == map[] && rate == ratePerSec && this.burst == burst
    {
      rate, this.burst, buckets, log := ratePerSec, burst, map[], [];
    }

    /** Adds what was earned since the last reading, up to the capacity. */
    method Refill(b: Bucket, t: real) returns (b': Bucket)
      ensures b' == Bucket(Refilled(rate, burst as real, b, t), Max(b.last, t))
    {
      b' := b;
      var elapsed := t - b.last;
      WorthOfStretch(rate, b.last, t);
      if elapsed > 0.0 {
        b' := Bucket(b'.tokens + elapsed * rate, t);
        if b'.tokens > burst as real {
          b' := b'.(tokens := burst as real);
        }
      }
    }

    /** The verdict is the whole-history rule on this key's own calls. */
    method Allow(key: string, t: real) returns (ok: bool)
      requires Valid()
      modifies this
      ensures Valid()
      ensures ok <==> WithinBudget(rate, burst as real, old(For(log, key)), t)
      ensures log == old(log) + [Call(key, t, ok)]
    {
      var b := if key in buckets then buckets[key] else Bucket(burst as real, t);
      ghost var was := b;
      b := Refill(b, t);
      ok := b.tokens >= 1.0;
      if ok {
        b := b.(tokens := b.tokens - 1.0);
      }
      ghost var c := Call(key, t, ok);
      assert Tracks(rate, burst as real, buckets, key, For(log, key));
      ghost var h := For(log, key);
      if key in buckets {
        LaterCall(rate, burst as real, was, h, c);
      } else {
        FirstCall(rate, burst as real, c);
        assert h + [c] == [c];
      }
      TracksAfter(rate, burst as real, buckets, key, h, c, b);
      AllTrackAfter(rate, burst as real, buckets, log, c, b);
      buckets := buckets[key := b];
      log := log + [c];
    }
  }

  // ---- consequences of the rule, for every lawful history ----

  lemma AdmittedAfter(h: seq<Call>, i: nat, k: nat)
    requires i < k <= |h|
    ensures Admitted(h[i..k]) == Admitted(h[i..k - 1]) + Spent(h[k - 1])
  {
    assert h[i..k][..k - 1 - i] == h[i..k - 1];
  }

  /** An admitted call fits every budget that is open when it is made. */
  lemma AdmittedFits(rate: real, burst: real, h: seq<Call>, i: nat, k: nat)
    requires Lawful(rate, burst, h) && i < k <= |h| && h[k - 1].ok
    ensures Admitted(h[i..k - 1]) + 1.0 <= burst + (Worth(rate, Clock(h[..k])) - Worth(rate, Clock(h[..i + 1])))
  {
    var past, last := h[..k - 1], h[k - 1];
    assert LawfulAt(rate, burst, h, k - 1);
    assert h[..k] == past + [last];
    if i == k - 1 {
      assert h[..i + 1] == h[..k];
      assert h[i..k - 1] == [];
    } else {
      ClockAfter(past, last);
      assert past[..i + 1] == h[..i + 1];
      assert past[i..] == h[i..k - 1];
      assert 1.0 <= Slack(rate, burst, past, i, Clock(h[..k]));
    }
  }

  /**
   * No stretch of calls, from any call i to any later call k, holds more
   * admissions than burst + rate * (elapsed running-maximum time), for every rate
   * and burst SetRateLimit accepts.
   */
  lemma {:induction false} AdmissionsBounded(rate: real, burst: real, h: seq<Call>, i: nat, k: nat)
    requires rate > 0.0 && burst > 0.0
    requires Lawful(rate, burst, h)
    requires i < k <= |h|
    ensures Admitted(h[i..k]) <= burst + (Worth(rate, Clock(h[..k])) - Worth(rate, Clock(h[..i + 1])))
    decreases k
  {
    AdmittedAfter(h, i, k);
    if h[k - 1].ok {
      AdmittedFits(rate, burst, h, i, k);
    } else if i < k - 1 {
      AdmissionsBounded(rate, burst, h, i, k - 1);
      assert h[..k] == h[..k - 1] + [h[k - 1]];
      ClockAfter(h[..k - 1], h[k - 1]);
      WorthMonotone(rate, Clock(h[..k - 1]), Clock(h[..k]));
    } else {
      assert h[i..k - 1] == [];
      assert h[..i + 1] == h[..k];
    }
  }
}
