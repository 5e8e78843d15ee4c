/** The read-only circuit breaker: policy defaults and the suspension verdict. Milliseconds. */
module Suspension {
  import opened Seqs

  datatype Policy = Policy(banMs: int, maxBanMs: int, times: map<string, int>)

  const DEFAULTS: Policy := Policy(5_000, 86_400_000,
                                   map["rate_limit" := 180_000, "captcha" := 3_600_000, "access_denied" := 86_400_000,
                                       "timeout" := 300_000, "network" := 300_000,
                                       "parse" := 900_000, "no_result" := 300_000])

  /** The zero time: seconds of year 1 before the Unix epoch, in milliseconds. */
  const ZERO_TIME: int := -62_135_596_800_000

  /** Positive overrides replace or extend the default pauses; others count for nothing. */
  function MergedTimes(times: map<string, int>): map<string, int> {
    MergedExcept(times, {})
  }

  function MergedExcept(times: map<string, int>, rest: set<string>): map<string, int> {
    DEFAULTS.times + map k | k in times && k !in rest && times[k] > 0 :: times[k]
  }

  lemma MergeOne(times: map<string, int>, rest: set<string>, k: string)
    requires k in times && k in rest
    ensures MergedExcept(times, rest - {k}) ==
            if times[k] > 0 then MergedExcept(times, rest)[k := times[k]] else MergedExcept(times, rest)
  {}

  function Normalized(p: Policy): Policy {
    var ban := if p.banMs <= 0 then DEFAULTS.banMs else p.banMs;
    var most := if p.maxBanMs <= 0 then DEFAULTS.maxBanMs else p.maxBanMs;
    Policy(ban, Max(most, ban), MergedTimes(p.times))
  }

  /** Fills in the missing fields; the order in which the overrides are visited does not matter. */
  method Normalize(p: Policy) returns (q: Policy)
    ensures q == Normalized(p)
  {
    q := p;
    if q.banMs <= 0 {
      q := q.(banMs := DEFAULTS.banMs);
    }
    if q.maxBanMs <= 0 {
      q := q.(maxBanMs := DEFAULTS.maxBanMs);
    }
    if q.maxBanMs < q.banMs {
      q := q.(maxBanMs := q.banMs);
    }
    var merged := MergeTimes(p.times);
    q := q.(times := merged);
  }

  method MergeTimes(times: map<string, int>) returns (merged: map<string, int>)
    ensures merged == MergedTimes(times)
  {
    merged := DEFAULTS.times;
    var rest := times.Keys;
    assert merged == MergedExcept(times, rest);
    hide MergedExcept;
    while rest != {}
      invariant rest <= times.Keys && merged == MergedExcept(times, rest)
      decreases rest
    {
      var k :| k in rest;
      MergeOne(times, rest, k);
      if times[k] > 0 {
        merged := merged[k := times[k]];
      }
      rest := rest - {k};
    }
  }

  /** A normalised policy has positive pauses, a cap no lower than the base pause, an entry for
      every known kind, and is not changed by normalising again. */
  lemma NormalizedFacts(p: Policy)
    ensures var q := Normalized(p);
            && 0 < q.banMs <= q.maxBanMs && (forall k :: k in q.times ==> q.times[k] > 0)
            && DEFAULTS.times.Keys <= q.times.Keys && Normalized(q) == q
            && (forall k :: k in p.times && p.times[k] > 0 ==> q.times[k] == p.times[k])
  {
    var q := Normalized(p);
    forall k | k in q.times ensures q.times[k] > 0 {
      if !(k in p.times && p.times[k] > 0) {
        DefaultsPositive(k);
      }
    }
    assert MergedTimes(q.times) == q.times;
  }

  lemma DefaultsPositive(k: string)
    requires k in DEFAULTS.times
    ensures DEFAULTS.times[k] > 0
  {}

  datatype Verdict = Verdict(suspended: bool, until: int, baseMs: int, errorKind: string, streak: int)

  /** How long a failure of this kind pauses a source. */
  function Pause(policy: Policy, kind: string): int {
    var p := Normalized(policy);
    Min(if kind in p.times && p.times[kind] > 0 then p.times[kind] else p.banMs, p.maxBanMs)
  }

  /** The pause that applies to an error kind: the caller's own for it, else the built-in one, else the
      base pause, 5 seconds if the caller sets none; never longer than the cap, which is a day if the
      caller sets none, and never below the base. */
  lemma PauseMeans(policy: Policy, kind: string)
    ensures var base := if policy.banMs <= 0 then 5_000 else policy.banMs;
            var cap := Max(if policy.maxBanMs <= 0 then 86_400_000 else policy.maxBanMs, base);
            var own := kind in policy.times && policy.times[kind] > 0;
            && (own ==> Pause(policy, kind) == Min(policy.times[kind], cap))
            && (!own && kind == "rate_limit" ==> Pause(policy, kind) == Min(180_000, cap))
            && (!own && kind == "captcha" ==> Pause(policy, kind) == Min(3_600_000, cap))
            && (!own && kind == "access_denied" ==> Pause(policy, kind) == Min(86_400_000, cap))
            && (!own && kind in {"timeout", "network", "no_result"} ==> Pause(policy, kind) == Min(300_000, cap))
            && (!own && kind == "parse" ==> Pause(policy, kind) == Min(900_000, cap))
            && (!own && kind !in DEFAULTS.times ==> Pause(policy, kind) == base)
  {}

  function EvaluateSuspension(policy: Policy, streak: int, lastKind: string, lastAt: int, now: int): Verdict {
    if streak < 3 || lastAt == ZERO_TIME then Verdict(false, ZERO_TIME, 0, lastKind, streak)
    else
      var base := Pause(policy, lastKind);
      Verdict(lastAt + base > now, lastAt + base, base, lastKind, streak)
  }

  /** The pause is positive and never longer than the cap, so a failure that has just happened
      suspends after two others, and every suspension ends within the cap. */
  lemma PauseBounds(policy: Policy, streak: int, kind: string, at: int, now: int)
    ensures 0 < Pause(policy, kind) <= Normalized(policy).maxBanMs
    ensures streak >= 3 && at == now != ZERO_TIME ==> EvaluateSuspension(policy, streak, kind, at, now).suspended
    ensures now >= at + Normalized(policy).maxBanMs ==> !EvaluateSuspension(policy, streak, kind, at, now).suspended
  {
    NormalizedFacts(policy);
  }
}
