/** Failover across API-key providers: the per-provider retry loop over a key pool, the walk over
    providers, and the choice of the first one. An engine call is an oracle that may draw a key. */
module Apipool {
  import opened KeyPools
  import opened Modular
  import opened Seqs
  import opened Weighted

  /** What one engine call did. KeyRejected and Failed come after a key was drawn (the first names
      the key in a KeyError); NoDraw is an error raised before the engine asked the pool. */
  datatype Attempt<T> = Served(results: seq<T>) | KeyRejected | Failed | NoDraw

  // ---- the retry loop ----

  /** Exactly the slots of A are usable, at every instant from t0 to horizon. */
  ghost predicate Settled(p: Pool, A: set<nat>, t0: int, horizon: int) {
    && (forall s :: s in A ==> s < |p.until|)
    && forall s: nat :: s < |p.until| ==>
         var u := p.until[s];
         if s in A then u.None? || u.value < t0 else u.Some? && u.value >= horizon
  }

  /** No cooldown runs out during the call: its first ticks lie in [clock(0), horizon], where
      nothing that cools down at the start recovers, nor anything marked on the way. */
  ghost predicate NoExpiry(p: Pool, clock: nat -> int, ticks: nat, horizon: int) {
    && clock(0) <= horizon <= clock(0) + TTL
    && (forall t: nat :: t < ticks ==> clock(0) <= clock(t) <= horizon)
    && forall s: nat :: s < |p.until| && p.until[s].Some? ==> p.until[s].value < clock(0) || p.until[s].value >= horizon
  }

  lemma SettledUsable(p: Pool, A: set<nat>, t0: int, horizon: int, t: int)
    requires Settled(p, A, t0, horizon) && t0 <= t <= horizon
    ensures UsableSlots(p, t) == A
  {}

  /** The slots of the first failures went into cooldown when those were marked, and no slot but
      those tried has changed. */
  ghost predicate CoolingSince(p: Pool, q: Pool, tried: seq<nat>, failures: nat, clock: nat -> int)
    requires |p.until| == |q.until| && failures <= |tried|
  {
    && (forall i :: 0 <= i < failures ==> tried[i] < |q.until| && q.until[tried[i]] == Some(clock(3 * i + 1) + TTL))
    && forall s: nat :: s < |q.until| && s !in tried ==> q.until[s] == p.until[s]
  }

  lemma CoolingStep(p: Pool, q: Pool, r: Pool, tried: seq<nat>, slot: nat, failed: bool, clock: nat -> int)
    requires |p.until| == |q.until| == |r.until| && slot < |q.until| && slot !in tried
    requires CoolingSince(p, q, tried, |tried|, clock)
    requires forall s: nat :: s < |q.until| && s != slot ==> r.until[s] == q.until[s]
    requires failed ==> r.until[slot] == Some(clock(3 * |tried| + 1) + TTL)
    ensures CoolingSince(p, r, tried + [slot], |tried| + if failed then 1 else 0, clock)
  {
    forall i | 0 <= i < |tried| ensures tried[i] != slot {}
  }

  /** One failed attempt: the slot drawn was usable if any was, and it no longer is. */
  lemma FailedAttempt(p: Pool, p1: Pool, slot: nat, A: set<nat>, t0: int, horizon: int, drawAt: int, markAt: int,
                      k: nat)
    requires WellFormed(p) && WellFormed(p1) && |p.keys| < WRAP && Steady(p.cursor, |p.keys|, |p.keys| + k)
    requires Settled(p, A, t0, horizon) && t0 <= drawAt <= horizon <= t0 + TTL && t0 <= markAt
    requires Draws(p, drawAt, p1, slot)
    ensures A != {} ==> slot in A
    ensures Settled(Marked(p1, Some(p1.keys[slot]), markAt), A - {slot}, t0, horizon)
    ensures Marked(p1, Some(p1.keys[slot]), markAt).until == p.until[slot := Some(markAt + TTL)]
    ensures Steady(p1.cursor, |p.keys|, k)
  {
    SettledUsable(p, A, t0, horizon, drawAt);
    DrawsBest(p, drawAt, p1, slot);
    DrawSteady(p, drawAt, p1, slot, k);
    SettledAfterMark(p, p1, slot, A, t0, horizon, drawAt, markAt);
  }

  lemma DrawSteady(p: Pool, now: int, p1: Pool, slot: nat, k: nat)
    requires WellFormed(p) && |p.keys| < WRAP && Steady(p.cursor, |p.keys|, |p.keys| + k) && Draws(p, now, p1, slot)
    ensures Steady(p.cursor, |p.keys|, |p.keys|) && Steady(p1.cursor, |p.keys|, k)
  {
    hide Steady, FirstUsable, EarliestProbed, SlotAt;
    var j := FirstUsable(p, now, 0);
    SteadyAdvance(p.cursor, if j < |p.until| then j + 1 else j, |p.keys|, k);
  }

  lemma SteadyAdvance(cursor: nat, d: nat, n: nat, k: nat)
    requires 0 < n && d <= n && cursor < WRAP && Steady(cursor, n, n + k)
    ensures Steady(cursor, n, n) && Steady(Wrap(cursor + d), n, k)
  {
    if WRAP % n != 0 && cursor + d == WRAP {
      assert Wrap(cursor + d) == 0;
    }
  }

  lemma SettledAfterMark(p: Pool, p1: Pool, slot: nat, A: set<nat>, t0: int, horizon: int, drawAt: int, markAt: int)
    requires WellFormed(p) && WellFormed(p1) && Draws(p, drawAt, p1, slot)
    requires Settled(p, A, t0, horizon) && horizon <= t0 + TTL && t0 <= markAt
    ensures Settled(Marked(p1, Some(p1.keys[slot]), markAt), A - {slot}, t0, horizon)
    ensures Marked(p1, Some(p1.keys[slot]), markAt).until == p.until[slot := Some(markAt + TTL)]
  {
    hide FirstUsable, EarliestProbed, SlotAt, Steady;
    var q := Marked(p1, Some(p1.keys[slot]), markAt);
    assert |p.until| == |p.keys|;
    forall s: nat | s < |p.keys| ensures q.until[s] == if s == slot then Some(markAt + TTL) else p.until[s] {
      assert s != slot ==> p.keys[s] != p.keys[slot];
    }
  }

  /** The most cursor steps that are left after so many calls: at most n for each slot. */
  function Probes(n: nat, calls: nat): nat
    requires calls <= n
  {
    ProductNat(n, n - calls);
    n * (n - calls)
  }

  lemma ProductNat(a: nat, b: nat)
    ensures a * b >= 0
  {}

  lemma ProbesStep(n: nat, calls: nat)
    requires calls < n
    ensures Probes(n, calls) == n + Probes(n, calls + 1)
  {
    assert n * (n - calls) == n * (n - calls - 1) + n;
  }

  /** One round of the loop: call the engine, and on failure put the key it drew into cooldown
      and count what is left. */
  method RetryRound<T>(pool: KeyPool, attempt: Attempt<T>, drawAt: int, markAt: int, checkAt: int,
                       ghost A: set<nat>, ghost t0: int, ghost horizon: int, ghost k: nat)
    returns (r: Option<seq<T>>, left: nat, ghost slot: nat)
    requires pool.Valid() && |pool.keys| < WRAP && Steady(pool.idx, |pool.keys|, |pool.keys| + k)
    requires attempt != NoDraw && Settled(pool.View(), A, t0, horizon)
    requires t0 <= drawAt <= horizon && t0 <= markAt && t0 <= checkAt <= horizon <= t0 + TTL
    modifies pool
    ensures pool.Valid() && pool.keys == old(pool.keys) && slot < |pool.keys| == |pool.states| == |old(pool.states)|
    ensures pool.drawn == old(pool.drawn) + [slot]
    ensures A != {} ==> slot in A
    ensures forall s: nat :: s < |pool.keys| && s != slot ==> pool.states[s] == old(pool.states[s])
    ensures attempt.Served? && A != {} ==> pool.states[slot] == None
    ensures !attempt.Served? ==> pool.states == old(pool.states)[slot := Some(markAt + TTL)]
    ensures r == if attempt.Served? then Some(attempt.results) else None
    ensures r.None? ==>
              && Settled(pool.View(), A - {slot}, t0, horizon) && left == |A - {slot}|
              && Steady(pool.idx, |pool.keys|, k)
  {
    ghost var before := pool.View();
    var key;
    key, slot := pool.Next(drawAt);
    FailedAttempt(before, pool.View(), slot, A, t0, horizon, drawAt, markAt, k);
    if attempt.Served? {
      return Some(attempt.results), 0, slot;
    }
    if attempt.KeyRejected? {
      pool.MarkInvalid(key, markAt);
    } else {
      pool.MarkLastInvalid(markAt);
    }
    r := None;
    left := pool.Available(checkAt);
    SettledUsable(pool.View(), A - {slot}, t0, horizon, checkAt);
  }

  lemma InitiallySettled(p: Pool, clock: nat -> int, ticks: nat, horizon: int)
    requires WellFormed(p) && NoExpiry(p, clock, ticks, horizon)
    ensures Settled(p, UsableSlots(p, clock(0)), clock(0), horizon) && |p.keys| > 0
    ensures |UsableSlots(p, clock(0))| <= |p.keys| && Probes(|p.keys|, 0) == |p.keys| * |p.keys|
    ensures forall s :: s in UsableSlots(p, clock(0)) ==> s < |p.keys|
  {
    SubsetOfSlots(UsableSlots(p, clock(0)), |p.keys|);
  }

  /** The slots drawn so far are distinct, and usable at the start unless none was; the first calls
      failed, and it is their slots that cool down. */
  ghost predicate Tried<T>(p: Pool, q: Pool, plan: nat -> Attempt<T>, clock: nat -> int, tried: seq<nat>,
                           failures: nat) {
    && q.keys == p.keys && |q.until| == |p.until| == |p.keys| && failures <= |tried| && NoDuplicates(tried)
    && (forall s :: s in tried ==> s < |p.keys| && (|tried| > 1 ==> s in UsableSlots(p, clock(0))))
    && (forall k: nat :: k < failures ==> !plan(k).Served?)
    && CoolingSince(p, q, tried, failures, clock)
  }

  lemma TriedNone<T>(p: Pool, plan: nat -> Attempt<T>, clock: nat -> int)
    requires WellFormed(p)
    ensures Tried(p, p, plan, clock, [], 0)
  {}

  lemma TriedOne<T>(p: Pool, q: Pool, r: Pool, plan: nat -> Attempt<T>, clock: nat -> int, tried: seq<nat>, slot: nat)
    requires Tried(p, q, plan, clock, tried, |tried|) && slot !in tried && slot < |p.keys|
    requires slot in UsableSlots(p, clock(0)) || tried == []
    requires forall s :: s in tried ==> s in UsableSlots(p, clock(0))
    requires r.keys == q.keys && |r.until| == |q.until| &&
             forall s: nat :: s < |q.until| && s != slot ==> r.until[s] == q.until[s]
    requires !plan(|tried|).Served? ==> r.until[slot] == Some(clock(3 * |tried| + 1) + TTL)
    ensures Tried(p, r, plan, clock, tried + [slot], |tried| + if plan(|tried|).Served? then 0 else 1)
  {
    CoolingStep(p, q, r, tried, slot, !plan(|tried|).Served?, clock);
  }

  /** How the loop ends, p being the pool before and q after: the calls drew the slots `tried`, at
      most max(1, usable) of them and exactly that many when all failed; the first success is the
      answer, and its slot is the only one tried that is not cooling down. */
  ghost predicate Retried<T>(p: Pool, q: Pool, plan: nat -> Attempt<T>, clock: nat -> int, maxSize: int,
                             tried: seq<nat>, r: Option<seq<T>>) {
    var bound, calls := Max(1, |UsableSlots(p, clock(0))|), |tried|;
    && 1 <= calls <= bound
    && if r.None? then calls == bound && Tried(p, q, plan, clock, tried, calls)
       else && plan(calls - 1).Served? && r.value == Cap(plan(calls - 1).results, maxSize)
            && Tried(p, q, plan, clock, tried, calls - 1)
            && (UsableSlots(p, clock(0)) != {} ==> tried[calls - 1] < |q.until| && q.until[tried[calls - 1]] == None)
  }

  /** Of all slots usable at the start, those tried are used up and A is left. */
  ghost predicate Left(all: set<nat>, A: set<nat>, tried: seq<nat>) {
    A <= all && |tried| + |A| == |all| && forall s :: s in tried ==> s in all && s !in A
  }

  lemma LeftStep(all: set<nat>, A: set<nat>, tried: seq<nat>, slot: nat)
    requires Left(all, A, tried) && (A != {} || tried == []) && (A != {} ==> slot in A)
    ensures slot !in tried && (slot in all || tried == []) && forall s :: s in tried ==> s in all
    ensures |tried| + 1 <= Max(1, |all|)
    ensures |A - {slot}| == 0 ==> |tried| + 1 == Max(1, |all|)
    ensures A != {} ==> Left(all, A - {slot}, tried + [slot])
    ensures all != {} ==> A != {}
  {
    if A == {} {
      assert |all| == 0;
    }
  }

  /** If every call draws a key before it fails and no cooldown runs out meanwhile, the loop ends
      after at most max(1, available keys) calls, exactly that many when all fail. Each call draws
      one key and no key is drawn twice; exactly the keys of the failed calls go into cooldown, and
      the first call that succeeds is served. */
  method CallProviderWithRetry<T>(pool: KeyPool, plan: nat -> Attempt<T>, clock: nat -> int, maxSize: int,
                                  ghost horizon: int)
    returns (r: Option<seq<T>>, ghost tried: seq<nat>)
    requires pool.Valid() && |pool.keys| < WRAP && Steady(pool.idx, |pool.keys|, |pool.keys| * |pool.keys|)
    requires forall k :: plan(k) != NoDraw
    requires NoExpiry(pool.View(), clock, 3 * |pool.keys|, horizon)
    modifies pool
    ensures pool.Valid() && pool.drawn == old(pool.drawn) + tried
    ensures Retried(old(pool.View()), pool.View(), plan, clock, maxSize, tried, r)
  {
    hide Settled, UsableSlots, Steady, WellFormed, Probes, Tried, Retried, NoExpiry, Left;
    ghost var p, drawn := pool.View(), pool.drawn;
    ghost var n, t0 := |pool.keys|, clock(0);
    ghost var A := UsableSlots(p, t0);
    InitiallySettled(p, clock, 3 * n, horizon);
    TriedNone(p, plan, clock);
    tried := [];
    assert Left(A, A, tried) by { AllLeft(A); }
    ghost var all := A;
    var calls: nat := 0;
    while true
      invariant pool.Valid() && pool.keys == p.keys && |pool.states| == n && pool.drawn == drawn + tried
      invariant Settled(pool.View(), A, t0, horizon) && Left(all, A, tried)
      invariant |tried| == calls < n && (calls > 0 ==> A != {})
      invariant Steady(pool.idx, n, Probes(n, calls))
      invariant Tried(p, pool.View(), plan, clock, tried, calls)
      decreases n - calls
    {
      ProbesStep(n, calls);
      RoundInTime(p, clock, n, horizon, calls);
      ghost var q := pool.View();
      var served, left, slot := RetryRound(pool, plan(calls), clock(3 * calls), clock(3 * calls + 1),
                                           clock(3 * calls + 2),
                                           A, t0, horizon, Probes(n, calls + 1));
      LeftStep(all, A, tried, slot);
      TriedOne(p, q, pool.View(), plan, clock, tried, slot);
      tried := tried + [slot];
      calls := calls + 1;
      if served.Some? {
        RetrySucceeds(p, pool.View(), plan, clock, maxSize, tried);
        return Some(Cap(served.value, maxSize)), tried;
      }
      if left == 0 {
        RetryFails(p, pool.View(), plan, clock, maxSize, tried);
        return None, tried;
      }
      A := A - {slot};
      LeftOver(all, A, tried);
    }
  }

  lemma AllLeft(all: set<nat>)
    ensures Left(all, all, [])
  {}

  lemma LeftOver(all: set<nat>, A: set<nat>, tried: seq<nat>)
    requires Left(all, A, tried) && A != {}
    ensures |tried| < |all|
  {}

  lemma RoundInTime(p: Pool, clock: nat -> int, n: nat, horizon: int, calls: nat)
    requires NoExpiry(p, clock, 3 * n, horizon) && calls < n
    ensures clock(0) <= clock(3 * calls) <= horizon <= clock(0) + TTL
    ensures clock(0) <= clock(3 * calls + 1) && clock(0) <= clock(3 * calls + 2) <= horizon
  {}

  lemma RetrySucceeds<T>(p: Pool, q: Pool, plan: nat -> Attempt<T>, clock: nat -> int, maxSize: int, tried: seq<nat>)
    requires 1 <= |tried| <= Max(1, |UsableSlots(p, clock(0))|) && plan(|tried| - 1).Served?
    requires Tried(p, q, plan, clock, tried, |tried| - 1)
    requires UsableSlots(p, clock(0)) != {} ==> tried[|tried| - 1] < |q.until| && q.until[tried[|tried| - 1]] == None
    ensures Retried(p, q, plan, clock, maxSize, tried, Some(Cap(plan(|tried| - 1).results, maxSize)))
  {}

  lemma RetryFails<T>(p: Pool, q: Pool, plan: nat -> Attempt<T>, clock: nat -> int, maxSize: int, tried: seq<nat>)
    requires |tried| == Max(1, |UsableSlots(p, clock(0))|) && Tried(p, q, plan, clock, tried, |tried|)
    ensures Retried(p, q, plan, clock, maxSize, tried, None)
  {}

  lemma {:induction false} SubsetOfSlots(A: set<nat>, n: nat)
    requires forall s :: s in A ==> s < n
    ensures |A| <= n
  {
    if n > 0 {
      SubsetOfSlots(A - {n - 1}, n - 1);
    } else {
      assert A == {};
    }
  }

  // ---- when the engine fails before it draws a key ----

  /** The pool after k rounds of an engine that fails without drawing: each round marks the key
      handed out last, which stays the same one. */
  ghost function AfterUndrawn(p: Pool, clock: nat -> int, k: nat): (r: Pool)
    requires WellFormed(p)
    ensures WellFormed(r) && r.keys == p.keys && r.lastKey == p.lastKey
  {
    if k == 0 then p else Marked(AfterUndrawn(p, clock, k - 1), p.lastKey, clock(2 * (k - 1)))
  }

  /** After its first k rounds the loop has still found a usable key every time, so goes on. */
  ghost predicate StillRetrying(p: Pool, clock: nat -> int, k: nat)
    requires WellFormed(p)
  {
    forall i: nat :: i < k ==> UsableSlots(AfterUndrawn(p, clock, i + 1), clock(2 * i + 1)) != {}
  }

  lemma {:induction false} UntouchedSlot(p: Pool, clock: nat -> int, k: nat, s: nat)
    requires WellFormed(p) && s < |p.keys| && p.lastKey != Some(p.keys[s])
    ensures AfterUndrawn(p, clock, k).until[s] == p.until[s]
  {
    if k > 0 {
      UntouchedSlot(p, clock, k - 1, s);
    }
  }

  /** An engine that always fails before drawing a key keeps the retry loop going for ever exactly
      when some key other than the one handed out last is usable at the first check; otherwise the
      loop gives up after one call. The drawing assumption of CallProviderWithRetry is needed. */
  lemma UndrawnRetriesForever(p: Pool, clock: nat -> int)
    requires WellFormed(p)
    requires forall i: nat, j: nat :: i <= j ==> clock(i) <= clock(j)
    requires clock(1) <= clock(0) + TTL
    ensures (forall k: nat :: StillRetrying(p, clock, k))
            <==> exists s :: s in UsableSlots(p, clock(1)) && p.lastKey != Some(p.keys[s])
    ensures !(exists s :: s in UsableSlots(p, clock(1)) && p.lastKey != Some(p.keys[s]))
            ==> !StillRetrying(p, clock, 1)
  {
    if s :| s in UsableSlots(p, clock(1)) && p.lastKey != Some(p.keys[s]) {
      forall i: nat ensures s in UsableSlots(AfterUndrawn(p, clock, i + 1), clock(2 * i + 1)) {
        UntouchedSlot(p, clock, i + 1, s);
      }
    } else {
      var q := AfterUndrawn(p, clock, 1);
      assert AfterUndrawn(p, clock, 0) == p && 2 * (1 - 1) == 0;
      assert q == Marked(p, p.lastKey, clock(0));
      forall s: nat | s < |p.keys| ensures !Usable(q.until[s], clock(1)) {
        assert s in UsableSlots(p, clock(1)) ==> p.lastKey == Some(p.keys[s]);
      }
      assert UsableSlots(q, clock(2 * 0 + 1)) == {};
      assert !StillRetrying(p, clock, 1);
    }
  }

  /** A fresh pool never stops such an engine. */
  lemma FreshPoolUndrawn(p: Pool, clock: nat -> int)
    requires WellFormed(p) && p.lastKey.None? && forall s :: 0 <= s < |p.until| ==> p.until[s].None?
    requires forall i: nat, j: nat :: i <= j ==> clock(i) <= clock(j)
    requires clock(1) <= clock(0) + TTL
    ensures forall k: nat :: StillRetrying(p, clock, k)
  {
    UndrawnRetriesForever(p, clock);
    assert 0 in UsableSlots(p, clock(1));
  }

  // ---- the first provider ----

  /** Remainder that takes the sign of its left operand. */
  function SignedRem(a: int, n: int): int
    requires n > 0
  {
    if a >= 0 then a % n else -(-a % n)
  }

  /** The round-robin start is an index of a provider exactly until the counter passes 2^63,
      except at the multiples of n below zero. */
  lemma RoundRobinStart(idx: nat, n: nat)
    requires n > 0 && idx < WRAP
    ensures 0 <= SignedRem(ToInt64(idx), n) < n <==> idx < WRAP / 2 || (WRAP - idx) % n == 0
  {}

  /** After 2^63 searches over three providers the start is -2. */
  lemma RoundRobinNegative()
    ensures SignedRem(ToInt64(WRAP / 2), 3) == -2
  {}

  /** The counter value c leads to this one of n providers: that number of places on, cyclically. */
  ghost predicate StartsAt(c: nat, n: nat, start: int)
    requires n > 0
  {
    0 <= start < n && (start - c) % n == 0
  }

  lemma SignedRemCongruent(idx: nat, n: nat)
    requires n > 0 && idx < WRAP / 2
    ensures StartsAt(idx, n, SignedRem(ToInt64(idx), n))
  {
    var q := idx / n;
    assert idx == q * n + idx % n;
    ModUnique(idx % n - idx, n, -q, 0);
  }

  lemma StartIs(c: nat, n: nat, start: int)
    requires n > 0 && StartsAt(c, n, start)
    ensures start == c % n
  {
    var q := (start - c) / n;
    assert start - c == q * n;
    ModUnique(c, n, -q, start);
  }

  /** A fresh counter starts at the first provider, and each further search at the next one. */
  lemma NextStart(c: nat, n: nat, start: int, next: int)
    requires n > 0 && StartsAt(c, n, start) && StartsAt(c + 1, n, next)
    ensures next == if start == n - 1 then 0 else start + 1
    ensures c == 0 ==> start == 0
  {
    StartIs(c, n, start);
    StartIs(c + 1, n, next);
    if n == 1 {
      assert next == 0 && start == 0;
    } else {
      ModStep(c, 1, n);
    }
  }

  /** The load rotates: n consecutive searches that the counter decides start exactly once at each of
      the n providers. */
  lemma StartsRotate(c: nat, n: nat, starts: seq<int>)
    requires n > 0 && |starts| == n && forall k :: 0 <= k < n ==> StartsAt(c + k, n, starts[k])
    ensures NoDuplicates(starts) && forall p :: 0 <= p < n ==> p in starts
  {
    forall i, j | 0 <= i < j < n ensures starts[i] != starts[j] {
      StartIs(c + i, n, starts[i]);
      StartIs(c + j, n, starts[j]);
      ModDistinct(c, i, j, n);
    }
    forall p | 0 <= p < n ensures p in starts {
      var k := ModReach(c, p, n);
      StartIs(c + k, n, starts[k]);
    }
  }

  /** pool == null is a free engine. */
  datatype Provider = Provider(name: string, engineName: string, pool: KeyPool?)

  /** Configured weight per usable key; 1 for a free engine or an unlisted name, 0 when switched off. */
  function EffectiveWeight(name: string, engineName: string, usable: Option<nat>,
                           weights: Option<map<string, int>>): nat
  {
    if usable.None? then 1
    else
      var key := if name == "" then engineName else name;
      var w: nat :=
        if weights.Some? && key in weights.value then (if weights.value[key] > 0 then weights.value[key] else 0) else 1;
      w * usable.value
  }

  /** A free engine weighs 1; a pool its number of usable keys times its configured weight, which is 1
      when there is no entry for its name, or for its engine's when it has none, and 0 when that is not
      positive. */
  lemma WeightMeans(name: string, engineName: string, usable: nat, weights: map<string, int>)
    ensures EffectiveWeight(name, engineName, None, Some(weights)) == 1
    ensures EffectiveWeight(name, engineName, Some(usable), None) == usable
    ensures name in weights && name != "" && weights[name] > 0 ==>
              EffectiveWeight(name, engineName, Some(usable), Some(weights)) == weights[name] * usable
    ensures name in weights && name != "" && weights[name] <= 0 ==>
              EffectiveWeight(name, engineName, Some(usable), Some(weights)) == 0
    ensures name !in weights && name != "" ==> EffectiveWeight(name, engineName, Some(usable), Some(weights)) == usable
    ensures EffectiveWeight("", engineName, Some(usable), Some(weights))
            == EffectiveWeight(engineName, engineName, Some(usable), Some(weights))
  {}

  // ---- the search ----

  ghost function PoolOf(p: Provider): Option<Pool>
    reads if p.pool == null then {} else {p.pool}
  {
    if p.pool == null then None else Some(p.pool.View())
  }

  /** The engine calls a provider is allowed: one without a pool, else one per usable key, at least one. */
  ghost function Budget(pool: Option<Pool>, now: int): nat {
    if pool.None? then 1 else Max(1, |UsableSlots(pool.value, now)|)
  }

  /** What CallProviderWithRetry assumes of a pool and of the calls made with its keys. */
  ghost predicate Ready<T>(pool: Option<Pool>, plan: nat -> Attempt<T>, clock: nat -> int, horizon: int) {
    pool.Some? ==>
      && WellFormed(pool.value) && |pool.value.keys| < WRAP
      && Steady(pool.value.cursor, |pool.value.keys|, |pool.value.keys| * |pool.value.keys|)
      && NoExpiry(pool.value, clock, 3 * |pool.value.keys|, horizon)
      && forall k :: plan(k) != NoDraw
  }

  /** None of the first n calls succeeds. */
  ghost predicate AllFail<T>(plan: nat -> Attempt<T>, n: nat) {
    forall k: nat :: k < n ==> !plan(k).Served?
  }

  /** The answer after so many calls: the first success, or failure once the budget is used up. */
  ghost predicate Answered<T>(plan: nat -> Attempt<T>, budget: nat, maxSize: int, r: Option<seq<T>>, calls: nat) {
    && 1 <= calls <= budget && AllFail(plan, calls - 1)
    && if r.Some? then plan(calls - 1).Served? && r.value == Cap(plan(calls - 1).results, maxSize)
       else calls == budget && !plan(calls - 1).Served?
  }

  lemma FailedIff<T>(plan: nat -> Attempt<T>, budget: nat, maxSize: int, r: Option<seq<T>>, calls: nat)
    requires Answered(plan, budget, maxSize, r, calls)
    ensures r.None? <==> AllFail(plan, budget)
  {}

  /** One provider asked: without a pool its engine is called once, otherwise the retry loop drew the
      slots `tried` and left the pool as Retried says. */
  ghost predicate Asked<T>(before: Option<Pool>, after: Option<Pool>, plan: nat -> Attempt<T>, clock: nat -> int,
                           maxSize: int, tried: seq<nat>, r: Option<seq<T>>) {
    if before.None? then after.None? && tried == [] && Answered(plan, 1, maxSize, r, 1)
    else after.Some? && Retried(before.value, after.value, plan, clock, maxSize, tried, r)
  }

  function Calls(pool: Option<Pool>, tried: seq<nat>): nat {
    if pool.None? then 1 else |tried|
  }

  lemma AskedAnswers<T>(before: Option<Pool>, after: Option<Pool>, plan: nat -> Attempt<T>, clock: nat -> int,
                        maxSize: int, tried: seq<nat>, r: Option<seq<T>>)
    requires Asked(before, after, plan, clock, maxSize, tried, r)
    ensures Answered(plan, Budget(before, clock(0)), maxSize, r, Calls(before, tried))
  {
    hide UsableSlots, CoolingSince;
  }

  /** Providers asked one after another: in cyclic order from start, none of them with success except
      possibly the last, whose answer is r. What each left of its pool is in `after`; the pools of
      the others are untouched. */
  ghost predicate Walk<T>(pools: seq<Option<Pool>>, after: seq<Option<Pool>>, plan: nat -> nat -> Attempt<T>,
                          clock: nat -> nat -> int, maxSize: int, start: nat, asked: seq<nat>, tried: seq<seq<nat>>,
                          r: Option<seq<T>>) {
    && |tried| == |asked| <= |pools| == |after| && NoDuplicates(asked)
    && (forall i :: 0 <= i < |asked| ==> asked[i] == (start + i) % |pools|)
    && (forall i :: 0 <= i < |asked| ==>
          var p := asked[i];
          Asked(pools[p], after[p], plan(p), clock(p), maxSize, tried[i], if i < |asked| - 1 then None else r))
    && forall p :: 0 <= p < |pools| && p !in asked ==> after[p] == pools[p]
  }

  lemma NotYetAsked<T>(pools: seq<Option<Pool>>, after: seq<Option<Pool>>, plan: nat -> nat -> Attempt<T>,
                       clock: nat -> nat -> int, maxSize: int, start: nat, asked: seq<nat>, tried: seq<seq<nat>>,
                       p: nat)
    requires Walk(pools, after, plan, clock, maxSize, start, asked, tried, None)
    requires |asked| < |pools| && p == (start + |asked|) % |pools|
    ensures p !in asked && p < |after| == |pools| && after[p] == pools[p]
  {
    hide Asked;
    forall k | 0 <= k < |asked| ensures asked[k] != p {
      ModDistinct(start, k, |asked|, |pools|);
    }
  }

  lemma WalkStep<T>(pools: seq<Option<Pool>>, before: seq<Option<Pool>>, after: seq<Option<Pool>>,
                    plan: nat -> nat -> Attempt<T>, clock: nat -> nat -> int, maxSize: int, start: nat, asked: seq<nat>,
                    tried: seq<seq<nat>>, p: nat, slots: seq<nat>, r: Option<seq<T>>)
    requires Walk(pools, before, plan, clock, maxSize, start, asked, tried, None)
    requires |asked| < |pools| && p == (start + |asked|) % |pools| && |after| == |before|
    requires forall q :: 0 <= q < |after| && q != p ==> after[q] == before[q]
    requires Asked(pools[p], after[p], plan(p), clock(p), maxSize, slots, r)
    ensures Walk(pools, after, plan, clock, maxSize, start, asked + [p], tried + [slots], r)
  {
    NotYetAsked(pools, before, plan, clock, maxSize, start, asked, tried, p);
    hide Asked;
  }

  lemma WalkNone<T>(pools: seq<Option<Pool>>, plan: nat -> nat -> Attempt<T>, clock: nat -> nat -> int, maxSize: int,
                    start: nat)
    ensures Walk(pools, pools, plan, clock, maxSize, start, [], [], None)
  {}

  lemma WalkStarts<T>(pools: seq<Option<Pool>>, after: seq<Option<Pool>>, plan: nat -> nat -> Attempt<T>,
                      clock: nat -> nat -> int, maxSize: int, start: nat, asked: seq<nat>, tried: seq<seq<nat>>,
                      r: Option<seq<T>>)
    requires Walk(pools, after, plan, clock, maxSize, start, asked, tried, r) && asked != [] && start < |pools|
    ensures asked[0] == start
  {
    ModUnique(start, |pools|, 0, start);
  }

  /** Every call that some provider's budget allows fails. */
  ghost predicate Hopeless<T>(pools: seq<Option<Pool>>, plan: nat -> nat -> Attempt<T>, clock: nat -> nat -> int) {
    forall p: nat :: p < |pools| ==> AllFail(plan(p), Budget(pools[p], clock(p)(0)))
  }

  /** A walk that succeeded found a call some budget allows; one that asked every provider in vain
      shows there is none. */
  lemma WalkFailsIff<T>(pools: seq<Option<Pool>>, after: seq<Option<Pool>>, plan: nat -> nat -> Attempt<T>,
                        clock: nat -> nat -> int, maxSize: int, start: nat, asked: seq<nat>, tried: seq<seq<nat>>,
                        r: Option<seq<T>>)
    requires Walk(pools, after, plan, clock, maxSize, start, asked, tried, r)
    requires r.Some? ==> asked != []
    requires r.None? ==> |asked| == |pools|
    ensures r.None? <==> Hopeless(pools, plan, clock)
  {
    hide Asked, Answered, Budget, AllFail;
    forall i | 0 <= i < |asked|
      ensures AllFail(plan(asked[i]), Budget(pools[asked[i]], clock(asked[i])(0))) <==> i < |asked| - 1 || r.None?
    {
      var p, answer := asked[i], if i < |asked| - 1 then None else r;
      AskedAnswers(pools[p], after[p], plan(p), clock(p), maxSize, tried[i], answer);
      FailedIff(plan(p), Budget(pools[p], clock(p)(0)), maxSize, answer, Calls(pools[p], tried[i]));
    }
    if r.None? {
      forall p: nat | p < |pools| ensures AllFail(plan(p), Budget(pools[p], clock(p)(0))) {
        var i := ModReach(start, p, |pools|);
        assert asked[i] == p;
      }
    } else {
      var p := asked[|asked| - 1];
      assert !AllFail(plan(p), Budget(pools[p], clock(p)(0)));
    }
  }

  /** The slots ever drawn from a provider's pool. */
  ghost function LogOf(p: Provider): seq<nat>
    reads if p.pool == null then {} else {p.pool}
  {
    if p.pool == null then [] else p.pool.drawn
  }

  /** An engine without a pool is called once; otherwise the retry loop runs over its keys. */
  method CallProvider<T>(p: Provider, plan: nat -> Attempt<T>, clock: nat -> int, maxSize: int, ghost horizon: int)
    returns (r: Option<seq<T>>, ghost tried: seq<nat>)
    requires Ready(PoolOf(p), plan, clock, horizon)
    modifies if p.pool == null then {} else {p.pool}
    ensures p.pool != null ==> p.pool.Valid()
    ensures LogOf(p) == old(LogOf(p)) + tried
    ensures Asked(old(PoolOf(p)), PoolOf(p), plan, clock, maxSize, tried, r)
  {
    if p.pool == null {
      var attempt := plan(0);
      return if attempt.Served? then Some(Cap(attempt.results, maxSize)) else None, [];
    }
    hide Retried;
    r, tried := CallProviderWithRetry(p.pool, plan, clock, maxSize, horizon);
  }

  /** The draws of the providers asked are at the end of their logs; other logs are as before. */
  ghost predicate Logged(logs: seq<seq<nat>>, after: seq<seq<nat>>, asked: seq<nat>, tried: seq<seq<nat>>) {
    && |logs| == |after| && |asked| == |tried|
    && (forall i :: 0 <= i < |asked| ==> asked[i] < |logs| && after[asked[i]] == logs[asked[i]] + tried[i])
    && forall p :: 0 <= p < |logs| && p !in asked ==> after[p] == logs[p]
  }

  lemma LoggedNone(logs: seq<seq<nat>>)
    ensures Logged(logs, logs, [], [])
  {}

  lemma LoggedStep(logs: seq<seq<nat>>, before: seq<seq<nat>>, after: seq<seq<nat>>, asked: seq<nat>,
                   tried: seq<seq<nat>>, p: nat, slots: seq<nat>)
    requires Logged(logs, before, asked, tried) && p < |logs| == |after| && p !in asked
    requires after[p] == before[p] + slots && forall q :: 0 <= q < |after| && q != p ==> after[q] == before[q]
    ensures Logged(logs, after, asked + [p], tried + [slots])
  {}

  class ApipoolSearch {
    var providers: seq<Provider>
    var strategy: string
    var idx: nat
    var weights: Option<map<string, int>>

    ghost predicate Valid()
      reads this, Pools(providers)
    {
      idx < WRAP && forall p :: p in providers && p.pool != null ==> p.pool.Valid()
    }

    static ghost function Pools(ps: seq<Provider>): set<object> {
      set p | p in ps && p.pool != null :: p.pool
    }

    ghost function WeightAt(i: nat, now: int): nat
      requires i < |providers|
      reads this`providers, this`weights, Pools(providers)
    {
      var p := providers[i];
      EffectiveWeight(p.name, p.engineName,
                      if p.pool == null then None else Some(|UsableSlots(p.pool.View(), now)|), weights)
    }

    /** The effective weights of all providers. */
    ghost function Weights(now: int): (ws: seq<nat>)
      reads this, Pools(providers)
      ensures |ws| == |providers| && forall i :: 0 <= i < |ws| ==> ws[i] == WeightAt(i, now)
    {
      seq(|providers|, i requires 0 <= i < |providers| reads this, Pools(providers) => WeightAt(i, now))
    }

    method CollectWeights(now: int) returns (ws: seq<int>)
      requires Valid()
      ensures ws == Wrapped(Weights(now))
    {
      hide EffectiveWeight, UsableSlots, Int64;
      ws := [];
      for i := 0 to |providers|
        invariant |ws| == i && forall k :: 0 <= k < i ==> ws[k] == Int64(WeightAt(k, now))
      {
        var p := providers[i];
        var usable: Option<nat> := None;
        if p.pool != null {
          assert p.pool in Pools(providers);
          var a := p.pool.Available(now);
          usable := Some(a);
        }
        ws := ws + [Int64(EffectiveWeight(p.name, p.engineName, usable, weights))];
      }
      assert ws == Wrapped(Weights(now));
    }

    /** The provider that the weights choose, if they choose any. */
    ghost function WeightedStart(now: int, draw: nat -> nat): (o: Option<nat>)
      reads this, Pools(providers)
      ensures o.Some? ==> o.value < |providers|
    {
      var ws := Weights(now);
      if DrawCount(ws) == 0 then None else Selected(ws, draw(DrawCount(ws)))
    }

    /** Draws in proportion to the weights; `draw` is the random source, any value below its bound.
        While the total fits 64 bits it fails exactly when all weights are zero. */
    method PickWeighted(now: int, draw: nat -> nat) returns (start: nat, ok: bool)
      requires Valid() && forall t: nat :: t > 0 ==> draw(t) < t
      ensures old(WeightedStart(now, draw)) == if ok then Some(start) else None
      ensures old(SumNat(Weights(now))) <= MAX_INT64 ==>
                && (ok <==> old(SumNat(Weights(now))) > 0)
                && (ok ==> start == Pick(old(Weights(now)), draw(old(SumNat(Weights(now))))))
    {
      hide PickInt64, SumNat, Pick, Int64;
      ghost var exact := Weights(now);
      var ws := CollectWeights(now);
      assert Weights(now) == exact;
      var total := AddUp(ws, exact);
      start, ok := 0, false;
      if total > 0 {
        start, ok := Subtract(ws, draw(total));
      }
      assert Weights(now) == exact;
      if SumNat(exact) <= MAX_INT64 {
        Int64Exact(SumNat(exact));
        if SumNat(exact) > 0 {
          SelectedExact(exact, draw(SumNat(exact)));
        }
      }
    }

    /** Whether the counter decides: neither the priority nor the weights do. */
    ghost predicate CounterDecides(now: int, draw: nat -> nat)
      reads this, Pools(providers)
    {
      strategy != "priority" && (strategy == "weighted" ==> WeightedStart(now, draw).None?)
    }

    ghost function StartOf(now: int, draw: nat -> nat): int
      requires providers != []
      reads this, Pools(providers)
    {
      if CounterDecides(now, draw) then SignedRem(ToInt64(idx), |providers|)
      else if strategy == "priority" then 0
      else WeightedStart(now, draw).value
    }

    /** Which provider comes first: with "priority" provider 0; with "weighted", while the total fits 64
        bits, the drawn one, and the counter's exactly when all weights are zero; else the counter's. */
    lemma StartMeans(now: int, draw: nat -> nat)
      requires providers != [] && forall t: nat :: t > 0 ==> draw(t) < t
      ensures strategy == "priority" ==> StartOf(now, draw) == 0 && !CounterDecides(now, draw)
      ensures strategy == "weighted" && SumNat(Weights(now)) <= MAX_INT64 ==>
                && (CounterDecides(now, draw) <==> SumNat(Weights(now)) == 0)
                && (SumNat(Weights(now)) > 0 ==> StartOf(now, draw) == Pick(Weights(now), draw(SumNat(Weights(now)))))
      ensures strategy != "priority" && strategy != "weighted" ==> CounterDecides(now, draw)
      ensures CounterDecides(now, draw) && idx <= MAX_INT64 ==> StartsAt(idx, |providers|, StartOf(now, draw))
    {
      if idx <= MAX_INT64 {
        SignedRemCongruent(idx, |providers|);
      }
      hide Pick, SumNat, Selected, StartsAt, SignedRem, Int64;
      var ws := Weights(now);
      if SumNat(ws) <= MAX_INT64 {
        Int64Exact(SumNat(ws));
        if SumNat(ws) > 0 {
          SelectedExact(ws, draw(SumNat(ws)));
        }
      }
    }

    /** First provider by priority, by weight, or by the rotating counter. */
    method PickStartIndex(now: int, draw: nat -> nat) returns (start: int)
      requires Valid() && providers != [] && forall t: nat :: t > 0 ==> draw(t) < t
      modifies this`idx
      ensures Valid()
      ensures start == old(StartOf(now, draw)) && start < |providers|
      ensures idx == if old(CounterDecides(now, draw)) then Wrap(old(idx) + 1) else old(idx)
      ensures old(CounterDecides(now, draw)) && old(idx) <= MAX_INT64 ==>
                StartsAt(old(idx), |providers|, start) && idx == old(idx) + 1
      ensures strategy == "priority" ==> start == 0 && !old(CounterDecides(now, draw))
      ensures strategy == "weighted" && old(SumNat(Weights(now))) <= MAX_INT64 ==>
                && (old(CounterDecides(now, draw)) <==> old(SumNat(Weights(now))) == 0)
                && (old(SumNat(Weights(now))) > 0 ==> start == Pick(old(Weights(now)), draw(old(SumNat(Weights(now))))))
      ensures strategy != "priority" && strategy != "weighted" ==> old(CounterDecides(now, draw))
    {
      StartMeans(now, draw);
      hide Pick, SumNat, StartsAt, WeightedStart, Weights, Wrap, ToInt64, SignedRem;
      if strategy == "priority" {
        return 0;
      }
      if strategy == "weighted" {
        var s, ok := PickWeighted(now, draw);
        if ok {
          return s;
        }
      }
      start := SignedRem(ToInt64(idx), |providers|);
      WrapNext(idx);
      idx := Wrap(idx + 1);
    }

    ghost predicate SeparatePools()
      reads this
    {
      forall i, j :: 0 <= i < j < |providers| && providers[i].pool != null ==> providers[i].pool != providers[j].pool
    }

    /** The pools of all providers as values. */
    ghost function PoolValues(): (pools: seq<Option<Pool>>)
      reads this, Pools(providers)
      ensures |pools| == |providers| && forall i :: 0 <= i < |pools| ==> pools[i] == PoolOf(providers[i])
    {
      seq(|providers|, i requires 0 <= i < |providers| reads this, Pools(providers) => PoolOf(providers[i]))
    }

    /** The draw logs of all providers. */
    ghost function Logs(): (logs: seq<seq<nat>>)
      reads this, Pools(providers)
      ensures |logs| == |providers| && forall i :: 0 <= i < |logs| ==> logs[i] == LogOf(providers[i])
    {
      seq(|providers|, i requires 0 <= i < |providers| reads this, Pools(providers) => LogOf(providers[i]))
    }

    /** Asking one provider changes no pool but its own. */
    method AskOne<T>(p: nat, plan: nat -> Attempt<T>, clock: nat -> int, maxSize: int, ghost horizon: int)
      returns (r: Option<seq<T>>, ghost slots: seq<nat>)
      requires Valid() && SeparatePools() && p < |providers| && Ready(PoolValues()[p], plan, clock, horizon)
      modifies Pools(providers)
      ensures Valid() && SeparatePools()
      ensures Asked(old(PoolValues()[p]), PoolValues()[p], plan, clock, maxSize, slots, r)
      ensures Logs()[p] == old(Logs()[p]) + slots
      ensures forall q :: 0 <= q < |providers| && q != p ==>
                PoolValues()[q] == old(PoolValues())[q] && Logs()[q] == old(Logs())[q]
    {
      hide Ready, Asked;
      ghost var pools, logs := PoolValues(), Logs();
      r, slots := CallProvider(providers[p], plan, clock, maxSize, horizon);
      assert forall q :: 0 <= q < |providers| && q != p ==>
               PoolOf(providers[q]) == pools[q] && LogOf(providers[q]) == logs[q];
    }

    method AskProviders<T>(start: nat, plan: nat -> nat -> Attempt<T>, clock: nat -> nat -> int, maxSize: int,
                           ghost horizon: nat -> int)
      returns (r: Option<seq<T>>, ghost asked: seq<nat>, ghost tried: seq<seq<nat>>)
      requires Valid() && SeparatePools() && providers != []
      requires forall p: nat :: p < |providers| ==> Ready(PoolOf(providers[p]), plan(p), clock(p), horizon(p))
      modifies Pools(providers)
      ensures Valid() && asked != [] && (r.None? ==> |asked| == |providers|)
      ensures Walk(old(PoolValues()), PoolValues(), plan, clock, maxSize, start, asked, tried, r)
      ensures Logged(old(Logs()), Logs(), asked, tried)
    {
      hide Ready, Asked, Walk, Logged, PoolOf, LogOf, PoolValues, Logs, Valid, SeparatePools;
      var n := |providers|;
      ghost var pools, logs := PoolValues(), Logs();
      r, asked, tried := None, [], [];
      WalkNone(pools, plan, clock, maxSize, start);
      LoggedNone(logs);
      for i := 0 to n
        invariant Valid() && SeparatePools() && |asked| == |tried| == i && r.None?
        invariant Walk(pools, PoolValues(), plan, clock, maxSize, start, asked, tried, None)
        invariant Logged(logs, Logs(), asked, tried)
      {
        var p := (start + i) % n;
        ghost var before, logged := PoolValues(), Logs();
        NotYetAsked(pools, before, plan, clock, maxSize, start, asked, tried, p);
        assert Ready(pools[p], plan(p), clock(p), horizon(p));
        ghost var slots;
        r, slots := AskOne(p, plan(p), clock(p), maxSize, horizon(p));
        WalkStep(pools, before, PoolValues(), plan, clock, maxSize, start, asked, tried, p, slots, r);
        LoggedStep(logs, logged, Logs(), asked, tried, p, slots);
        asked, tried := asked + [p], tried + [slots];
        if r.Some? {
          return;
        }
      }
    }

    /** The whole search. plan(p)(k) is what the k-th engine call of provider p does and clock(p)(..)
        the instants of its loop. Providers are asked in cyclic order from the start, each at most
        once and with its whole budget of calls; the first success of all is the answer, and the
        search fails exactly when every call that some budget allows fails. Of each pool asked the
        keys tried are logged, those of failed calls cool down, and other pools stay as they were. A
        negative start, which only the counter can give, is no index of a provider: the search
        crashes. */
    method SearchRaw<T>(plan: nat -> nat -> Attempt<T>, clock: nat -> nat -> int, maxSize: int, now: int,
                        draw: nat -> nat, ghost horizon: nat -> int)
      returns (r: Option<seq<T>>, crashed: bool, ghost asked: seq<nat>, ghost tried: seq<seq<nat>>)
      requires Valid() && SeparatePools() && forall t: nat :: t > 0 ==> draw(t) < t
      requires forall p: nat :: p < |providers| ==> Ready(PoolOf(providers[p]), plan(p), clock(p), horizon(p))
      modifies this`idx, Pools(providers)
      ensures Valid()
      ensures crashed <==> providers != [] && old(StartOf(now, draw)) < 0
      ensures crashed ==> r.None? && PoolValues() == old(PoolValues())
      ensures providers != [] && !crashed ==>
                && asked != []
                && Walk(old(PoolValues()), PoolValues(), plan, clock, maxSize, old(StartOf(now, draw)), asked, tried, r)
                && Logged(old(Logs()), Logs(), asked, tried)
      ensures !crashed ==> (r.None? <==> Hopeless(old(PoolValues()), plan, clock))
      ensures asked != [] && strategy == "priority" ==> asked[0] == 0 && idx == old(idx)
      ensures asked != [] && providers != [] && old(CounterDecides(now, draw)) && old(idx) <= MAX_INT64 ==>
                StartsAt(old(idx), |providers|, asked[0]) && idx == old(idx) + 1
      ensures asked != [] && providers != [] && strategy == "weighted" && 0 < old(SumNat(Weights(now))) <= MAX_INT64 ==>
                asked[0] == Pick(old(Weights(now)), draw(old(SumNat(Weights(now))))) && idx == old(idx)
    {
      hide Ready, Asked, StartOf, Walk, Logged, Pick, SumNat, CounterDecides, StartsAt;
      r, crashed, asked, tried := None, false, [], [];
      if |providers| == 0 {
        return;
      }
      var start := PickStartIndex(now, draw);
      ghost var pools, logs := PoolValues(), Logs();
      assert pools == old(PoolValues()) && logs == old(Logs());
      if start < 0 {
        crashed := true;
        return;
      }
      r, asked, tried := AskProviders(start, plan, clock, maxSize, horizon);
      assert asked[0] == start by {
        WalkStarts(pools, PoolValues(), plan, clock, maxSize, start, asked, tried, r);
      }
      WalkFailsIff(pools, PoolValues(), plan, clock, maxSize, start, asked, tried, r);
    }
  }
}
