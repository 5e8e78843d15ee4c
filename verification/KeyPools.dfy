/** The API-key pool: a round-robin cursor over slots that may be cooling down. The class is the
    source's object; `Pool` is its value, and `Next` on values is what the method computes. */
module KeyPools {
  import opened Durations
  import opened Modular
  import opened Seqs
  import opened Text

  const TTL: int := 30 * MINUTE

  datatype Pool = Pool(keys: seq<string>, until: seq<Option<int>>, cursor: nat, lastKey: Option<string>)

  ghost predicate WellFormed(p: Pool) {
    && 0 < |p.keys| == |p.until| && NoDuplicates(p.keys) && p.cursor < WRAP
    && (p.lastKey.Some? ==> p.lastKey.value in p.keys)
  }

  predicate Usable(u: Option<int>, now: int) {
    u.None? || now > u.value
  }

  /** The slot probed i steps after the cursor. */
  function SlotAt(cursor: nat, i: nat, n: nat): (s: nat)
    requires n > 0
    ensures s < n
  {
    Wrap(cursor + i) % n
  }

  function UsableSlots(p: Pool, now: int): set<nat> {
    set s: nat | s < |p.until| && Usable(p.until[s], now)
  }

  /** Least probe i.. that meets a usable slot, or n when there is none. */
  function FirstUsable(p: Pool, now: int, i: nat): (j: nat)
    requires 0 < |p.until| && i <= |p.until|
    ensures i <= j <= |p.until|
    ensures j < |p.until| ==> Usable(p.until[SlotAt(p.cursor, j, |p.until|)], now)
    ensures forall k :: i <= k < j ==> !Usable(p.until[SlotAt(p.cursor, k, |p.until|)], now)
    decreases |p.until| - i
  {
    if i == |p.until| || Usable(p.until[SlotAt(p.cursor, i, |p.until|)], now) then i
    else FirstUsable(p, now, i + 1)
  }

  /** u is the earliest recovery among the first k slots probed, all of which are cooling down. */
  ghost predicate EarliestOf(p: Pool, u: Option<int>, k: nat)
    requires 0 < |p.until|
  {
    && u.Some? && (exists i: nat :: i < k && p.until[SlotAt(p.cursor, i, |p.until|)] == u)
    && (forall i: nat :: i < k ==>
          var v := p.until[SlotAt(p.cursor, i, |p.until|)]; v.Some? && u.value <= v.value)
  }

  lemma EarliestStep(p: Pool, u: Option<int>, k: nat)
    requires 0 < |p.until| && p.until[SlotAt(p.cursor, k, |p.until|)].Some? && (k > 0 ==> EarliestOf(p, u, k))
    ensures var v := p.until[SlotAt(p.cursor, k, |p.until|)];
            EarliestOf(p, if k == 0 || v.value < u.value then v else u, k + 1)
  {
    hide SlotAt;
    if k > 0 {
      var i: nat :| i < k && p.until[SlotAt(p.cursor, i, |p.until|)] == u;
    }
  }

  /** Slot e recovers no later than any slot probed, and is the first such slot. */
  ghost predicate EarliestProbed(p: Pool, e: nat)
    requires 0 < |p.until|
  {
    e < |p.until| && EarliestOf(p, p.until[e], |p.until|) && forall i: nat :: i < e ==> p.until[i] != p.until[e]
  }

  /** One call of Next at `now` turns p into p' and hands out the key of `slot`. */
  ghost predicate Draws(p: Pool, now: int, p': Pool, slot: nat)
    requires WellFormed(p)
  {
    var n := |p.until|;
    var j := FirstUsable(p, now, 0);
    && slot < n
    && p'.keys == p.keys && p'.lastKey == Some(p.keys[slot])
    && if j < n
       then slot == SlotAt(p.cursor, j, n) && p'.until == p.until[slot := None] && p'.cursor == Wrap(p.cursor + j + 1)
       else EarliestProbed(p, slot) && p'.until == p.until && p'.cursor == Wrap(p.cursor + n)
  }

  ghost predicate VisitsAll(cursor: nat, n: nat)
    requires n > 0
  {
    forall s: nat :: s < n ==> Visits(cursor, n, s)
  }

  ghost predicate Visits(cursor: nat, n: nat, s: nat)
    requires n > 0
  {
    exists i: nat :: i < n && SlotAt(cursor, i, n) == s
  }

  /** While k probes do not carry the counter over its wrap (or n divides it) they are plain steps. */
  predicate Steady(cursor: nat, n: nat, k: nat)
    requires n > 0
  {
    cursor + k <= WRAP || WRAP % n == 0
  }

  lemma SteadySlot(cursor: nat, i: nat, n: nat, k: nat)
    requires n > 0 && cursor < WRAP && i < k <= WRAP && Steady(cursor, n, k)
    ensures SlotAt(cursor, i, n) == (cursor + i) % n
  {
    if cursor + i >= WRAP {
      ModUnique(cursor + i, WRAP, 1, cursor + i - WRAP);
      ModDrop(cursor + i, WRAP, n);
    }
  }

  /** One call probes every slot exactly when its probes stay clear of the 64-bit wrap or the
      pool size divides it; a caller can read that off the cursor before calling. */
  lemma VisitsAllIff(cursor: nat, n: nat)
    requires 0 < n < WRAP && cursor < WRAP
    ensures VisitsAll(cursor, n) <==> Steady(cursor, n, n)
  {
    if Steady(cursor, n, n) {
      forall s: nat | s < n ensures Visits(cursor, n, s) {
        var i := ModReach(cursor, s, n);
        SteadySlot(cursor, i, n, n);
      }
    } else {
      var j, q := WRAP - cursor, WRAP % n;
      var missed := Max(q, n - j);
      forall i: nat | i < n ensures SlotAt(cursor, i, n) != missed {
        SlotAcrossWrap(cursor, i, n);
      }
      assert !Visits(cursor, n, missed);
    }
  }

  /** Where the probes fall when the counter wraps in the middle of a call. */
  lemma SlotAcrossWrap(cursor: nat, i: nat, n: nat)
    requires 0 < n < WRAP && i < n && WRAP - n < cursor < WRAP && WRAP % n != 0
    ensures var j, q := WRAP - cursor, WRAP % n;
            SlotAt(cursor, i, n) == if i >= j then i - j else if j - i <= q then q - (j - i) else q - (j - i) + n
  {
    ModAcross(WRAP, cursor, i, n);
  }

  /** Next hands out a usable key whenever one exists, and otherwise the key that recovers first
      (the leftmost of several); in every case a slot of the pool. */
  lemma DrawsBest(p: Pool, now: int, p': Pool, slot: nat)
    requires WellFormed(p) && |p.keys| < WRAP && Steady(p.cursor, |p.keys|, |p.keys|)
    requires Draws(p, now, p', slot)
    ensures UsableSlots(p, now) != {} ==> slot in UsableSlots(p, now)
    ensures UsableSlots(p, now) == {} ==>
              && slot < |p.until| && p.until[slot].Some?
              && (forall s: nat :: s < |p.until| ==> p.until[s].Some? && p.until[slot].value <= p.until[s].value)
              && (forall s: nat :: s < slot ==> p.until[s].value > p.until[slot].value)
  {
    var n := |p.until|;
    VisitsAllIff(p.cursor, n);
    var j := FirstUsable(p, now, 0);
    if j == n {
      forall s: nat | s < n
        ensures p.until[s].Some? && p.until[slot].value <= p.until[s].value && !Usable(p.until[s], now) {
        assert Visits(p.cursor, n, s);
      }
      assert UsableSlots(p, now) == {};
      forall s: nat | s < slot ensures p.until[s].value > p.until[slot].value {
        assert p.until[s] != p.until[slot];
      }
    }
  }

  /** With the counter at the wrap, three slots and only slot 2 usable, Next misses it. */
  lemma WrapMissesUsable()
    ensures var p := Pool(["a", "b", "c"], [Some(9), Some(9), None], WRAP - 1, None);
            WellFormed(p) && 2 in UsableSlots(p, 0) && FirstUsable(p, 0, 0) == 3
  {
    var p := Pool(["a", "b", "c"], [Some(9), Some(9), None], WRAP - 1, None);
    assert "a"[0] != "b"[0] && "a"[0] != "c"[0] && "b"[0] != "c"[0];
    assert SlotAt(p.cursor, 0, 3) == 0 && SlotAt(p.cursor, 1, 3) == 0 && SlotAt(p.cursor, 2, 3) == 1;
    var j := FirstUsable(p, 0, 0);
  }

  // ---- rotation ----

  /** A run of Next calls: pools[k] is the pool before call k, slots[k] what call k handed out. */
  ghost predicate Rotation(pools: seq<Pool>, nows: seq<int>, slots: seq<nat>) {
    && |pools| == |nows| + 1 == |slots| + 1
    && (forall k :: 0 <= k < |pools| ==> WellFormed(pools[k]))
    && (forall k :: 0 <= k < |nows| ==> Draws(pools[k], nows[k], pools[k + 1], slots[k]))
  }

  function Place(c: nat, i: nat, n: nat): nat
    requires n > 0
  {
    (c + i) % n
  }

  /** The members of V among the first o places from c. */
  function Met(c: nat, n: nat, o: nat, V: set<nat>): set<nat>
    requires n > 0
  {
    set i: nat | i < o && Place(c, i, n) in V :: Place(c, i, n)
  }

  lemma WrapAdd(a: nat, b: nat)
    ensures Wrap(Wrap(a) + b) == Wrap(a + b)
  {}

  lemma WrapSmall(c: nat)
    requires c < WRAP
    ensures Wrap(c) == c
  {}

  lemma SlotHere(c: nat, i: nat, n: nat)
    requires n > 0
    ensures SlotAt(c, i, n) == Wrap(c + i) % n
  {}

  lemma PlacesAhead(c: nat, o: nat, t: nat, n: nat)
    requires 0 < n < WRAP && c < WRAP && o + t < n && Steady(c, n, n)
    ensures SlotAt(Wrap(c + o), t, n) == Place(c, o + t, n)
  {
    hide Wrap, SlotAt, Steady;
    WrapAdd(c + o, t);
    SlotHere(Wrap(c + o), t, n);
    SlotHere(c, o + t, n);
    SteadySlot(c, o + t, n, n);
  }

  lemma MetGrows(c: nat, n: nat, o: nat, j: nat, V: set<nat>)
    requires n > 0 && o + j < n && Place(c, o + j, n) in V
    requires forall t: nat :: o <= t < o + j ==> Place(c, t, n) !in V
    ensures Place(c, o + j, n) !in Met(c, n, o, V)
    ensures Met(c, n, o + j + 1, V) == Met(c, n, o, V) + {Place(c, o + j, n)}
  {
    forall t: nat | t < o ensures Place(c, t, n) != Place(c, o + j, n) {
      ModDistinct(c, t, o + j, n);
    }
  }

  /** The slots a call probes are the next places, and it stops at the next member of V. */
  lemma NextPlace(p: Pool, now: int, c: nat, o: nat, V: set<nat>)
    requires WellFormed(p) && |p.keys| < WRAP && c < WRAP
    requires o <= |p.keys| && Steady(c, |p.keys|, |p.keys|) && p.cursor == Wrap(c + o)
    requires V == UsableSlots(p, now) && Met(c, |p.keys|, o, V) != V
    ensures var n, j := |p.keys|, FirstUsable(p, now, 0);
            && o + j < n && Place(c, o + j, n) in V && Place(c, o + j, n) == SlotAt(p.cursor, j, n)
            && forall t: nat :: o <= t < o + j ==> Place(c, t, n) !in V
  {
    var n, j := |p.keys|, FirstUsable(p, now, 0);
    var s :| s in V && s !in Met(c, n, o, V);
    var i := ModReach(c, s, n);
    assert Place(c, i, n) == s && o <= i;
    hide Wrap, Met, Steady, FirstUsable, SlotAt, Place;
    PlacesAhead(c, o, i - o, n);
    assert j <= i - o;
    PlacesAhead(c, o, j, n);
    forall t: nat | o <= t < o + j ensures Place(c, t, n) !in V {
      PlacesAhead(c, o, t - o, n);
      assert !Usable(p.until[SlotAt(p.cursor, t - o, n)], now);
    }
  }

  /** The next call skips to the next member of V and hands it out. */
  lemma RotationStep(p: Pool, now: int, p': Pool, slot: nat, c: nat, o: nat, V: set<nat>) returns (o': nat)
    requires WellFormed(p) && |p.keys| < WRAP && c < WRAP
    requires o <= |p.keys| && Steady(c, |p.keys|, |p.keys|) && p.cursor == Wrap(c + o)
    requires V == UsableSlots(p, now) && Met(c, |p.keys|, o, V) != V
    requires Draws(p, now, p', slot)
    ensures o' <= |p.keys| && p'.cursor == Wrap(c + o')
    ensures slot in V && slot !in Met(c, |p.keys|, o, V)
    ensures Met(c, |p.keys|, o', V) == Met(c, |p.keys|, o, V) + {slot}
  {
    hide Wrap, Steady, EarliestProbed, Met, Place, SlotAt, FirstUsable, UsableSlots;
    var j := FirstUsable(p, now, 0);
    NextPlace(p, now, c, o, V);
    MetGrows(c, |p.keys|, o, j, V);
    o' := o + j + 1;
    WrapAdd(c + o, j + 1);
  }

  function ToSet(s: seq<nat>): set<nat> {
    set x | x in s
  }

  /** slots lists, once each, the members of V among the first o places from c. */
  ghost predicate Lists(slots: seq<nat>, c: nat, n: nat, o: nat, V: set<nat>)
    requires n > 0
  {
    NoDuplicates(slots) && |ToSet(slots)| == |slots| && ToSet(slots) == Met(c, n, o, V)
  }

  lemma ListsGrow(slots: seq<nat>, slot: nat, c: nat, n: nat, o: nat, o': nat, V: set<nat>)
    requires n > 0 && Lists(slots, c, n, o, V) && slot !in Met(c, n, o, V)
    requires Met(c, n, o', V) == Met(c, n, o, V) + {slot}
    ensures Lists(slots + [slot], c, n, o', V)
  {
    assert ToSet(slots + [slot]) == ToSet(slots) + {slot};
    assert slot !in slots;
  }

  /** What is known before call k of a rotation that started at cursor c with n keys. */
  ghost predicate Progress(p: Pool, slots: seq<nat>, c: nat, n: nat, o: nat, V: set<nat>)
    requires n > 0
  {
    |p.keys| == n && o <= n && p.cursor == Wrap(c + o) && Lists(slots, c, n, o, V)
  }

  lemma ProgressStep(p: Pool, now: int, p': Pool, slots: seq<nat>, slot: nat, c: nat, n: nat, o: nat, V: set<nat>)
    returns (o': nat)
    requires WellFormed(p) && 0 < n < WRAP && c < WRAP && Steady(c, n, n)
    requires Progress(p, slots, c, n, o, V) && |slots| < |V|
    requires V == UsableSlots(p, now) && Draws(p, now, p', slot)
    ensures Progress(p', slots + [slot], c, n, o', V)
  {
    assert Met(c, n, o, V) != V;
    o' := RotationStep(p, now, p', slot, c, o, V);
    ListsGrow(slots, slot, c, n, o, o', V);
  }

  lemma ProgressStart(p: Pool, V: set<nat>)
    requires WellFormed(p)
    ensures Progress(p, [], p.cursor, |p.keys|, 0, V)
  {}

  lemma {:induction false} RotationPrefix(pools: seq<Pool>, nows: seq<int>, slots: seq<nat>, V: set<nat>, k: nat)
    returns (o: nat)
    requires Rotation(pools, nows, slots) && k <= |nows| && k <= |V|
    requires forall i :: 0 <= i < |nows| ==> UsableSlots(pools[i], nows[i]) == V
    requires var n := |pools[0].keys|; n < WRAP && Steady(pools[0].cursor, n, n)
    ensures Progress(pools[k], slots[..k], pools[0].cursor, |pools[0].keys|, o, V)
  {
    hide Progress, Draws, UsableSlots, Steady;
    if k == 0 {
      o := 0;
      ProgressStart(pools[0], V);
    } else {
      var o0 := RotationPrefix(pools, nows, slots, V, k - 1);
      o := ProgressStep(pools[k - 1], nows[k - 1], pools[k], slots[..k - 1], slots[k - 1],
                        pools[0].cursor, |pools[0].keys|, o0, V);
      assert slots[..k] == slots[..k - 1] + [slots[k - 1]];
    }
  }

  /** Fair rotation with skipping: while the usable set V stays fixed, |V| consecutive calls hand
      out every key of V exactly once. */
  lemma RotationFair(pools: seq<Pool>, nows: seq<int>, slots: seq<nat>, V: set<nat>)
    requires Rotation(pools, nows, slots) && |nows| == |V|
    requires forall i :: 0 <= i < |nows| ==> UsableSlots(pools[i], nows[i]) == V
    requires var n := |pools[0].keys|; n < WRAP && Steady(pools[0].cursor, n, n)
    ensures NoDuplicates(slots) && ToSet(slots) == V
  {
    var o := RotationPrefix(pools, nows, slots, V, |V|);
    assert slots[..|V|] == slots;
    SubsetSameSize(ToSet(slots), V);
  }

  // ---- the object ----

  function Configured(keys: seq<string>): seq<string> {
    Filter(seq(|keys|, i requires 0 <= i < |keys| => TrimSpace(keys[i])), NonEmpty())
  }

  function NonEmpty(): string -> bool {
    k => k != ""
  }

  method Dedupe(configured: seq<string>) returns (filtered: seq<string>)
    ensures filtered == Distinct(Configured(configured))
  {
    hide TrimSpace;
    var seen: set<string> := {};
    filtered := [];
    ghost var trimmed := seq(|configured|, i requires 0 <= i < |configured| => TrimSpace(configured[i]));
    for i := 0 to |configured|
      invariant filtered == Distinct(Filter(trimmed[..i], NonEmpty()))
      invariant seen == set k | k in filtered
    {
      var k := TrimSpace(configured[i]);
      assert trimmed[..i + 1] == trimmed[..i] + [k];
      FilterSnoc(trimmed[..i], k, NonEmpty());
      DistinctSnoc(Filter(trimmed[..i], NonEmpty()), k);
      if k == "" || k in seen {
        continue;
      }
      seen := seen + {k};
      filtered := filtered + [k];
    }
    assert trimmed[..|configured|] == trimmed;
  }

  class KeyPool {
    var keys: seq<string>
    var states: seq<Option<int>>
    var idx: nat
    var lastKey: Option<string>

    ghost var drawn: seq<nat>  // the slot of every key ever handed out

    ghost function View(): Pool
      reads this
    {
      Pool(keys, states, idx, lastKey)
    }

    ghost predicate Valid()
      reads this
    {
      WellFormed(View())
    }

    constructor (keys: seq<string>)
      requires keys != [] && NoDuplicates(keys)
      ensures Valid() && View() == Pool(keys, seq(|keys|, i => None), 0, None) && drawn == []
    {
      this.keys, states, idx, lastKey, drawn := keys, seq(|keys|, i => None), 0, None, [];
    }

    /** Trims and deduplicates the configured keys; no key left is the error case. */
    static method NewKeyPool(configured: seq<string>) returns (pool: KeyPool?)
      ensures pool == null <==> Distinct(Configured(configured)) == []
      ensures pool != null ==> fresh(pool) && pool.Valid()
      ensures pool != null ==>
                pool.View() == Pool(Distinct(Configured(configured)), seq(|pool.keys|, i => None), 0, None)
    {
      var filtered := Dedupe(configured);
      DistinctFacts(Configured(configured));
      if filtered == [] {
        return null;
      }
      pool := new KeyPool(filtered);
    }

    /** Moves the cursor to the first usable slot, or once round, noting the earliest recovery. */
    method Probe(now: int) returns (found: bool, slot: nat, earliest: Option<int>)
      requires Valid()
      modifies `idx
      ensures var p, n := old(View()), |keys|;
              && found == (FirstUsable(p, now, 0) < n)
              && View() == p.(cursor := Wrap(p.cursor + FirstUsable(p, now, 0) + if found then 1 else 0))
              && (found ==> slot == SlotAt(p.cursor, FirstUsable(p, now, 0), n))
              && (!found ==> EarliestOf(p, earliest, n))
    {
      hide Wrap, SlotAt, EarliestOf;
      var n := |keys|;
      ghost var p := View();
      WrapSmall(p.cursor);
      earliest, found, slot := None, false, 0;
      var i := 0;
      while i < n
        invariant i <= n && View() == p.(cursor := idx) && idx == Wrap(p.cursor + i)
        invariant FirstUsable(p, now, 0) == FirstUsable(p, now, i)
        invariant (earliest.None? <==> i == 0) && (i > 0 ==> EarliestOf(p, earliest, i))
      {
        var s := idx % n;
        SlotHere(p.cursor, i, n);
        idx := Wrap(idx + 1);
        WrapAdd(p.cursor + i, 1);
        if Usable(states[s], now) {
          return true, s, earliest;
        }
        EarliestStep(p, earliest, i);
        if earliest.None? || states[s].value < earliest.value {
          earliest := states[s];
        }
        i := i + 1;
      }
    }

    /** Hands out the next usable key, or when none is usable the one that recovers first. */
    method Next(now: int) returns (key: string, ghost slot: nat)
      requires Valid()
      modifies this
      ensures Valid() && Draws(old(View()), now, View(), slot) && key == keys[slot]
      ensures drawn == old(drawn) + [slot]
    {
      hide FirstUsable, SlotAt;
      var n := |keys|;
      ghost var p := View();
      var found, s, earliest := Probe(now);
      if found {
        states := states[s := None];
        lastKey, drawn := Some(keys[s]), drawn + [s];
        return keys[s], s;
      }
      assert exists i: nat :: i < n && p.until[SlotAt(p.cursor, i, n)] == earliest;
      var e := 0;
      while e < n && states[e] != earliest
        invariant e <= n && forall k: nat :: k < e ==> p.until[k] != earliest
      {
        e := e + 1;
      }
      assert e < n;
      lastKey, drawn := Some(keys[e]), drawn + [e];
      return keys[e], e;
    }

    /** Puts the slot of `key`, if the pool has it, into cooldown for half an hour. */
    method MarkInvalid(key: string, now: int)
      requires Valid()
      modifies this`states
      ensures Valid() && View() == Marked(old(View()), Some(key), now)
    {
      for i := 0 to |keys|
        invariant states == old(states) && key !in keys[..i]
      {
        if keys[i] == key {
          states := states[i := Some(now + TTL)];
          return;
        }
      }
    }

    method MarkLastInvalid(now: int)
      requires Valid()
      modifies this`states
      ensures Valid() && View() == Marked(old(View()), lastKey, now)
    {
      if lastKey.Some? {
        MarkInvalid(lastKey.value, now);
      }
    }

    method Available(now: int) returns (count: nat)
      requires Valid()
      ensures count == |UsableSlots(View(), now)|
    {
      count := 0;
      ghost var seen: set<nat> := {};
      for i := 0 to |states|
        invariant count == |seen| && seen == set s: nat | s < i && s < |states| && Usable(states[s], now)
      {
        if Usable(states[i], now) {
          count := count + 1;
          seen := seen + {i};
        }
      }
      assert seen == UsableSlots(View(), now);
    }
  }

  /** The pool after the slot of `key` was put into cooldown; unchanged without such a slot. */
  ghost function Marked(p: Pool, key: Option<string>, now: int): (r: Pool)
    requires WellFormed(p)
    ensures WellFormed(r) && r.keys == p.keys && r.lastKey == p.lastKey && r.cursor == p.cursor
    ensures forall s :: 0 <= s < |p.keys| ==>
              r.until[s] == if key == Some(p.keys[s]) then Some(now + TTL) else p.until[s]
  {
    p.(until := seq(|p.until|, s requires 0 <= s < |p.until| =>
                      if key == Some(p.keys[s]) then Some(now + TTL) else p.until[s]))
  }

  /** A marked key is out of use for half an hour and usable from then on; the others are as they were. */
  lemma CoolsHalfAnHour(p: Pool, s: nat, now: int, t: int)
    requires WellFormed(p) && s < |p.keys|
    ensures s in UsableSlots(Marked(p, Some(p.keys[s]), now), t) <==> t > now + 1_800_000_000_000
    ensures forall o :: 0 <= o < |p.keys| && o != s ==>
              (o in UsableSlots(Marked(p, Some(p.keys[s]), now), t) <==> o in UsableSlots(p, t))
  {
    assert forall o :: 0 <= o < |p.keys| && o != s ==> p.keys[o] != p.keys[s];
  }
}
