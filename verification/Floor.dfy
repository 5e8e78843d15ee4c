/** The academic score floor: a threshold pass, then a rescue pass for each engine's first result,
    then a stable sort. On what the merge delivers the three passes are one order-preserving filter. */
module Floor {
  import opened Core
  import opened Seqs
  import opened Sorting

  const DEFAULT_THRESHOLD: real := 0.02

  function Threshold(threshold: real): real {
    if threshold <= 0.0 then DEFAULT_THRESHOLD else threshold
  }

  function KeySet(nm: Normalizer, rs: seq<SearchResult>): set<string> {
    set i, k | 0 <= i < |rs| && k in ResultKeys(nm, rs[i]) :: k
  }

  /** The keys of every engine's first result. */
  function TopKeys(nm: Normalizer, buckets: seq<ScoreBucket>): set<string> {
    set i, k | 0 <= i < |buckets| && buckets[i].results != [] && k in ResultKeys(nm, buckets[i].results[0]) :: k
  }

  predicate Touches(nm: Normalizer, r: SearchResult, keys: set<string>) {
    exists k :: k in ResultKeys(nm, r) && k in keys
  }

  /** What the threshold pass keeps of the first n results. */
  function Passed(scored: seq<SearchResult>, threshold: real, n: nat): seq<SearchResult>
    requires n <= |scored|
  {
    if n == 0 then []
    else Passed(scored, threshold, n - 1) + if n == 1 || scored[n - 1].score >= threshold then [scored[n - 1]] else []
  }

  /** What the rescue pass, which goes on from the kept results, makes of the first n. */
  function Rescued(nm: Normalizer, scored: seq<SearchResult>, top: set<string>, kept: seq<SearchResult>,
                   n: nat): seq<SearchResult>
    requires n <= |scored|
  {
    if n == 0 then kept
    else
      var k, r := Rescued(nm, scored, top, kept, n - 1), scored[n - 1];
      if Touches(nm, r, top) && !Touches(nm, r, KeySet(nm, k)) then k + [r] else k
  }

  function ScoreFloor(nm: Normalizer, scored: seq<SearchResult>, buckets: seq<ScoreBucket>,
                      threshold: real): seq<SearchResult> {
    var kept := Passed(scored, Threshold(threshold), |scored|);
    SortDesc(Rescued(nm, scored, TopKeys(nm, buckets), kept, |scored|), ScoreOf())
  }

  /** Makes one pass over the results and one over the buckets, remembering keys as it goes. */
  method ApplyAcademicScoreFloor(nm: Normalizer, scored: seq<SearchResult>, buckets: seq<ScoreBucket>, threshold: real)
    returns (kept: seq<SearchResult>)
    ensures kept == ScoreFloor(nm, scored, buckets, threshold)
  {
    var limit := Threshold(threshold);
    if scored == [] {
      return scored;
    }
    kept := [];
    var keptKeys: set<string> := {};
    for i := 0 to |scored|
      invariant kept == Passed(scored, limit, i) && keptKeys == KeySet(nm, kept)
    {
      if i == 0 || scored[i].score >= limit {
        KeySetSnoc(nm, kept, scored[i]);
        kept := kept + [scored[i]];
        keptKeys := keptKeys + (set k | k in ResultKeys(nm, scored[i]));
      }
    }
    var topKeys: set<string> := {};
    for i := 0 to |buckets|
      invariant topKeys == TopKeys(nm, buckets[..i])
    {
      TopKeysSnoc(nm, buckets[..i], buckets[i]);
      assert buckets[..i + 1] == buckets[..i] + [buckets[i]];
      if buckets[i].results == [] {
        continue;
      }
      topKeys := topKeys + (set k | k in ResultKeys(nm, buckets[i].results[0]));
    }
    assert buckets[..|buckets|] == buckets;
    ghost var first := kept;
    for i := 0 to |scored|
      invariant kept == Rescued(nm, scored, topKeys, first, i) && keptKeys == KeySet(nm, kept)
    {
      if Touches(nm, scored[i], topKeys) && !Touches(nm, scored[i], keptKeys) {
        KeySetSnoc(nm, kept, scored[i]);
        kept := kept + [scored[i]];
        keptKeys := keptKeys + (set k | k in ResultKeys(nm, scored[i]));
      }
    }
    if |kept| > 1 {
      kept := SortDesc(kept, ScoreOf());
    } else {
      SortDescIdentity(kept, ScoreOf());
    }
  }

  lemma KeySetSnoc(nm: Normalizer, rs: seq<SearchResult>, r: SearchResult)
    ensures KeySet(nm, rs + [r]) == KeySet(nm, rs) + set k | k in ResultKeys(nm, r)
  {
    var all := rs + [r];
    forall k ensures k in KeySet(nm, all) <==> k in KeySet(nm, rs) || k in ResultKeys(nm, r) {
      if k in KeySet(nm, rs) {
        var i :| 0 <= i < |rs| && k in ResultKeys(nm, rs[i]);
        assert all[i] == rs[i];
      }
      if k in ResultKeys(nm, r) {
        assert all[|rs|] == r;
      }
    }
  }

  lemma TopKeysSnoc(nm: Normalizer, bs: seq<ScoreBucket>, b: ScoreBucket)
    ensures TopKeys(nm, bs + [b]) == TopKeys(nm, bs) +
            if b.results == [] then {} else set k | k in ResultKeys(nm, b.results[0])
  {
    var all := bs + [b];
    forall k ensures k in TopKeys(nm, all) <==>
      k in TopKeys(nm, bs) || (b.results != [] && k in ResultKeys(nm, b.results[0])) {
      if k in TopKeys(nm, bs) {
        var i :| 0 <= i < |bs| && bs[i].results != [] && k in ResultKeys(nm, bs[i].results[0]);
        assert all[i] == bs[i];
      }
      if b.results != [] && k in ResultKeys(nm, b.results[0]) {
        assert all[|bs|] == b;
      }
    }
  }

  /** r shares a key with the first result of some engine. */
  ghost predicate ShowsFirst(nm: Normalizer, r: SearchResult, buckets: seq<ScoreBucket>) {
    exists b: nat :: b < |buckets| && buckets[b].results != [] && SharesKey(nm, r, buckets[b].results[0])
  }

  lemma TouchesTop(nm: Normalizer, r: SearchResult, buckets: seq<ScoreBucket>)
    ensures Touches(nm, r, TopKeys(nm, buckets)) <==> ShowsFirst(nm, r, buckets)
  {
    hide ResultKeys;
    if Touches(nm, r, TopKeys(nm, buckets)) {
      var k :| k in ResultKeys(nm, r) && k in TopKeys(nm, buckets);
      var b :| 0 <= b < |buckets| && buckets[b].results != [] && k in ResultKeys(nm, buckets[b].results[0]);
      assert SharesKey(nm, r, buckets[b].results[0]);
    }
    if ShowsFirst(nm, r, buckets) {
      var b: nat :| b < |buckets| && buckets[b].results != [] && SharesKey(nm, r, buckets[b].results[0]);
      var k :| k in ResultKeys(nm, r) && k in ResultKeys(nm, buckets[b].results[0]);
      assert k in TopKeys(nm, buckets);
    }
  }

  // ---- the floor as one filter ----

  /** Top result, at least the threshold, or sharing a key with some engine's first result. */
  ghost predicate Keeps(nm: Normalizer, scored: seq<SearchResult>, top: set<string>, threshold: real, i: nat)
    requires i < |scored|
  {
    i == 0 || scored[i].score >= threshold || Touches(nm, scored[i], top)
  }

  /** The kept results among the first n, in their original order. */
  ghost function Kept(nm: Normalizer, scored: seq<SearchResult>, top: set<string>, threshold: real,
                      n: nat): seq<SearchResult>
    requires n <= |scored|
  {
    if n == 0 then []
    else Kept(nm, scored, top, threshold, n - 1) +
             if Keeps(nm, scored, top, threshold, n - 1) then [scored[n - 1]] else []
  }

  /** Length of the prefix the threshold pass keeps on sorted input. */
  function PrefixLength(scored: seq<SearchResult>, threshold: real, n: nat): (p: nat)
    requires n <= |scored|
    ensures p <= n
  {
    if n == 0 then 0
    else var p := PrefixLength(scored, threshold, n - 1);
         if p == n - 1 && (n == 1 || scored[n - 1].score >= threshold) then n else p
  }

  lemma {:induction false} PassedIsPrefix(scored: seq<SearchResult>, threshold: real, n: nat)
    requires n <= |scored| && SortedDesc(scored, ScoreOf())
    ensures Passed(scored, threshold, n) == scored[..PrefixLength(scored, threshold, n)]
    ensures n > 0 ==> PrefixLength(scored, threshold, n) > 0
    ensures forall i :: PrefixLength(scored, threshold, n) <= i < n ==> scored[i].score < threshold
    ensures forall i :: 0 < i < PrefixLength(scored, threshold, n) ==> scored[i].score >= threshold
  {
    if n > 0 {
      PassedIsPrefix(scored, threshold, n - 1);
      var p := PrefixLength(scored, threshold, n - 1);
      if p < n - 1 {
        assert ScoreOf()(scored[p]) >= ScoreOf()(scored[n - 1]);
      } else {
        assert scored[..n] == scored[..n - 1] + [scored[n - 1]];
      }
    }
  }

  /** The part of scored[p..n] that touches a first result. */
  ghost function Tail(nm: Normalizer, scored: seq<SearchResult>, top: set<string>, p: nat, n: nat): seq<SearchResult>
    requires p <= |scored| && n <= |scored|
  {
    if n <= p then []
    else Tail(nm, scored, top, p, n - 1) + if Touches(nm, scored[n - 1], top) then [scored[n - 1]] else []
  }

  lemma {:induction false} TailPositions(nm: Normalizer, scored: seq<SearchResult>, top: set<string>, p: nat, n: nat)
    returns (at: seq<int>)
    requires p <= |scored| && n <= |scored|
    ensures PicksFrom(scored[..p] + Tail(nm, scored, top, p, n), scored, at)
    ensures forall k :: 0 <= k < |at| ==> at[k] < Max(p, n)
    ensures forall i :: 0 <= i < p ==> i in at
  {
    hide Touches;
    if n <= p {
      at := PrefixPositions(scored, p);
      assert scored[..p] + Tail(nm, scored, top, p, n) == scored[..p];
    } else {
      at := TailPositions(nm, scored, top, p, n - 1);
      var kept := scored[..p] + Tail(nm, scored, top, p, n - 1);
      if Touches(nm, scored[n - 1], top) {
        PicksSnoc(kept, scored, at, n - 1);
        assert scored[..p] + Tail(nm, scored, top, p, n) == kept + [scored[n - 1]];
        at := at + [n - 1];
      }
    }
  }

  lemma PrefixPositions(scored: seq<SearchResult>, p: nat) returns (at: seq<int>)
    requires p <= |scored|
    ensures PicksFrom(scored[..p], scored, at)
    ensures (forall k :: 0 <= k < |at| ==> at[k] < p) && forall i :: 0 <= i < p ==> i in at
  {
    at := seq(p, i => i);
    forall i | 0 <= i < p ensures i in at {
      assert at[i] == i;
    }
  }

  /** With disjoint key sets a result touches the keys kept so far only if it was kept itself. */
  lemma TouchesKept(nm: Normalizer, scored: seq<SearchResult>, kept: seq<SearchResult>, at: seq<int>, i: nat)
    requires SeparateKeys(nm, scored) && i < |scored| && PicksFrom(kept, scored, at)
    ensures Touches(nm, scored[i], KeySet(nm, kept)) <==> i in at
  {
    if i in at {
      var k :| 0 <= k < |at| && at[k] == i;
      var key := ResultKeys(nm, scored[i])[0];
      assert kept[k] == scored[i] && key in ResultKeys(nm, kept[k]);
      assert key in KeySet(nm, kept);
    }
    if Touches(nm, scored[i], KeySet(nm, kept)) {
      var key :| key in ResultKeys(nm, scored[i]) && key in KeySet(nm, kept);
      var k :| 0 <= k < |kept| && key in ResultKeys(nm, kept[k]);
      assert SharesKey(nm, scored[i], scored[at[k]]);
      assert i == at[k];
    }
  }

  lemma {:induction false} RescuedIsTail(nm: Normalizer, scored: seq<SearchResult>, top: set<string>, p: nat, n: nat)
    requires SeparateKeys(nm, scored) && p <= |scored| && n <= |scored|
    ensures Rescued(nm, scored, top, scored[..p], n) == scored[..p] + Tail(nm, scored, top, p, n)
  {
    hide Touches, SeparateKeys, KeySet, PicksFrom;
    if n > 0 {
      RescuedIsTail(nm, scored, top, p, n - 1);
      var kept := scored[..p] + Tail(nm, scored, top, p, n - 1);
      var at := TailPositions(nm, scored, top, p, n - 1);
      TouchesKept(nm, scored, kept, at, n - 1);
      assert n - 1 in at <==> n - 1 < p;
      if Touches(nm, scored[n - 1], top) && p <= n - 1 {
        assert kept + [scored[n - 1]] == scored[..p] + Tail(nm, scored, top, p, n);
      }
    }
  }

  lemma {:induction false} KeptSplits(nm: Normalizer, scored: seq<SearchResult>, top: set<string>, threshold: real,
                                      p: nat, n: nat)
    requires p <= |scored| && n <= |scored|
    requires forall i :: 0 < i < p ==> scored[i].score >= threshold
    requires p > 0 || scored == []
    requires forall i :: p <= i < |scored| ==> scored[i].score < threshold
    ensures Kept(nm, scored, top, threshold, n) ==
            if n <= p then scored[..n] else scored[..p] + Tail(nm, scored, top, p, n)
  {
    if n > 0 {
      KeptSplits(nm, scored, top, threshold, p, n - 1);
      assert n <= p ==> scored[..n] == scored[..n - 1] + [scored[n - 1]];
    }
  }

  lemma {:induction false} KeptInOrder(nm: Normalizer, scored: seq<SearchResult>, top: set<string>, threshold: real,
                                       n: nat)
    returns (at: seq<int>)
    requires n <= |scored|
    ensures PicksFrom(Kept(nm, scored, top, threshold, n), scored, at)
    ensures forall k :: 0 <= k < |at| ==> 0 <= at[k] < n
    ensures forall i: nat :: i < n ==> (i in at <==> Keeps(nm, scored, top, threshold, i))
  {
    if n == 0 {
      at := [];
    } else {
      var before := KeptInOrder(nm, scored, top, threshold, n - 1);
      at := before;
      if Keeps(nm, scored, top, threshold, n - 1) {
        at := before + [n - 1];
        PicksSnoc(Kept(nm, scored, top, threshold, n - 1), scored, before, n - 1);
      }
      forall i: nat | i < n ensures i in at <==> Keeps(nm, scored, top, threshold, i) {
        assert i in at <==> i in before || (i == n - 1 && Keeps(nm, scored, top, threshold, i));
      }
    }
  }

  lemma PickedSorted(s: seq<SearchResult>, t: seq<SearchResult>, at: seq<int>)
    requires PicksFrom(s, t, at) && SortedDesc(t, ScoreOf())
    ensures SortedDesc(s, ScoreOf())
  {
    forall i, j | 0 <= i < j < |s| ensures ScoreOf()(s[i]) >= ScoreOf()(s[j]) {
      assert ScoreOf()(t[at[i]]) >= ScoreOf()(t[at[j]]);
    }
  }

  lemma PassesAreFilter(nm: Normalizer, scored: seq<SearchResult>, top: set<string>, limit: real)
    requires SortedDesc(scored, ScoreOf()) && SeparateKeys(nm, scored)
    ensures Rescued(nm, scored, top, Passed(scored, limit, |scored|), |scored|) ==
            Kept(nm, scored, top, limit, |scored|)
  {
    var n := |scored|;
    var p := PrefixLength(scored, limit, n);
    PassedIsPrefix(scored, limit, n);
    RescuedIsTail(nm, scored, top, p, n);
    KeptSplits(nm, scored, top, limit, p, n);
  }

  /** On sorted results with disjoint keys the floor is an exact order-preserving filter: the rescue
      pass duplicates nothing and the final sort moves nothing. */
  lemma FloorIsFilter(nm: Normalizer, scored: seq<SearchResult>, buckets: seq<ScoreBucket>, threshold: real)
    requires SortedDesc(scored, ScoreOf()) && SeparateKeys(nm, scored)
    ensures ScoreFloor(nm, scored, buckets, threshold)
            == Kept(nm, scored, TopKeys(nm, buckets), Threshold(threshold), |scored|)
  {
    var limit, top := Threshold(threshold), TopKeys(nm, buckets);
    var kept := Kept(nm, scored, top, limit, |scored|);
    PassesAreFilter(nm, scored, top, limit);
    var at := KeptInOrder(nm, scored, top, limit, |scored|);
    PickedSorted(kept, scored, at);
    SortDescIdentity(kept, ScoreOf());
  }
}
