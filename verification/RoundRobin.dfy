/** Even distribution of results over engines: one from each in turn until the limit. */
module RoundRobin {
  import opened Core
  import opened Seqs

  type Buckets = map<string, seq<SearchResult>>

  function Bucket(buckets: Buckets, name: string): seq<SearchResult> {
    if name in buckets then buckets[name] else []
  }

  function Sizes(buckets: Buckets, order: seq<string>): seq<nat> {
    seq(|order|, a requires 0 <= a < |order| => |Bucket(buckets, order[a])|)
  }

  /** The results taken from the a-th engine, in the order they came out; from[k] is the position
      of the engine that gave the k-th result. */
  ghost function Taken(out: seq<SearchResult>, from: seq<nat>, a: nat): seq<SearchResult>
    requires |out| == |from|
  {
    if out == [] then []
    else
      var n := |out| - 1;
      Taken(out[..n], from[..n], a) + if from[n] == a then [out[n]] else []
  }

  lemma TakenSnoc(out: seq<SearchResult>, from: seq<nat>, r: SearchResult, b: nat, a: nat)
    requires |out| == |from|
    ensures Taken(out + [r], from + [b], a) == Taken(out, from, a) + if a == b then [r] else []
  {
    assert (out + [r])[..|out|] == out && (from + [b])[..|out|] == from;
  }

  /** After `round` full rounds and the first `place` engines of the next. */
  ghost predicate Fair(counts: seq<nat>, sizes: seq<nat>, round: nat, place: nat) {
    && |counts| == |sizes|
    && forall a :: 0 <= a < |counts| ==> counts[a] == Min(round + (if a < place then 1 else 0), sizes[a])
  }

  /** The output is made of prefixes of the buckets, counts[a] long. */
  ghost predicate Prefixes(out: seq<SearchResult>, from: seq<nat>, counts: seq<nat>, buckets: Buckets,
                           order: seq<string>) {
    && |out| == |from| == SumNat(counts) && |counts| == |order|
    && (forall k :: 0 <= k < |from| ==> from[k] < |order|)
    && forall a :: 0 <= a < |order| ==>
         counts[a] <= |Bucket(buckets, order[a])| && Taken(out, from, a) == Bucket(buckets, order[a])[..counts[a]]
  }

  /** How many of the results came from the a-th engine. */
  function CountOf(from: seq<nat>, a: nat): nat {
    if from == [] then 0 else CountOf(from[..|from| - 1], a) + if from[|from| - 1] == a then 1 else 0
  }

  ghost function Tally(from: seq<nat>, n: nat): seq<nat> {
    seq(n, a requires 0 <= a < n => CountOf(from, a))
  }

  /** The counts of some moment of the deal: so many full rounds, and part of the next. */
  ghost predicate FairSoFar(counts: seq<nat>, sizes: seq<nat>) {
    exists round: nat, place: nat :: place <= |sizes| && Fair(counts, sizes, round, place)
  }

  /** The results came out round by round, one from each engine in turn: every prefix is fair. */
  ghost predicate Dealt(from: seq<nat>, sizes: seq<nat>) {
    forall k: nat :: k <= |from| ==> FairSoFar(Tally(from[..k], |sizes|), sizes)
  }

  lemma {:induction false} CountTaken(out: seq<SearchResult>, from: seq<nat>, a: nat)
    requires |out| == |from|
    ensures CountOf(from, a) == |Taken(out, from, a)|
  {
    if out != [] {
      CountTaken(out[..|out| - 1], from[..|out| - 1], a);
    }
  }

  lemma TallyIsCounts(out: seq<SearchResult>, from: seq<nat>, counts: seq<nat>, buckets: Buckets, order: seq<string>)
    requires Prefixes(out, from, counts, buckets, order)
    ensures Tally(from, |order|) == counts
  {
    forall a | 0 <= a < |order| ensures CountOf(from, a) == counts[a] {
      CountTaken(out, from, a);
    }
  }

  lemma DealtGrows(from: seq<nat>, b: nat, out: seq<SearchResult>, counts: seq<nat>, buckets: Buckets,
                   order: seq<string>, round: nat, place: nat)
    requires Dealt(from, Sizes(buckets, order)) && Prefixes(out, from + [b], counts, buckets, order)
    requires place <= |order| && Fair(counts, Sizes(buckets, order), round, place)
    ensures Dealt(from + [b], Sizes(buckets, order))
  {
    var sizes, grown := Sizes(buckets, order), from + [b];
    TallyIsCounts(out, grown, counts, buckets, order);
    hide Prefixes, Fair, Tally, Sizes, FairSoFar;
    assert FairSoFar(counts, sizes) by { FairNow(counts, sizes, round, place); }
    forall k: nat | k <= |grown| ensures FairSoFar(Tally(grown[..k], |sizes|), sizes) {
      if k <= |from| {
        assert grown[..k] == from[..k];
      } else {
        assert grown[..k] == grown;
      }
    }
  }

  lemma {:induction false} EqualSums(s: seq<nat>, t: seq<nat>)
    requires |s| == |t| && SumNat(s) == SumNat(t) && forall i :: 0 <= i < |s| ==> s[i] <= t[i]
    ensures s == t
  {
    if s != [] {
      var n := |s| - 1;
      SumNatMonotone(s[..n], t[..n]);
      EqualSums(s[..n], t[..n]);
      assert s == s[..n] + [s[n]] && t == t[..n] + [t[n]];
    }
  }

  /** The moments of the deal are one after another, so the number of results fixes the counts. */
  lemma FairUnique(c: seq<nat>, d: seq<nat>, sizes: seq<nat>)
    requires FairSoFar(c, sizes) && FairSoFar(d, sizes) && SumNat(c) == SumNat(d)
    ensures c == d
  {
    var r1: nat, p1: nat :| p1 <= |sizes| && Fair(c, sizes, r1, p1);
    var r2: nat, p2: nat :| p2 <= |sizes| && Fair(d, sizes, r2, p2);
    if r1 < r2 || (r1 == r2 && p1 <= p2) {
      EqualSums(c, d);
    } else {
      EqualSums(d, c);
    }
  }

  lemma FairNow(counts: seq<nat>, sizes: seq<nat>, round: nat, place: nat)
    requires place <= |sizes| && Fair(counts, sizes, round, place)
    ensures FairSoFar(counts, sizes)
  {}

  lemma NothingDealt(sizes: seq<nat>)
    ensures Dealt([], sizes)
  {
    assert Fair(Tally([], |sizes|), sizes, 0, 0);
  }

  lemma PrefixesGrow(out: seq<SearchResult>, from: seq<nat>, counts: seq<nat>, buckets: Buckets, order: seq<string>,
                     b: nat)
    requires Prefixes(out, from, counts, buckets, order) && b < |order| && counts[b] < |Bucket(buckets, order[b])|
    ensures Prefixes(out + [Bucket(buckets, order[b])[counts[b]]],
                     from + [b], counts[b := counts[b] + 1], buckets, order)
  {
    hide SumNat, Bucket;
    var r := Bucket(buckets, order[b])[counts[b]];
    SumNatUpdate(counts, b, counts[b] + 1);
    forall a | 0 <= a < |order|
      ensures Taken(out + [r], from + [b], a) == Bucket(buckets, order[a])[..counts[b := counts[b] + 1][a]]
    {
      TakenSnoc(out, from, r, b, a);
      if a == b {
        assert Bucket(buckets, order[b])[..counts[b] + 1] == Bucket(buckets, order[b])[..counts[b]] + [r];
      }
    }
  }

  /** No engine with results left is more than one behind another, or at all behind a later one. */
  ghost predicate Even(counts: seq<nat>, sizes: seq<nat>) {
    && |counts| == |sizes|
    && forall a, b :: 0 <= a < |counts| && 0 <= b < |counts| ==>
         counts[a] == sizes[a] || counts[b] <= counts[a] + if a < b then 0 else 1
  }

  lemma FairIsEven(counts: seq<nat>, sizes: seq<nat>, round: nat, place: nat)
    requires Fair(counts, sizes, round, place)
    ensures Even(counts, sizes)
  {}

  function Used(indices: map<string, nat>, name: string): nat {
    if name in indices then indices[name] else 0
  }

  ghost predicate Counted(indices: map<string, nat>, counts: seq<nat>, order: seq<string>) {
    |counts| == |order| && forall a :: 0 <= a < |order| ==> counts[a] == Used(indices, order[a])
  }

  lemma CountOne(indices: map<string, nat>, counts: seq<nat>, order: seq<string>, p: nat)
    requires NoDuplicates(order) && p < |order| && Counted(indices, counts, order)
    ensures Counted(indices[order[p] := counts[p] + 1], counts[p := counts[p] + 1], order)
  {}

  /** One round: at most one result from each engine in turn, stopping at the limit. */
  method Round(buckets: Buckets, order: seq<string>, limit: int, out0: seq<SearchResult>, indices0: map<string, nat>,
               ghost from0: seq<nat>, ghost counts0: seq<nat>, ghost round: nat)
    returns (out: seq<SearchResult>, indices: map<string, nat>, added: bool,
             ghost from: seq<nat>, ghost counts: seq<nat>, ghost place: nat)
    requires NoDuplicates(order) && |out0| < limit && Counted(indices0, counts0, order)
    requires Prefixes(out0, from0, counts0, buckets, order) && Fair(counts0, Sizes(buckets, order), round, 0)
    requires Dealt(from0, Sizes(buckets, order))
    ensures Dealt(from, Sizes(buckets, order))
    ensures Counted(indices, counts, order) && Prefixes(out, from, counts, buckets, order) && |out| == SumNat(counts)
    ensures place <= |order| && Fair(counts, Sizes(buckets, order), round, place)
    ensures |out0| <= |out| <= limit && (added <==> |out| > |out0|)
    ensures place < |order| ==> |out| == limit
    ensures !added ==> counts == Sizes(buckets, order)
  {
    hide Prefixes, Counted, Dealt;
    out, indices, from, counts, added := out0, indices0, from0, counts0, false;
    ghost var sizes := Sizes(buckets, order);
    for p := 0 to |order|
      invariant Prefixes(out, from, counts, buckets, order) && Fair(counts, sizes, round, p) && Dealt(from, sizes)
      invariant |out0| <= |out| <= limit && (added <==> |out| > |out0|)
      invariant !added ==> forall a :: 0 <= a < p ==> sizes[a] <= round
      invariant Counted(indices, counts, order)
    {
      if |out| >= limit {
        place := p;
        PrefixesSize(out, from, counts, buckets, order);
        return;
      }
      var name := order[p];
      var idx := Used(indices, name);
      assert idx == counts[p] by { CountedAt(indices, counts, order, p); }
      if idx < |Bucket(buckets, name)| {
        PrefixesGrow(out, from, counts, buckets, order, p);
        CountOne(indices, counts, order, p);
        DealtGrows(from, p, out + [Bucket(buckets, name)[idx]], counts[p := idx + 1], buckets, order, round, p + 1);
        out, from, counts := out + [Bucket(buckets, name)[idx]], from + [p], counts[p := idx + 1];
        indices := indices[name := idx + 1];
        added := true;
      }
    }
    place := |order|;
    PrefixesSize(out, from, counts, buckets, order);
  }

  lemma PrefixesSize(out: seq<SearchResult>, from: seq<nat>, counts: seq<nat>, buckets: Buckets, order: seq<string>)
    requires Prefixes(out, from, counts, buckets, order)
    ensures |out| == SumNat(counts) && |counts| == |order|
  {}

  lemma CountedAt(indices: map<string, nat>, counts: seq<nat>, order: seq<string>, p: nat)
    requires Counted(indices, counts, order) && p < |order|
    ensures counts[p] == Used(indices, order[p])
  {}

  function Zeros(n: nat): seq<nat> {
    seq(n, a => 0)
  }

  lemma NothingTaken(buckets: Buckets, order: seq<string>)
    ensures Prefixes([], [], Zeros(|order|), buckets, order) && SumNat(Zeros(|order|)) == 0
  {
    SumNatZero(Zeros(|order|));
  }

  lemma NothingCounted(order: seq<string>)
    ensures Counted(map[], Zeros(|order|), order)
  {}

  /** Takes exactly min(limit, total) results, a prefix of every bucket, evenly: one from each engine
      in turn, round after round. */
  method Distribute(buckets: Buckets, order: seq<string>, limit: int)
    returns (out: seq<SearchResult>, ghost from: seq<nat>, ghost counts: seq<nat>)
    requires NoDuplicates(order)
    ensures |out| == Min(Max(limit, 0), SumNat(Sizes(buckets, order)))
    ensures Prefixes(out, from, counts, buckets, order) && Even(counts, Sizes(buckets, order))
    ensures Dealt(from, Sizes(buckets, order))
  {
    hide Prefixes, Counted, Dealt;
    out, from, counts := [], [], Zeros(|order|);
    assert Prefixes(out, from, counts, buckets, order) by { NothingTaken(buckets, order); }
    PrefixesSize(out, from, counts, buckets, order);
    assert Counted(map[], counts, order) by { NothingCounted(order); }
    NothingDealt(Sizes(buckets, order));
    ghost var sizes := Sizes(buckets, order);
    var indices: map<string, nat> := map[];
    ghost var round, place := 0, 0;
    while |out| < limit
      invariant Prefixes(out, from, counts, buckets, order) && Counted(indices, counts, order)
      invariant Fair(counts, sizes, round, place) && Dealt(from, sizes) && |out| == SumNat(counts)
      invariant |out| <= Max(limit, 0) && (|out| < limit ==> place == 0)
      decreases limit - |out|
    {
      var added;
      out, indices, added, from, counts, place := Round(buckets, order, limit, out, indices, from, counts, round);
      if !added {
        break;
      }
      if place == |order| {
        round, place := round + 1, 0;
      }
    }
    SumNatMonotone(counts, sizes);
    FairIsEven(counts, sizes, round, place);
  }
}
