/** The per-engine rescue, as documented: an engine's first result is restored even below the
    threshold. It is restored exactly when the entry that took it in is kept on its own account,
    and that entry may show neither of the result's keys. */
module Rescue {
  import opened Academic
  import opened Core
  import opened Floor
  import opened Fusion
  import opened Seqs
  import opened Sorting

  /** The entry that takes in the first result of bucket b. */
  function FirstOwner(nm: Normalizer, buckets: seq<ScoreBucket>, b: nat): nat
    requires b < |buckets| && buckets[b].results != []
  {
    Locate(nm, Fuse(nm, Hits(buckets[..b])), buckets[b].results[0])
  }

  /** Entry i survives the floor exactly when it is the best, reaches the threshold, or itself
      shows a key of some engine's first result. */
  lemma SurvivesIff(nm: Normalizer, sg: Signals, buckets: seq<ScoreBucket>, threshold: real, i: nat)
    requires nm.Valid() && i < |Fuse(nm, Hits(buckets)).aggs|
    ensures var e := ScoredEntry(sg, Fuse(nm, Hits(buckets)).aggs[i]);
            var ranked := Ranked(nm, sg, buckets);
            && ranked != []
            && (e in ScoreFloor(nm, ranked, buckets, threshold) <==>
                || e == ranked[0] || (e.score >= if threshold <= 0.0 then 0.02 else threshold)
                || ShowsFirst(nm, e, buckets))
  {
    var s := Scored(sg, Fuse(nm, Hits(buckets)));
    var e, ranked := s[i], Ranked(nm, sg, buckets);
    RankedFacts(nm, sg, buckets);
    SortDescMembers(s, ScoreOf());
    assert e in ranked;
    var k :| 0 <= k < |ranked| && ranked[k] == e;
    var at := AcademicPipeline(nm, sg, buckets, threshold, 0);
    SeparateKeysDistinct(nm, ranked);
    PickedValue(ScoreFloor(nm, ranked, buckets, threshold), ranked, at, k);
  }

  lemma PickedValue(s: seq<SearchResult>, t: seq<SearchResult>, at: seq<int>, k: nat)
    requires PicksFrom(s, t, at) && k < |t| && NoDuplicates(t)
    ensures t[k] in s <==> k in at
  {
    if t[k] in s {
      var j :| 0 <= j < |s| && s[j] == t[k];
      assert t[at[j]] == t[k];
    }
    if k in at {
      var j :| 0 <= j < |at| && at[j] == k;
      assert s[j] == t[k];
    }
  }

  lemma {:induction false} BucketHitAt(b: ScoreBucket, n: nat, i: nat)
    requires i < n <= |b.results|
    ensures |BucketHits(b, n)| == n && BucketHits(b, n)[i] == HitAt(b, i)
  {
    if i < n - 1 {
      BucketHitAt(b, n - 1, i);
    } else if n > 1 {
      BucketHitAt(b, n - 1, 0);
    }
  }

  /** Where the first hit of bucket b stands among all hits. */
  lemma {:induction false} HitsSplit(buckets: seq<ScoreBucket>, b: nat)
    requires b < |buckets| && buckets[b].results != []
    ensures var hits, k := Hits(buckets), |Hits(buckets[..b])|;
            k < |hits| && hits[..k] == Hits(buckets[..b]) && hits[k] == HitAt(buckets[b], 0)
  {
    var n := |buckets| - 1;
    BucketHitAt(buckets[b], |buckets[b].results|, 0);
    if b < n {
      HitsSplit(buckets[..n], b);
      assert buckets[..n][..b] == buckets[..b];
    }
  }

  lemma {:induction false} FuseGrows(nm: Normalizer, hits: seq<Hit>, k: nat)
    requires k <= |hits|
    ensures |Fuse(nm, hits[..k]).aggs| <= |Fuse(nm, hits).aggs|
  {
    if k == |hits| {
      assert hits[..k] == hits;
    } else {
      var n := |hits| - 1;
      FuseGrows(nm, hits[..n], k);
      assert hits[..n][..k] == hits[..k];
    }
  }

  /** A hit with a key is owned by an entry that stays. */
  lemma OwnerStays(nm: Normalizer, hits: seq<Hit>, k: nat)
    requires nm.Valid() && k < |hits| && Keyed(nm, hits[k])
    ensures Locate(nm, Fuse(nm, hits[..k]), hits[k].result) < |Fuse(nm, hits).aggs|
  {
    assert hits[..k + 1] == hits[..k] + [hits[k]];
    FuseSnoc(nm, hits[..k], hits[k]);
    FuseIndexed(nm, hits[..k]);
    FuseGrows(nm, hits, k + 1);
  }

  /** The documented promise for bucket b: its first result was taken in, and its entry is in the
      floored list. */
  ghost predicate FirstKept(nm: Normalizer, sg: Signals, buckets: seq<ScoreBucket>, threshold: real, b: nat)
    requires b < |buckets| && buckets[b].results != []
  {
    var t, o := Fuse(nm, Hits(buckets)), FirstOwner(nm, buckets, b);
    && Keyed(nm, HitAt(buckets[b], 0)) && o < |t.aggs|
    && ScoredEntry(sg, t.aggs[o]) in ScoreFloor(nm, Ranked(nm, sg, buckets), buckets, threshold)
  }

  /** An engine's first result is kept exactly when it has a key, and the entry that took it in is the
      best, reaches the threshold, or itself shows a key of some engine's first result. */
  lemma FirstKeptIff(nm: Normalizer, sg: Signals, buckets: seq<ScoreBucket>, threshold: real, b: nat)
    requires nm.Valid() && b < |buckets| && buckets[b].results != []
    ensures var t, o, ranked := Fuse(nm, Hits(buckets)), FirstOwner(nm, buckets, b), Ranked(nm, sg, buckets);
            && (Keyed(nm, HitAt(buckets[b], 0)) ==> o < |t.aggs| && ranked != [])
            && (FirstKept(nm, sg, buckets, threshold, b) <==>
                  && Keyed(nm, HitAt(buckets[b], 0))
                  && var e := ScoredEntry(sg, t.aggs[o]);
                     || e == ranked[0] || (e.score >= if threshold <= 0.0 then 0.02 else threshold)
                     || ShowsFirst(nm, e, buckets))
  {
    hide Fuse, Ranked, ScoreFloor, ShowsFirst, ScoredEntry, Locate;
    if Keyed(nm, HitAt(buckets[b], 0)) {
      HitsSplit(buckets, b);
      OwnerStays(nm, Hits(buckets), |Hits(buckets[..b])|);
      SurvivesIff(nm, sg, buckets, threshold, FirstOwner(nm, buckets, b));
    }
  }

  const PLAIN: SearchResult := SearchResult("", "", "", "", 0.0, "", [], "", "", "", "", 0, "")

  function SampleBuckets(): seq<ScoreBucket> {
    [ScoreBucket("a", 1.0, [PLAIN.(doi := "x", journal := "Nature"), PLAIN.(doi := "d", url := "p"),
                            PLAIN.(doi := "d", url := "q")]),
     ScoreBucket("b", 1.0, [PLAIN.(url := "q")])]
  }

  /** Both key normalisers leave the sample's short keys as they are. */
  function SampleNormalizer(): Normalizer {
    Normalizer((s: string) => s, (s: string) => s)
  }

  /** The signals have the source's values on what the sample contains: no citations, no date, and
      a journal that is either blank or worth 0.08. */
  predicate SourceSignals(sg: Signals) {
    sg.cite(0) == 1.0 && sg.journal("Nature") == 0.08 && sg.journal("") == 0.0 && sg.recency("") == 1.0
  }

  function SampleHit(k: nat): Hit
    requires k < 4
  {
    if k < 3 then HitAt(SampleBuckets()[0], k) else HitAt(SampleBuckets()[1], 0)
  }

  lemma TwoBuckets(a: ScoreBucket, b: ScoreBucket)
    requires |a.results| == 3 && |b.results| == 1
    ensures Hits([a]) == [HitAt(a, 0), HitAt(a, 1), HitAt(a, 2)]
    ensures Hits([a, b]) == [HitAt(a, 0), HitAt(a, 1), HitAt(a, 2), HitAt(b, 0)]
  {
    assert BucketHits(a, 1) == [HitAt(a, 0)];
    assert BucketHits(a, 2) == [HitAt(a, 0), HitAt(a, 1)];
    assert BucketHits(a, 3) == BucketHits(a, 2) + [HitAt(a, 2)];
    assert BucketHits(b, 1) == [HitAt(b, 0)];
    hide BucketHits;
    assert [a][..0] == [] && [a, b][..1] == [a];
    assert Hits([a]) == Hits([]) + BucketHits(a, 3);
    assert Hits([a, b]) == Hits([a]) + BucketHits(b, 1);
  }

  lemma SampleHits()
    ensures var bs := SampleBuckets();
            && Hits(bs[..1]) == [SampleHit(0), SampleHit(1), SampleHit(2)]
            && Hits(bs) == [SampleHit(0), SampleHit(1), SampleHit(2), SampleHit(3)]
  {
    hide Hits;
    var bs := SampleBuckets();
    TwoBuckets(bs[0], bs[1]);
    assert bs[..1] == [bs[0]] && bs == [bs[0], bs[1]];
  }

  /** A hit that starts a new entry, and one that joins an entry and can improve nothing in it. */
  lemma NewEntry(nm: Normalizer, t: Table, h: Hit)
    requires Keyed(nm, h) && Locate(nm, t, h.result) == |t.aggs|
    ensures AddHit(nm, t, h).aggs == t.aggs + [Agg(h.result, Share(h.weight, h.rank), [h.engine])]
  {
    assert MergeMetadata(h.result, h.result) == h.result;
    assert [] + [h.engine] == [h.engine];
  }

  /** The table after the first two sample hits. */
  lemma SampleTwo()
    ensures var t := AddHit(SampleNormalizer(), AddHit(SampleNormalizer(), EMPTY, SampleHit(0)), SampleHit(1));
            t == Table([SAMPLE_FIRST, Agg(SAMPLE_SECOND.res, 1.0 / 61.0, ["a"])],
                       map["x" := 0, "d" := 1], map["p" := 1])
  {
    var nm := SampleNormalizer();
    var t1 := AddHit(nm, EMPTY, SampleHit(0));
    NewEntry(nm, EMPTY, SampleHit(0));
    assert t1 == Table([SAMPLE_FIRST], map["x" := 0], map[]);
    NewEntry(nm, t1, SampleHit(1));
  }

  /** The other two sample hits join the second entry. */
  lemma SampleFour(t: Table)
    requires t == Table([SAMPLE_FIRST, Agg(SAMPLE_SECOND.res, 1.0 / 61.0, ["a"])],
                        map["x" := 0, "d" := 1], map["p" := 1])
    ensures Locate(SampleNormalizer(), AddHit(SampleNormalizer(), t, SampleHit(2)), SampleHit(3).result) == 1
    ensures AddHit(SampleNormalizer(), AddHit(SampleNormalizer(), t, SampleHit(2)), SampleHit(3)).aggs
            == [SAMPLE_FIRST, SAMPLE_SECOND]
  {
    var nm := SampleNormalizer();
    var t3 := AddHit(nm, t, SampleHit(2));
    assert t3.aggs[1] == Agg(SAMPLE_SECOND.res, 1.0 / 61.0 + 1.0 / 62.0, ["a"]);
    assert t3.byUrl == map["p" := 1, "q" := 1];
    var t4 := AddHit(nm, t3, SampleHit(3));
    assert "a"[0] != "b"[0] && t4.aggs[1].engineOrder == ["a"] + ["b"] == ["a", "b"];
    assert t4.aggs[1].res == SAMPLE_SECOND.res && t4.aggs[1].rrf == SAMPLE_SECOND.rrf;
    assert t4.aggs == t.aggs[1 := t4.aggs[1]];
  }

  lemma FuseFour(nm: Normalizer, a: Hit, b: Hit, c: Hit, d: Hit)
    ensures Fuse(nm, [a, b, c]) == AddHit(nm, AddHit(nm, AddHit(nm, EMPTY, a), b), c)
    ensures Fuse(nm, [a, b, c, d]) == AddHit(nm, AddHit(nm, AddHit(nm, AddHit(nm, EMPTY, a), b), c), d)
  {
    assert [] + [a] == [a] && [a] + [b] == [a, b] && [a, b] + [c] == [a, b, c] && [a, b, c] + [d] == [a, b, c, d];
    assert Fuse(nm, []) == EMPTY;
    hide Fuse, AddHit;
    FuseSnoc(nm, [], a);
    FuseSnoc(nm, [a], b);
    FuseSnoc(nm, [a, b], c);
    FuseSnoc(nm, [a, b, c], d);
  }

  lemma SampleTable()
    ensures Fuse(SampleNormalizer(), Hits(SampleBuckets())).aggs == [SAMPLE_FIRST, SAMPLE_SECOND]
    ensures FirstOwner(SampleNormalizer(), SampleBuckets(), 1) == 1
  {
    var nm := SampleNormalizer();
    SampleHits();
    assert SampleBuckets()[1].results[0] == SampleHit(3).result;
    hide AddHit, Locate, Fuse, SampleHit;
    FuseFour(nm, SampleHit(0), SampleHit(1), SampleHit(2), SampleHit(3));
    SampleTwo();
    SampleFour(AddHit(nm, AddHit(nm, EMPTY, SampleHit(0)), SampleHit(1)));
  }

  /** The first sample entry outranks the second, which shows no first result's key. */
  lemma SampleRanking(sg: Signals)
    requires SourceSignals(sg)
    ensures var nm, bs := SampleNormalizer(), SampleBuckets();
            var e := ScoredEntry(sg, SAMPLE_SECOND);
            e.score < 0.05 < ScoredEntry(sg, SAMPLE_FIRST).score && !ShowsFirst(nm, e, bs)
  {
    hide ShowsFirst;
    var nm, bs := SampleNormalizer(), SampleBuckets();
    var e := ScoredEntry(sg, SAMPLE_SECOND);
    forall key | key in ResultKeys(nm, e) ensures key !in TopKeys(nm, bs) {
      PrefixedKeys("d", "x", "p", "q");
      assert ResultKeys(nm, e) == ["doi:" + "d", "url:" + "p"];
      assert ResultKeys(nm, bs[0].results[0]) == ["doi:" + "x"] && ResultKeys(nm, bs[1].results[0]) == ["url:" + "q"];
      assert "d"[0] != "x"[0] && "p"[0] != "q"[0];
    }
    TouchesTop(nm, e, bs);
  }

  const SAMPLE_FIRST: Agg := Agg(PLAIN.(doi := "x", journal := "Nature"), 1.0 / 60.0, ["a"])
  const SAMPLE_SECOND: Agg := Agg(PLAIN.(doi := "d", url := "p"), 1.0 / 61.0 + 1.0 / 62.0 + 1.0 / 60.0, ["a", "b"])

  lemma BestScore(nm: Normalizer, sg: Signals, buckets: seq<ScoreBucket>, i: nat)
    requires nm.Valid() && i < |Fuse(nm, Hits(buckets)).aggs|
    ensures var ranked := Ranked(nm, sg, buckets);
            ranked != [] && ranked[0].score >= ScoredEntry(sg, Fuse(nm, Hits(buckets)).aggs[i]).score
  {
    var s, ranked := Scored(sg, Fuse(nm, Hits(buckets))), Ranked(nm, sg, buckets);
    RankedFacts(nm, sg, buckets);
    SortDescMembers(s, ScoreOf());
    assert s[i] in ranked;
    var k :| 0 <= k < |ranked| && ranked[k] == s[i];
    assert ScoreOf()(ranked[0]) >= ScoreOf()(ranked[k]);
  }

  /** The promise fails for the second sample engine, under the default threshold of 0.05 and the
      source's own scores: its only result went, by URL, into an entry that shows another URL and a
      DOI no engine ranks first, and that scores 1/60 + 1/61 + 1/62 < 0.05. */
  lemma RescueFails(sg: Signals)
    requires SourceSignals(sg)
    ensures SampleNormalizer().Valid()
    ensures !FirstKept(SampleNormalizer(), sg, SampleBuckets(), 0.05, 1)
  {
    var nm, bs := SampleNormalizer(), SampleBuckets();
    SampleTable();
    SampleRanking(sg);
    hide SampleBuckets, Fuse, Ranked, ScoreFloor, ShowsFirst, ScoredEntry;
    SurvivesIff(nm, sg, bs, 0.05, 1);
    BestScore(nm, sg, bs, 0);
  }
}
