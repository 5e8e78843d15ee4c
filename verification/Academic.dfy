/** The academic pipeline over shared, mutable entries: fuse, score, sort, floor, cap. */
module Academic {
  import opened Core
  import opened Floor
  import opened Fusion
  import opened Seqs
  import opened Sorting
  import opened UrlAggs

  const PDF_BOOST: real := 0.03

  /** The scoring signals: citation factor, journal boost, recency factor of the query. */
  datatype Signals = Signals(cite: int -> real, journal: string -> real, recency: string -> real)

  function FinalScore(sg: Signals, a: Agg): real {
    (a.rrf * sg.cite(a.res.citedBy) + sg.journal(a.res.journal) + if a.res.pdfUrl != "" then PDF_BOOST else 0.0)
    * sg.recency(a.res.publishDate)
  }

  function ScoredEntry(sg: Signals, a: Agg): SearchResult {
    a.res.(score := FinalScore(sg, a), engines := a.engineOrder)
  }

  function Scored(sg: Signals, t: Table): seq<SearchResult> {
    seq(|t.aggs|, i requires 0 <= i < |t.aggs| => ScoredEntry(sg, t.aggs[i]))
  }

  function Ranked(nm: Normalizer, sg: Signals, buckets: seq<ScoreBucket>): seq<SearchResult> {
    SortDesc(Scored(sg, Fuse(nm, Hits(buckets))), ScoreOf())
  }

  /** The heap agrees with the table: one distinct object per entry, and an index that leads to
      the object at the table's position. */
  ghost predicate Mirrors(order: seq<UrlAgg>, byDoi: map<string, UrlAgg>, byUrl: map<string, UrlAgg>, t: Table)
    reads order
  {
    && |order| == |t.aggs| && NoDuplicates(order)
    && (forall i :: 0 <= i < |order| ==> order[i].Valid() && order[i].View() == t.aggs[i])
    && IndexAgrees(order, byDoi, t.byDoi) && IndexAgrees(order, byUrl, t.byUrl)
  }

  ghost predicate IndexAgrees(order: seq<UrlAgg>, index: map<string, UrlAgg>, positions: map<string, nat>) {
    && index.Keys == positions.Keys
    && forall k :: k in index ==> positions[k] < |order| && index[k] == order[positions[k]]
  }

  ghost predicate Grown(old': seq<UrlAgg>, now: seq<UrlAgg>) {
    |old'| <= |now| && forall k :: 0 <= k < |old'| ==> now[k] == old'[k]
  }

  /** Registers an entry under a key, if there is one. */
  function Point(index: map<string, UrlAgg>, key: string, a: UrlAgg): map<string, UrlAgg> {
    if key != "" then index[key := a] else index
  }

  lemma PointAgrees(order: seq<UrlAgg>, order': seq<UrlAgg>, index: map<string, UrlAgg>, positions: map<string, nat>,
                    key: string, i: nat)
    requires IndexAgrees(order, index, positions) && Grown(order, order') && i < |order'|
    ensures IndexAgrees(order', Point(index, key, order'[i]), Put(positions, key, i))
  {}

  /** The entry as it is before a hit is merged into it. */
  function EntryBefore(t: Table, r: SearchResult, i: nat): Agg {
    if i < |t.aggs| then t.aggs[i] else Agg(r, 0.0, [])
  }

  /** The entry a result belongs to, appended to the order when it is new. */
  method FindEntry(nm: Normalizer, order: seq<UrlAgg>, byDoi: map<string, UrlAgg>, byUrl: map<string, UrlAgg>,
                   r: SearchResult, ghost t: Table)
    returns (a: UrlAgg, order': seq<UrlAgg>)
    requires Mirrors(order, byDoi, byUrl, t) && InRange(t)
    ensures var i := Locate(nm, t, r);
            && |order'| == Max(|order|, i + 1) && i < |order'| && order'[i] == a && NoDuplicates(order')
            && Grown(order, order') && (i < |order| || fresh(a))
            && a.Valid() && a.View() == EntryBefore(t, r, i)
            && forall k :: 0 <= k < |order'| && k != i ==> order'[k].Valid() && order'[k].View() == t.aggs[k]
  {
    var doiKey, urlKey := nm.DoiKey(r), nm.UrlKey(r);
    order' := order;
    if doiKey in byDoi {
      a := byDoi[doiKey];
    } else if urlKey in byUrl {
      a := byUrl[urlKey];
    } else {
      a := new UrlAgg(r);
      order' := order + [a];
    }
  }

  method AddResult(nm: Normalizer, order: seq<UrlAgg>, byDoi: map<string, UrlAgg>, byUrl: map<string, UrlAgg>, h: Hit,
                   ghost t: Table)
    returns (order': seq<UrlAgg>, byDoi': map<string, UrlAgg>, byUrl': map<string, UrlAgg>)
    requires Mirrors(order, byDoi, byUrl, t) && InRange(t)
    modifies order
    ensures Mirrors(order', byDoi', byUrl', AddHit(nm, t, h))
    ensures Grown(order, order') && forall k :: |order| <= k < |order'| ==> fresh(order'[k])
  {
    if nm.DoiKey(h.result) == "" && nm.UrlKey(h.result) == "" {
      return order, byDoi, byUrl;
    }
    order', byDoi', byUrl' := AddKeyed(nm, order, byDoi, byUrl, h, t);
  }

  method AddKeyed(nm: Normalizer, order: seq<UrlAgg>, byDoi: map<string, UrlAgg>, byUrl: map<string, UrlAgg>, h: Hit,
                  ghost t: Table)
    returns (order': seq<UrlAgg>, byDoi': map<string, UrlAgg>, byUrl': map<string, UrlAgg>)
    requires Mirrors(order, byDoi, byUrl, t) && InRange(t) && Keyed(nm, h)
    modifies order
    ensures Mirrors(order', byDoi', byUrl', AddHit(nm, t, h))
    ensures Grown(order, order') && forall k :: |order| <= k < |order'| ==> fresh(order'[k])
  {
    ghost var i, t' := Locate(nm, t, h.result), AddHit(nm, t, h);
    AddHitParts(nm, t, h);
    hide AddHit, Absorb, Locate, InRange, Keyed, EntryBefore, NoDuplicates, IndexAgrees, Point, Put;
    var a;
    a, order' := FindEntry(nm, order, byDoi, byUrl, h.result, t);
    PointAgrees(order, order', byDoi, t.byDoi, nm.DoiKey(h.result), i);
    PointAgrees(order, order', byUrl, t.byUrl, nm.UrlKey(h.result), i);
    byDoi', byUrl' := Point(byDoi, nm.DoiKey(h.result), a), Point(byUrl, nm.UrlKey(h.result), a);
    MergeAt(order', i, a, h, t'.aggs);
  }

  /** The parts of the table after a keyed hit. */
  lemma AddHitParts(nm: Normalizer, t: Table, h: Hit)
    requires Keyed(nm, h) && InRange(t)
    ensures var i, t' := Locate(nm, t, h.result), AddHit(nm, t, h);
            && i <= |t.aggs| && |t'.aggs| == Max(|t.aggs|, i + 1)
            && t'.aggs[i] == Absorb(EntryBefore(t, h.result, i), h)
            && (forall k :: 0 <= k < |t.aggs| && k != i ==> t'.aggs[k] == t.aggs[k])
            && t'.byDoi == Put(t.byDoi, nm.DoiKey(h.result), i) && t'.byUrl == Put(t.byUrl, nm.UrlKey(h.result), i)
  {}

  /** Merging into one entry of a list of distinct ones changes that entry only. */
  method MergeAt(order: seq<UrlAgg>, ghost i: nat, a: UrlAgg, h: Hit, ghost aggs: seq<Agg>)
    requires NoDuplicates(order) && |order| == |aggs| && i < |order| && order[i] == a
    requires a.Valid() && Absorb(a.View(), h) == aggs[i]
    requires forall k :: 0 <= k < |order| && k != i ==> order[k].Valid() && order[k].View() == aggs[k]
    modifies a
    ensures forall k :: 0 <= k < |order| ==> order[k].Valid() && order[k].View() == aggs[k]
  {
    hide Absorb;
    assert forall k :: 0 <= k < |order| && k != i ==> order[k] != a;
    a.Merge(h);
  }

  /** The heap after the given hits. */
  ghost predicate Tracks(nm: Normalizer, order: seq<UrlAgg>, byDoi: map<string, UrlAgg>, byUrl: map<string, UrlAgg>,
                         hits: seq<Hit>)
    reads order
  {
    Mirrors(order, byDoi, byUrl, Fuse(nm, hits))
  }

  method AddTracked(nm: Normalizer, order: seq<UrlAgg>, byDoi: map<string, UrlAgg>, byUrl: map<string, UrlAgg>, h: Hit,
                    ghost hits: seq<Hit>)
    returns (order': seq<UrlAgg>, byDoi': map<string, UrlAgg>, byUrl': map<string, UrlAgg>)
    requires nm.Valid() && Tracks(nm, order, byDoi, byUrl, hits)
    modifies order
    ensures Tracks(nm, order', byDoi', byUrl', hits + [h])
    ensures Grown(order, order') && forall k :: |order| <= k < |order'| ==> fresh(order'[k])
  {
    hide Mirrors, Fuse, Indexed, InRange;
    FuseIndexed(nm, hits);
    assert InRange(Fuse(nm, hits)) by { IndexedInRange(nm, Fuse(nm, hits)); }
    FuseSnoc(nm, hits, h);
    order', byDoi', byUrl' := AddResult(nm, order, byDoi, byUrl, h, Fuse(nm, hits));
  }

  lemma IndexedInRange(nm: Normalizer, t: Table)
    requires Indexed(nm, t)
    ensures InRange(t)
  {}

  method FuseBucket(nm: Normalizer, b: ScoreBucket, order0: seq<UrlAgg>, byDoi0: map<string, UrlAgg>,
                    byUrl0: map<string, UrlAgg>, ghost before: seq<Hit>)
    returns (order: seq<UrlAgg>, byDoi: map<string, UrlAgg>, byUrl: map<string, UrlAgg>)
    requires nm.Valid() && Tracks(nm, order0, byDoi0, byUrl0, before)
    modifies order0
    ensures Tracks(nm, order, byDoi, byUrl, before + BucketHits(b, |b.results|))
    ensures Grown(order0, order) && forall k :: |order0| <= k < |order| ==> fresh(order[k])
  {
    hide Tracks, Fuse, BucketHits;
    order, byDoi, byUrl := order0, byDoi0, byUrl0;
    var w := EffectiveWeight(b.weight);
    ghost var hits := before;
    assert hits == before + BucketHits(b, 0) by { NoHits(b); }
    for rank := 0 to |b.results|
      invariant hits == before + BucketHits(b, rank) && Tracks(nm, order, byDoi, byUrl, hits)
      invariant Grown(order0, order) && forall k :: |order0| <= k < |order| ==> fresh(order[k])
    {
      var h := Hit(b.name, w, rank, b.results[rank]);
      order, byDoi, byUrl := AddTracked(nm, order, byDoi, byUrl, h, hits);
      NextHit(b, rank);
      hits := hits + [h];
    }
  }

  lemma NoHits(b: ScoreBucket)
    ensures BucketHits(b, 0) == []
  {}

  lemma NextHit(b: ScoreBucket, rank: nat)
    requires rank < |b.results|
    ensures BucketHits(b, rank + 1) == BucketHits(b, rank) +
            [Hit(b.name, EffectiveWeight(b.weight), rank, b.results[rank])]
  {}

  /** Runs both loops; the entries end as the table says. */
  method FuseBuckets(nm: Normalizer, buckets: seq<ScoreBucket>) returns (order: seq<UrlAgg>)
    requires nm.Valid()
    ensures forall k :: 0 <= k < |order| ==> fresh(order[k])
    ensures NoDuplicates(order) && |order| == |Fuse(nm, Hits(buckets)).aggs|
    ensures forall i :: 0 <= i < |order| ==> order[i].Valid() && order[i].View() == Fuse(nm, Hits(buckets)).aggs[i]
  {
    order := [];
    var byDoi: map<string, UrlAgg>, byUrl: map<string, UrlAgg> := map[], map[];
    for i := 0 to |buckets|
      invariant Tracks(nm, order, byDoi, byUrl, Hits(buckets[..i]))
      invariant forall k :: 0 <= k < |order| ==> fresh(order[k])
    {
      ghost var order0 := order;
      order, byDoi, byUrl := FuseBucket(nm, buckets[i], order, byDoi, byUrl, Hits(buckets[..i]));
      assert buckets[..i + 1][..i] == buckets[..i];
      forall k | 0 <= k < |order0| ensures order[k] == order0[k] {}
    }
    assert buckets[..|buckets|] == buckets;
  }

  method ScoreEntries(sg: Signals, order: seq<UrlAgg>, ghost t: Table) returns (scored: seq<SearchResult>)
    requires NoDuplicates(order) && |order| == |t.aggs|
    requires forall i :: 0 <= i < |order| ==> order[i].View() == t.aggs[i]
    modifies order
    ensures scored == Scored(sg, t)
  {
    scored := [];
    for i := 0 to |order|
      invariant forall k :: i <= k < |order| ==> order[k].View() == t.aggs[k]
      invariant |scored| == i && forall k :: 0 <= k < i ==> scored[k] == ScoredEntry(sg, t.aggs[k])
    {
      var a := order[i];
      var score := a.rrf * sg.cite(a.res.citedBy);
      score := score + sg.journal(a.res.journal);
      if a.res.pdfUrl != "" {
        score := score + PDF_BOOST;
      }
      score := score * sg.recency(a.res.publishDate);
      assert score == FinalScore(sg, t.aggs[i]);
      a.res := a.res.(score := score, engines := a.engineOrder);
      scored := scored + [a.res];
    }
  }

  // ---- what comes out ----

  lemma RankedFacts(nm: Normalizer, sg: Signals, buckets: seq<ScoreBucket>)
    requires nm.Valid()
    ensures SortedDesc(Ranked(nm, sg, buckets), ScoreOf()) && SeparateKeys(nm, Ranked(nm, sg, buckets))
    ensures multiset(Ranked(nm, sg, buckets)) == multiset(Scored(sg, Fuse(nm, Hits(buckets))))
  {
    var t := Fuse(nm, Hits(buckets));
    var s, e := Scored(sg, t), Entries(t);
    FusedKeysDisjoint(nm, Hits(buckets));
    forall i | 0 <= i < |s| ensures ResultKeys(nm, s[i]) == ResultKeys(nm, e[i]) {}
    forall i, j | 0 <= i < |s| && 0 <= j < |s| && i != j ensures !SharesKey(nm, s[i], s[j]) {
      assert !SharesKey(nm, e[i], e[j]);
    }
    SortDescCorrect(s, ScoreOf());
    SeparateKeysPermute(nm, s, SortDesc(s, ScoreOf()));
  }

  lemma PickedSeparate(nm: Normalizer, s: seq<SearchResult>, t: seq<SearchResult>, at: seq<int>)
    requires PicksFrom(s, t, at) && SeparateKeys(nm, t)
    ensures SeparateKeys(nm, s)
  {
    hide SharesKey, ResultKeys;
    forall i, j | 0 <= i < |s| && 0 <= j < |s| && i != j ensures !SharesKey(nm, s[i], s[j]) {
      assert !SharesKey(nm, t[at[i]], t[at[j]]);
    }
  }

  /** For any buckets the pipeline is rank, filter in place, cap: the output is a prefix of exactly
      the ranked entries that are first, reach the threshold, or share a key with some engine's
      first result, in ranked order, with separate keys, led by the best entry. */
  lemma AcademicPipeline(nm: Normalizer, sg: Signals, buckets: seq<ScoreBucket>, threshold: real, maxSize: int)
    returns (at: seq<int>)
    requires nm.Valid()
    ensures var ranked := Ranked(nm, sg, buckets);
            var floored := ScoreFloor(nm, ranked, buckets, threshold);
            && PicksFrom(floored, ranked, at)
            && (forall i: nat :: i < |ranked| ==>
                  (i in at <==>
                     || i == 0 || ranked[i].score >= (if threshold <= 0.0 then 0.02 else threshold)
                     || ShowsFirst(nm, ranked[i], buckets)))
            && SortedDesc(floored, ScoreOf()) && SeparateKeys(nm, floored)
            && (ranked != [] ==> Cap(floored, maxSize) != [] && Cap(floored, maxSize)[0] == ranked[0])
  {
    hide Ranked, ScoreFloor, TopKeys, Touches, SharesKey, ResultKeys, ShowsFirst, Kept, SortedDesc, SeparateKeys;
    var ranked := Ranked(nm, sg, buckets);
    var top, limit := TopKeys(nm, buckets), Threshold(threshold);
    RankedFacts(nm, sg, buckets);
    FloorIsFilter(nm, ranked, buckets, threshold);
    at := KeptInOrder(nm, ranked, top, limit, |ranked|);
    var floored := Kept(nm, ranked, top, limit, |ranked|);
    forall i: nat | i < |ranked|
      ensures Keeps(nm, ranked, top, limit, i)
        <==> i == 0 || ranked[i].score >= limit || ShowsFirst(nm, ranked[i], buckets)
    {
      TouchesTop(nm, ranked[i], buckets);
    }
    PickedSorted(floored, ranked, at);
    PickedSeparate(nm, floored, ranked, at);
    if ranked != [] {
      assert Keeps(nm, ranked, top, limit, 0) && 0 in at;
      assert at[0] == 0;
    }
  }

  // ---- what the score means ----

  /** r shows the merge of the hits m, with its engines, and its score is the sum of the hits' rank
      shares times the citation factor, plus the journal's boost, plus 0.03 for a PDF link, all times
      the recency factor. */
  ghost predicate ScoredFrom(sg: Signals, m: seq<Hit>, r: SearchResult) {
    && m != [] && r == Gather(m).res.(score := r.score, engines := Gather(m).engineOrder)
    && r.score == (SumShares(m) * sg.cite(r.citedBy) + sg.journal(r.journal) + (if r.pdfUrl == "" then 0.0 else 0.03))
                  * sg.recency(r.publishDate)
  }

  /** r is some entry, scored from the hits it owns. */
  ghost predicate FromHits(nm: Normalizer, sg: Signals, buckets: seq<ScoreBucket>, r: SearchResult) {
    exists i: nat :: ScoredFrom(sg, Members(nm, Hits(buckets), i), r)
  }

  lemma EntryScoredFrom(nm: Normalizer, sg: Signals, hits: seq<Hit>, i: nat)
    requires nm.Valid() && i < |Fuse(nm, hits).aggs|
    ensures ScoredFrom(sg, Members(nm, hits, i), ScoredEntry(sg, Fuse(nm, hits).aggs[i]))
  {
    hide Fuse, Members, Gather, SumShares;
    EntriesGather(nm, hits, i);
    GatherCounts(Members(nm, hits, i));
  }

  /** The ranking consists of the entries, scored from the hits they own. */
  lemma RankedFromHits(nm: Normalizer, sg: Signals, buckets: seq<ScoreBucket>, r: SearchResult)
    requires nm.Valid()
    ensures r in Ranked(nm, sg, buckets) ==> FromHits(nm, sg, buckets, r)
  {
    var hits := Hits(buckets);
    var s := Scored(sg, Fuse(nm, hits));
    SortDescMembers(s, ScoreOf());
    hide Fuse, Members, ScoredFrom, ScoredEntry;
    if r in Ranked(nm, sg, buckets) {
      var i :| 0 <= i < |s| && s[i] == r;
      EntryScoredFrom(nm, sg, hits, i);
    }
  }

  /** r is what the ranking shows of entry i, m the hits that entry owns. */
  ghost predicate Shows(nm: Normalizer, sg: Signals, buckets: seq<ScoreBucket>, i: nat, m: seq<Hit>, r: SearchResult) {
    && m == Members(nm, Hits(buckets), i) && i < |Fuse(nm, Hits(buckets)).aggs|
    && r == ScoredEntry(sg, Fuse(nm, Hits(buckets)).aggs[i])
  }

  /** Two entries whose rank shares, citations, journals and PDF links count alike. */
  ghost predicate AlikeButDate(m: seq<Hit>, a: SearchResult, n: seq<Hit>, b: SearchResult) {
    && SumShares(m) == SumShares(n) && a.citedBy == b.citedBy && a.journal == b.journal
    && (a.pdfUrl == "" <==> b.pdfUrl == "")
  }

  /** Wherever both are in the ranking, a comes before b. */
  ghost predicate RanksBefore(ranked: seq<SearchResult>, a: SearchResult, b: SearchResult) {
    forall p, q :: 0 <= p < |ranked| && 0 <= q < |ranked| && ranked[p] == a && ranked[q] == b ==> p < q
  }

  lemma RankedByScore(ranked: seq<SearchResult>, a: SearchResult, b: SearchResult)
    requires SortedDesc(ranked, ScoreOf()) && a.score > b.score
    ensures RanksBefore(ranked, a, b)
  {
    forall p, q | 0 <= p < |ranked| && 0 <= q < |ranked| && ranked[p] == a && ranked[q] == b ensures p < q {
      assert ScoreOf()(a) > ScoreOf()(b);
    }
  }

  lemma ShownScore(nm: Normalizer, sg: Signals, buckets: seq<ScoreBucket>, i: nat, m: seq<Hit>, r: SearchResult)
    requires nm.Valid() && Shows(nm, sg, buckets, i, m, r)
    ensures r.score == (SumShares(m) * sg.cite(r.citedBy) + sg.journal(r.journal)
                        + (if r.pdfUrl == "" then 0.0 else 0.03))
                       * sg.recency(r.publishDate)
  {
    hide Fuse, Members, Gather, SumShares, FinalScore;
    EntryScoredFrom(nm, sg, Hits(buckets), i);
  }

  /** Of two entries alike but for the date the scores stand in the ratio of the recency factors, and
      the fresher one, if its factor is greater and the scores are positive, is ranked first. */
  lemma DateEffect(nm: Normalizer, sg: Signals, buckets: seq<ScoreBucket>, i: nat, m: seq<Hit>, a: SearchResult,
                   j: nat, n: seq<Hit>, b: SearchResult)
    requires nm.Valid() && Shows(nm, sg, buckets, i, m, a) && Shows(nm, sg, buckets, j, n, b)
    requires AlikeButDate(m, a, n, b)
    ensures a.score * sg.recency(b.publishDate) == b.score * sg.recency(a.publishDate)
    ensures b.score > 0.0 && sg.recency(a.publishDate) > sg.recency(b.publishDate) > 0.0 ==>
              RanksBefore(Ranked(nm, sg, buckets), a, b)
  {
    hide Shows, SumShares, Ranked, RanksBefore;
    ShownScore(nm, sg, buckets, i, m, a);
    ShownScore(nm, sg, buckets, j, n, b);
    var base := SumShares(m) * sg.cite(a.citedBy) + sg.journal(a.journal) + if a.pdfUrl == "" then 0.0 else 0.03;
    Ratio(base, sg.recency(a.publishDate), sg.recency(b.publishDate), a.score, b.score);
    if b.score > 0.0 && sg.recency(a.publishDate) > sg.recency(b.publishDate) > 0.0 {
      RankedFacts(nm, sg, buckets);
      RankedByScore(Ranked(nm, sg, buckets), a, b);
    }
  }

  lemma Ratio(base: real, f: real, g: real, x: real, y: real)
    requires x == base * f && y == base * g
    ensures x * g == y * f
    ensures y > 0.0 && f > g > 0.0 ==> x > y
  {}

  ghost predicate AlikeButLink(a: SearchResult, b: SearchResult) {
    a.citedBy == b.citedBy && a.journal == b.journal && a.pdfUrl != "" && b.pdfUrl == ""
  }

  /** What the other signals add to the score of two entries of one date: the citation factor acts on
      the rank shares only, a journal adds its boost, a PDF link 0.03, each times the recency factor. */
  lemma SignalEffects(nm: Normalizer, sg: Signals, buckets: seq<ScoreBucket>, i: nat, m: seq<Hit>, a: SearchResult,
                      j: nat, n: seq<Hit>, b: SearchResult)
    requires nm.Valid() && Shows(nm, sg, buckets, i, m, a) && Shows(nm, sg, buckets, j, n, b)
    requires a.publishDate == b.publishDate
    ensures a.citedBy == b.citedBy && a.journal == b.journal && a.pdfUrl == b.pdfUrl ==>
              a.score - b.score == (SumShares(m) - SumShares(n)) * sg.cite(a.citedBy) * sg.recency(a.publishDate)
    ensures SumShares(m) == SumShares(n) && a.journal == b.journal && a.pdfUrl == b.pdfUrl ==>
              a.score - b.score == SumShares(m) * (sg.cite(a.citedBy) - sg.cite(b.citedBy)) * sg.recency(a.publishDate)
    ensures SumShares(m) == SumShares(n) && a.citedBy == b.citedBy && a.pdfUrl == b.pdfUrl ==>
              a.score - b.score == (sg.journal(a.journal) - sg.journal(b.journal)) * sg.recency(a.publishDate)
    ensures SumShares(m) == SumShares(n) && AlikeButLink(a, b) ==> a.score - b.score == 0.03 * sg.recency(a.publishDate)
  {
    hide Shows, SumShares;
    ShownScore(nm, sg, buckets, i, m, a);
    ShownScore(nm, sg, buckets, j, n, b);
    var s, t, c, d := SumShares(m), SumShares(n), sg.cite(a.citedBy), sg.cite(b.citedBy);
    var k, l, f := sg.journal(a.journal), sg.journal(b.journal), sg.recency(a.publishDate);
    var p, q := if a.pdfUrl == "" then 0.0 else 0.03, if b.pdfUrl == "" then 0.0 else 0.03;
    Differences(s, t, c, d, k, l, p, q, f, a.score, b.score);
  }

  lemma Differences(s: real, t: real, c: real, d: real, k: real, l: real, p: real, q: real, f: real, x: real, y: real)
    requires x == (s * c + k + p) * f && y == (t * d + l + q) * f
    ensures c == d && k == l && p == q ==> x - y == (s - t) * c * f
    ensures s == t && k == l && p == q ==> x - y == s * (c - d) * f
    ensures s == t && c == d && p == q ==> x - y == (k - l) * f
    ensures s == t && c == d && k == l ==> x - y == (p - q) * f
  {
    Spread(s * c, k, p, t * d, l, q, f);
    if c == d && k == l && p == q {
      assert (s - t) * c == s * c - t * d;
    }
    if s == t && k == l && p == q {
      assert s * (c - d) == s * c - t * d;
    }
  }

  lemma Spread(a: real, k: real, p: real, b: real, l: real, q: real, f: real)
    ensures (a + k + p) * f - (b + l + q) * f == (a - b) * f + (k - l) * f + (p - q) * f
  {}

  // ---- the whole method ----

  lemma OutFromHits(nm: Normalizer, sg: Signals, buckets: seq<ScoreBucket>, threshold: real, maxSize: int,
      r: SearchResult)
    requires nm.Valid() && r in Cap(ScoreFloor(nm, Ranked(nm, sg, buckets), buckets, threshold), maxSize)
    ensures FromHits(nm, sg, buckets, r)
  {
    hide Ranked, ScoreFloor, FromHits, SeparateKeys, ShowsFirst;
    var floored := ScoreFloor(nm, Ranked(nm, sg, buckets), buckets, threshold);
    var at := AcademicPipeline(nm, sg, buckets, threshold, maxSize);
    var k :| 0 <= k < |Cap(floored, maxSize)| && Cap(floored, maxSize)[k] == r;
    assert floored[k] == r;
    RankedFromHits(nm, sg, buckets, r);
  }

  /** The whole pipeline; what the loops leave in the heap is ranked, floored and capped. Every result
      is scored as its hits and the signals of its merged fields say. */
  method EnhanceAcademicResults(nm: Normalizer, sg: Signals, buckets: seq<ScoreBucket>, threshold: real, maxSize: int)
    returns (out: seq<SearchResult>)
    requires nm.Valid()
    ensures out == Cap(ScoreFloor(nm, Ranked(nm, sg, buckets), buckets, threshold), maxSize)
    ensures forall r :: r in out ==> FromHits(nm, sg, buckets, r)
  {
    hide ScoreFloor, FromHits, Scored, SortDesc;
    ghost var t := Fuse(nm, Hits(buckets));
    var order := FuseBuckets(nm, buckets);
    var scored := ScoreEntries(sg, order, t);
    assert Ranked(nm, sg, buckets) == SortDesc(Scored(sg, t), ScoreOf());
    scored := SortDesc(scored, ScoreOf());
    out := ApplyAcademicScoreFloor(nm, scored, buckets, threshold);
    if maxSize > 0 && |out| > maxSize {
      out := out[..maxSize];
    }
    forall r | r in out ensures FromHits(nm, sg, buckets, r) {
      OutFromHits(nm, sg, buckets, threshold, maxSize, r);
    }
  }
}
