/** The web pipeline: fuse by URL key, score, sort, floor, diversify, cap. */
module WebEnhance {
  import opened Core
  import opened Fusion
  import opened Mmr
  import opened Seqs
  import opened Sorting
  import opened Text
  import opened UrlAggs

  // ---- fusion by one key, stated per URL ----

  function HasUrl(nm: Normalizer, k: string): Hit -> bool {
    (h: Hit) => nm.UrlKey(h.result) == k
  }

  /** The non-blank URL keys in order of first appearance. */
  function KeyOrder(nm: Normalizer, hits: seq<Hit>): seq<string> {
    if hits == [] then []
    else
      var rest, k := KeyOrder(nm, hits[..|hits| - 1]), nm.UrlKey(hits[|hits| - 1].result);
      if k == "" || k in rest then rest else rest + [k]
  }

  function GatherText(members: seq<Hit>): Agg {
    if members == [] then Agg(SearchResult("", "", "", "", 0.0, "", [], "", "", "", "", 0, ""), 0.0, [])
    else
      var h := members[|members| - 1];
      AbsorbText(if |members| == 1 then Agg(h.result, 0.0, []) else GatherText(members[..|members| - 1]), h)
  }

  /** The entry of a URL is the merge of exactly the hits with that key. */
  function EntryOf(nm: Normalizer, hits: seq<Hit>, k: string): Agg {
    GatherText(Filter(hits, HasUrl(nm, k)))
  }

  lemma GatherTextSnoc(m: seq<Hit>, h: Hit)
    ensures GatherText(m + [h]) == AbsorbText(if m == [] then Agg(h.result, 0.0, []) else GatherText(m), h)
  {
    assert (m + [h])[..|m|] == m;
  }

  /** Position of the first hit with the key; |hits| if there is none. */
  function FirstAt(nm: Normalizer, hits: seq<Hit>, k: string): (i: nat)
    ensures i <= |hits| && (i < |hits| ==> nm.UrlKey(hits[i].result) == k)
    ensures forall j :: 0 <= j < i ==> nm.UrlKey(hits[j].result) != k
  {
    if hits == [] || nm.UrlKey(hits[0].result) == k then 0 else 1 + FirstAt(nm, hits[1..], k)
  }

  lemma FirstAtStays(nm: Normalizer, init: seq<Hit>, h: Hit, k: string)
    ensures FirstAt(nm, init, k) < |init| ==> FirstAt(nm, init + [h], k) == FirstAt(nm, init, k)
    ensures FirstAt(nm, init, k) == |init| ==> FirstAt(nm, init + [h], k) >= |init|
  {
    hide FirstAt;
    var hits, i, j := init + [h], FirstAt(nm, init, k), FirstAt(nm, init + [h], k);
    assert forall m :: 0 <= m < |init| ==> hits[m] == init[m];
    if i < |init| {
      assert nm.UrlKey(hits[i].result) == k;
    }
  }

  /** The keys come in the order of their first hits. */
  lemma {:induction false} KeyOrderFirst(nm: Normalizer, hits: seq<Hit>)
    ensures forall i :: 0 <= i < |KeyOrder(nm, hits)| ==> FirstAt(nm, hits, KeyOrder(nm, hits)[i]) < |hits|
    ensures forall i, j :: 0 <= i < j < |KeyOrder(nm, hits)| ==>
              FirstAt(nm, hits, KeyOrder(nm, hits)[i]) < FirstAt(nm, hits, KeyOrder(nm, hits)[j])
  {
    if hits != [] {
      var init, h := hits[..|hits| - 1], hits[|hits| - 1];
      KeyOrderFirst(nm, init);
      assert hits == init + [h];
      var rest, key := KeyOrder(nm, init), nm.UrlKey(h.result);
      assert KeyOrder(nm, hits) == if key == "" || key in rest then rest else rest + [key];
      hide FirstAt, KeyOrder;
      forall i | 0 <= i < |rest| ensures FirstAt(nm, hits, rest[i]) == FirstAt(nm, init, rest[i]) {
        FirstAtStays(nm, init, h, rest[i]);
      }
      if key != "" && key !in rest {
        KeyOrderFacts(nm, init);
        AbsentKey(nm, init, key);
        FirstAtStays(nm, init, h, key);
        assert nm.UrlKey(hits[|init|].result) == key;
      }
    }
  }

  lemma AbsentKey(nm: Normalizer, hits: seq<Hit>, k: string)
    requires Filter(hits, HasUrl(nm, k)) == []
    ensures FirstAt(nm, hits, k) == |hits|
  {
    var i := FirstAt(nm, hits, k);
    if i < |hits| {
      FilterMember(hits, HasUrl(nm, k), hits[i]);
    }
  }

  lemma {:induction false} KeyOrderFacts(nm: Normalizer, hits: seq<Hit>)
    ensures NoDuplicates(KeyOrder(nm, hits)) && "" !in KeyOrder(nm, hits)
    ensures forall k :: k != "" ==> (k in KeyOrder(nm, hits) <==> Filter(hits, HasUrl(nm, k)) != [])
  {
    if hits != [] {
      var i, h := hits[..|hits| - 1], hits[|hits| - 1];
      KeyOrderFacts(nm, i);
      assert hits == i + [h];
      forall k | k != "" ensures k in KeyOrder(nm, hits) <==> Filter(hits, HasUrl(nm, k)) != [] {
        FilterSnoc(i, h, HasUrl(nm, k));
      }
    }
  }

  /** What an entry's fields mean: the sum of its hits' shares, and the engines that hit it. */
  lemma {:induction false} EntryMeans(members: seq<Hit>)
    ensures GatherText(members).rrf == SumShares(members)
    ensures NoDuplicates(GatherText(members).engineOrder)
    ensures forall e :: e in GatherText(members).engineOrder <==> HitBy(members, e)
  {
    hide MergeText, Share;
    if members != [] {
      var n := |members| - 1;
      EntryMeans(members[..n]);
      assert members == members[..n] + [members[n]];
      forall e ensures e in GatherText(members).engineOrder <==> HitBy(members, e) {
        HitBySnoc(members[..n], members[n], e);
      }
    }
  }

  /** A URL's entry shows the longest content, the first title and date that are not blank, and what
      else its first hit says. */
  lemma {:induction false} EntryText(members: seq<Hit>) returns (t: nat)
    requires members != []
    ensures var r := GatherText(members).res;
            && Greatest(members, t, ContentLength()) && r.content == members[t].result.content
            && FirstFilled(members, Title(), r.title) && FirstFilled(members, Date(), r.publishDate)
            && r == members[0].result.(content := r.content, title := r.title, publishDate := r.publishDate)
  {
    hide Share, FirstFilled;
    var n := |members| - 1;
    if n == 0 {
      t := 0;
      assert members == [members[0]] && members[..0] == [];
      FilledFirst(members[0], Title());
      FilledFirst(members[0], Date());
    } else {
      var m, h := members[..n], members[n];
      var t0 := EntryText(m);
      assert members == m + [h];
      FirstFilledSnoc(m, h, Title(), GatherText(m).res.title);
      FirstFilledSnoc(m, h, Date(), GatherText(m).res.publishDate);
      GreatestSnoc(m, h, t0, ContentLength());
      t := if ByteLength(h.result.content) > ByteLength(m[t0].result.content) then n else t0;
    }
  }

  // ---- bucket order does not matter ----

  /** Each URL's fused rank and its set of engines are the same for any order of the buckets. */
  lemma BucketOrderIrrelevant(nm: Normalizer, a: seq<ScoreBucket>, b: seq<ScoreBucket>, k: string)
    requires multiset(a) == multiset(b)
    ensures EntryOf(nm, Hits(a), k).rrf == EntryOf(nm, Hits(b), k).rrf
    ensures forall e :: e in EntryOf(nm, Hits(a), k).engineOrder <==> e in EntryOf(nm, Hits(b), k).engineOrder
  {
    EntryMeans(Filter(Hits(a), HasUrl(nm, k)));
    EntryMeans(Filter(Hits(b), HasUrl(nm, k)));
    ShareUnordered(a, b, HasUrl(nm, k));
    forall e ensures e in EntryOf(nm, Hits(a), k).engineOrder ==> e in EntryOf(nm, Hits(b), k).engineOrder {
      EngineMoves(nm, a, b, k, e);
    }
    forall e ensures e in EntryOf(nm, Hits(b), k).engineOrder ==> e in EntryOf(nm, Hits(a), k).engineOrder {
      EngineMoves(nm, b, a, k, e);
    }
  }

  lemma EngineMoves(nm: Normalizer, a: seq<ScoreBucket>, b: seq<ScoreBucket>, k: string, e: string)
    requires multiset(a) == multiset(b)
    ensures e in EntryOf(nm, Hits(a), k).engineOrder ==> e in EntryOf(nm, Hits(b), k).engineOrder
  {
    hide Hits, Filter, GatherText, BucketHits;
    var ma, mb := Filter(Hits(a), HasUrl(nm, k)), Filter(Hits(b), HasUrl(nm, k));
    EntryMeans(ma);
    EntryMeans(mb);
    if HitBy(ma, e) {
      var i :| 0 <= i < |ma| && ma[i].engine == e;
      var h := ma[i];
      FilterMember(Hits(a), HasUrl(nm, k), h);
      HitOfBuckets(a, h);
      var x :| x in a && h in BucketHits(x, |x.results|);
      assert x in multiset(b);
      HitOfBuckets(b, h);
      FilterMember(Hits(b), HasUrl(nm, k), h);
      assert h in mb;
      var j :| 0 <= j < |mb| && mb[j] == h;
    }
  }

  // ---- the loops on the heap ----

  ghost predicate Tracks(nm: Normalizer, order: seq<string>, m: map<string, UrlAgg>, hits: seq<Hit>)
    reads m.Values
  {
    && order == KeyOrder(nm, hits) && (forall k :: k in m <==> k in order)
    && (forall k, l :: k in m && l in m && k != l ==> m[k] != m[l])
    && (forall k :: k in m ==> m[k].Valid() && m[k].View() == EntryOf(nm, hits, k))
  }

  /** What one more hit does to each entry and to the order. */
  lemma EntryStep(nm: Normalizer, hits: seq<Hit>, h: Hit, k: string)
    ensures var key := nm.UrlKey(h.result);
            EntryOf(nm, hits + [h], k) ==
              if k != key then EntryOf(nm, hits, k)
              else if k !in KeyOrder(nm, hits) && k != "" then AbsorbText(Agg(h.result, 0.0, []), h)
              else if k != "" then AbsorbText(EntryOf(nm, hits, k), h)
              else EntryOf(nm, hits + [h], k)
    ensures var key := nm.UrlKey(h.result);
            KeyOrder(nm, hits + [h]) ==
              KeyOrder(nm, hits) + if key == "" || key in KeyOrder(nm, hits) then [] else [key]
  {
    assert (hits + [h])[..|hits|] == hits;
    FilterSnoc(hits, h, HasUrl(nm, k));
    KeyOrderFacts(nm, hits);
    GatherTextSnoc(Filter(hits, HasUrl(nm, k)), h);
  }

  method NewWebEntry(h: Hit) returns (a: UrlAgg)
    ensures fresh(a) && a.Valid() && a.View() == AbsorbText(Agg(h.result, 0.0, []), h)
  {
    a := new UrlAgg(h.result);
    assert MergeText(h.result, h.result) == h.result;
    a.Count(h);
  }

  method AddWebHit(nm: Normalizer, order: seq<string>, m: map<string, UrlAgg>, h: Hit, ghost hits: seq<Hit>)
    returns (order': seq<string>, m': map<string, UrlAgg>)
    requires Tracks(nm, order, m, hits)
    modifies m.Values
    ensures Tracks(nm, order', m', hits + [h])
    ensures forall k :: k in m ==> k in m' && m'[k] == m[k]
    ensures forall k :: k in m' && k !in m ==> fresh(m'[k])
  {
    hide KeyOrder, EntryOf, AbsorbText;
    order', m' := order, m;
    var key := nm.UrlKey(h.result);
    StepAll(nm, hits, h);
    if key == "" {
      KeyOrderFacts(nm, hits);
      return;
    }
    if key !in m {
      var a := NewWebEntry(h);
      m' := m[key := a];
      order' := order + [key];
    } else {
      assert forall k :: k in m && k != key ==> m[k] != m[key];
      m[key].MergeWeb(h);
    }
  }

  lemma StepAll(nm: Normalizer, hits: seq<Hit>, h: Hit)
    ensures var key := nm.UrlKey(h.result);
            && (forall k :: k != key ==> EntryOf(nm, hits + [h], k) == EntryOf(nm, hits, k))
            && (key != "" ==>
                  var before := if key in KeyOrder(nm, hits) then EntryOf(nm, hits, key) else Agg(h.result, 0.0, []);
                  EntryOf(nm, hits + [h], key) == AbsorbText(before, h))
            && KeyOrder(nm, hits + [h]) ==
                 KeyOrder(nm, hits) + if key == "" || key in KeyOrder(nm, hits) then [] else [key]
  {
    hide KeyOrder, EntryOf, AbsorbText;
    EntryStep(nm, hits, h, nm.UrlKey(h.result));
    forall k ensures k != nm.UrlKey(h.result) ==> EntryOf(nm, hits + [h], k) == EntryOf(nm, hits, k) {
      EntryStep(nm, hits, h, k);
    }
  }

  method FuseBucketByUrl(nm: Normalizer, b: ScoreBucket, order0: seq<string>, m0: map<string, UrlAgg>,
                         ghost before: seq<Hit>)
    returns (order: seq<string>, m: map<string, UrlAgg>)
    requires Tracks(nm, order0, m0, before)
    modifies m0.Values
    ensures Tracks(nm, order, m, before + BucketHits(b, |b.results|))
    ensures forall k :: k in m ==> (k in m0 && m[k] == m0[k]) || fresh(m[k])
  {
    hide Tracks;
    order, m := order0, m0;
    ghost var hits := before;
    var w := EffectiveWeight(b.weight);
    for rank := 0 to |b.results|
      invariant hits == before + BucketHits(b, rank) && Tracks(nm, order, m, hits)
      invariant forall k :: k in m ==> (k in m0 && m[k] == m0[k]) || fresh(m[k])
    {
      var h := Hit(b.name, w, rank, b.results[rank]);
      order, m := AddWebHit(nm, order, m, h, hits);
      hits := hits + [h];
    }
  }

  /** All bucket loops: afterwards every URL has the entry its hits merge to. */
  method FuseByUrl(nm: Normalizer, buckets: seq<ScoreBucket>) returns (order: seq<string>, m: map<string, UrlAgg>)
    ensures Tracks(nm, order, m, Hits(buckets)) && forall k :: k in m ==> fresh(m[k])
  {
    order, m := [], map[];
    assert Tracks(nm, order, m, Hits(buckets[..0]));
    hide Tracks;
    for i := 0 to |buckets|
      invariant Tracks(nm, order, m, Hits(buckets[..i])) && forall k :: k in m ==> fresh(m[k])
    {
      order, m := FuseBucketByUrl(nm, buckets[i], order, m, Hits(buckets[..i]));
      assert buckets[..i + 1][..i] == buckets[..i];
    }
    assert buckets[..|buckets|] == buckets;
  }

  // ---- scoring and the ranking tail ----

  function ConsensusBoost(engines: nat): real {
    if engines <= 1 then 0.0 else if engines == 2 then 0.05 else if engines == 3 then 0.10 else 0.12
  }

  /** Signals of the query on one result: lexical alignment, domain quality, rare terms, authority, recency. */
  datatype WebSignals = WebSignals(la: SearchResult -> real, dq: SearchResult -> real, rare: SearchResult -> real,
                                   authority: SearchResult -> real, recency: SearchResult -> real)

  function WebScore(sg: WebSignals, r: SearchResult, rrf: real, engines: nat): real {
    (rrf * sg.dq(r) * (0.5 + 0.5 * sg.la(r)) * sg.rare(r) + ConsensusBoost(engines) + sg.authority(r)) * sg.recency(r)
  }

  function WebResult(sg: WebSignals, a: Agg): SearchResult {
    a.res.(score := WebScore(sg, a.res, a.rrf, |a.engineOrder|), engines := a.engineOrder)
  }

  function WebRanked(nm: Normalizer, sg: WebSignals, buckets: seq<ScoreBucket>): seq<SearchResult> {
    var hits := Hits(buckets);
    var order := KeyOrder(nm, hits);
    SortDesc(seq(|order|, i requires 0 <= i < |order| => WebResult(sg, EntryOf(nm, hits, order[i]))), ScoreOf())
  }

  method ScoreEntry(sg: WebSignals, a: UrlAgg, ghost e: Agg) returns (r: SearchResult)
    requires a.Valid() && a.View() == e
    modifies a`res
    ensures r == WebResult(sg, e)
  {
    DistinctSetSize(a.engineOrder);
    a.res := a.res.(score := WebScore(sg, a.res, a.rrf, |a.engines|), engines := a.engineOrder);
    r := a.res;
  }

  /** The entries in order of their keys are distinct objects with the right values. */
  lemma TrackedInOrder(nm: Normalizer, order: seq<string>, m: map<string, UrlAgg>, hits: seq<Hit>)
    requires Tracks(nm, order, m, hits)
    ensures forall i :: 0 <= i < |order| ==> order[i] in m
    ensures forall i, j :: 0 <= i < j < |order| ==> m[order[i]] != m[order[j]]
    ensures forall i :: 0 <= i < |order| ==> m[order[i]].Valid() && m[order[i]].View() == EntryOf(nm, hits, order[i])
  {
    hide EntryOf, KeyOrder;
    KeyOrderFacts(nm, hits);
    assert forall i :: 0 <= i < |order| ==> order[i] in order;
  }

  method ScoreByUrl(nm: Normalizer, sg: WebSignals, order: seq<string>, m: map<string, UrlAgg>, ghost hits: seq<Hit>)
    returns (scored: seq<SearchResult>)
    requires Tracks(nm, order, m, hits)
    modifies m.Values
    ensures |scored| == |order| && forall i :: 0 <= i < |order| ==>
            scored[i] == WebResult(sg, EntryOf(nm, hits, order[i]))
  {
    hide WebResult, EntryOf, KeyOrder, Tracks;
    TrackedInOrder(nm, order, m, hits);
    scored := [];
    for i := 0 to |order|
      invariant forall k :: i <= k < |order| ==>
                m[order[k]].Valid() && m[order[k]].View() == EntryOf(nm, hits, order[k])
      invariant |scored| == i && forall k :: 0 <= k < i ==> scored[k] == WebResult(sg, EntryOf(nm, hits, order[k]))
    {
      var a := m[order[i]];
      var r := ScoreEntry(sg, a, EntryOf(nm, hits, order[i]));
      scored := scored + [r];
    }
  }

  function CountAtLeast(results: seq<SearchResult>, threshold: real): nat {
    if results == [] then 0
    else CountAtLeast(results[..|results| - 1], threshold) + if results[|results| - 1].score >= threshold then 1 else 0
  }

  function WebThreshold(threshold: real): real {
    if threshold <= 0.0 then 0.05 else threshold
  }

  /** How many results the floor leaves: those at the threshold, but two when there are two. */
  function FloorLength(results: seq<SearchResult>, threshold: real): nat {
    Max(Min(2, |results|), CountAtLeast(results, WebThreshold(threshold)))
  }

  lemma {:induction false} CountIsPrefix(results: seq<SearchResult>, threshold: real)
    requires SortedDesc(results, ScoreOf())
    ensures CountAtLeast(results, threshold) <= |results|
    ensures forall i :: 0 <= i < |results| ==> (i < CountAtLeast(results, threshold) <==> results[i].score >= threshold)
  {
    if results != [] {
      var n := |results| - 1;
      CountIsPrefix(results[..n], threshold);
      var c := CountAtLeast(results[..n], threshold);
      forall i | 0 <= i < n ensures results[i].score >= results[n].score && results[i] == results[..n][i] {
        assert ScoreOf()(results[i]) >= ScoreOf()(results[n]);
      }
    }
  }

  /** On sorted input the floor keeps a prefix, of exactly FloorLength results. */
  method ApplyScoreFloor(results: seq<SearchResult>, threshold: real) returns (kept: seq<SearchResult>)
    requires SortedDesc(results, ScoreOf())
    ensures FloorLength(results, threshold) <= |results| && kept == results[..FloorLength(results, threshold)]
    ensures kept <= results && |kept| >= Min(2, |results|)
    ensures forall i ::
      0 <= i < |results| && results[i].score >= (if threshold <= 0.0 then 0.05 else threshold) ==> i < |kept|
    ensures forall i :: 2 <= i < |kept| ==> results[i].score >= if threshold <= 0.0 then 0.05 else threshold
  {
    var limit := WebThreshold(threshold);
    if results == [] {
      return results;
    }
    ghost var c := CountAtLeast(results, limit);
    CountIsPrefix(results, limit);
    kept := [];
    for i := 0 to |results|
      invariant kept == results[..Min(i, Max(1, c))]
    {
      if i == 0 || results[i].score >= limit {
        kept := kept + [results[i]];
      }
    }
    if |kept| < 2 && |results| >= 2 {
      kept := kept + [results[1]];
    }
  }

  datatype MMRConfig = MMRConfig(enabled: bool, balance: real, targetCount: int)

  /** What the tail makes of a ranking: without diversification a prefix of it; with it, a prefix of
      the greedy selection from the floored ranking. */
  ghost predicate TailOf(ranked: seq<SearchResult>, threshold: real, maxSize: int, mmr: MMRConfig,
                         tok: string -> set<string>, out: seq<SearchResult>, selected: seq<nat>) {
    var n := FloorLength(ranked, threshold);
    && n <= |ranked|
    && if !mmr.enabled then out == Cap(ranked[..n], maxSize)
       else && Greedy(EffectiveBalance(mmr.balance), ranked[..n], TokenSets(ranked[..n], tok), selected)
            && NoDuplicates(selected) && |selected| == Target(n, mmr.targetCount)
            && out == Cap(Picked(ranked[..n], selected), maxSize)
  }

  /** The best result leads through floor, diversification and cap. */
  lemma BestLeads(ranked: seq<SearchResult>, threshold: real, maxSize: int, mmr: MMRConfig, tok: string -> set<string>,
                  out: seq<SearchResult>, selected: seq<nat>)
    requires TailOf(ranked, threshold, maxSize, mmr, tok, out, selected) && ranked != []
    ensures out != [] && out[0] == ranked[0]
  {
    hide TokenSets, CountAtLeast, EarliestBest;
    var n := FloorLength(ranked, threshold);
    assert n >= 1;
    assert mmr.enabled ==> Picked(ranked[..n], selected)[0] == ranked[0];
  }

  /** Nothing comes of nothing. */
  lemma NothingRanked(ranked: seq<SearchResult>, threshold: real, maxSize: int, mmr: MMRConfig,
                      tok: string -> set<string>, out: seq<SearchResult>, selected: seq<nat>)
    requires TailOf(ranked, threshold, maxSize, mmr, tok, out, selected) && ranked == []
    ensures out == []
  {
    hide TokenSets, EarliestBest;
  }

  /** Floor, diversify, cap. */
  method RankingTail(ranked: seq<SearchResult>, threshold: real, maxSize: int, mmr: MMRConfig,
                     tok: string -> set<string>)
    returns (out: seq<SearchResult>, ghost selected: seq<nat>)
    requires SortedDesc(ranked, ScoreOf())
    ensures TailOf(ranked, threshold, maxSize, mmr, tok, out, selected)
  {
    hide Greedy, TokenSets, FloorLength, Picked, EffectiveBalance;
    out := ApplyScoreFloor(ranked, threshold);
    selected := [];
    if mmr.enabled {
      var targetN := mmr.targetCount;
      if targetN <= 0 {
        targetN := |out|;
      }
      out, selected := ApplyMMR(out, mmr.balance, targetN, tok);
    }
    if maxSize > 0 && |out| > maxSize {
      out := out[..maxSize];
    }
  }

  // ---- what the score means ----

  /** r is what the ranking shows of URL k, m that URL's hits. */
  ghost predicate ShowsUrl(nm: Normalizer, sg: WebSignals, buckets: seq<ScoreBucket>, k: string, m: seq<Hit>,
                           r: SearchResult) {
    && k in KeyOrder(nm, Hits(buckets)) && m == Filter(Hits(buckets), HasUrl(nm, k))
    && r == WebResult(sg, EntryOf(nm, Hits(buckets), k))
  }

  function EnginesOf(m: seq<Hit>): set<string> {
    set i | 0 <= i < |m| :: m[i].engine
  }

  lemma EnginesCounted(m: seq<Hit>)
    ensures |GatherText(m).engineOrder| == |EnginesOf(m)|
  {
    hide GatherText;
    EntryMeans(m);
    var e := GatherText(m).engineOrder;
    DistinctSetSize(e);
    assert (set x | x in e) == EnginesOf(m) by {
      forall x ensures x in e <==> x in EnginesOf(m) {}
    }
  }

  /** The score: rank shares times domain quality, times a half to one by lexical alignment, times
      rarity; plus 0.05, 0.10 or 0.12 when two, three or more engines agree; plus authority; all times
      recency. The signals are those of the merged entry. */
  ghost predicate UrlScored(sg: WebSignals, m: seq<Hit>, r: SearchResult) {
    var q, n := GatherText(m).res, |EnginesOf(m)|;
    && r == q.(score := r.score, engines := GatherText(m).engineOrder)
    && r.score == (SumShares(m) * sg.dq(q) * (0.5 + 0.5 * sg.la(q)) * sg.rare(q)
                   + (if n <= 1 then 0.0 else if n == 2 then 0.05 else if n == 3 then 0.10 else 0.12)
                   + sg.authority(q)) * sg.recency(q)
  }

  lemma UrlScoreMeans(nm: Normalizer, sg: WebSignals, buckets: seq<ScoreBucket>, k: string, m: seq<Hit>,
      r: SearchResult)
    requires ShowsUrl(nm, sg, buckets, k, m, r)
    ensures UrlScored(sg, m, r)
  {
    hide GatherText, EnginesOf, SumShares, KeyOrder, Filter;
    EntryMeans(m);
    EnginesCounted(m);
  }

  /** Two entries with the same rank shares and the same signals but for one. */
  datatype Terms = Terms(shares: real, dq: real, la: real, rare: real, authority: real, engines: nat, recency: real)

  ghost function TermsOf(sg: WebSignals, m: seq<Hit>): Terms {
    var q := GatherText(m).res;
    Terms(SumShares(m), sg.dq(q), sg.la(q), sg.rare(q), sg.authority(q), |EnginesOf(m)|, sg.recency(q))
  }

  /** What each signal does to the score of two URLs alike in the others: recency scales it, authority
      and agreement add to it before recency, alignment scales the rank part by a half to one. */
  lemma UrlSignalEffects(nm: Normalizer, sg: WebSignals, buckets: seq<ScoreBucket>, k: string, m: seq<Hit>,
      a: SearchResult, l: string, n: seq<Hit>, b: SearchResult)
    requires ShowsUrl(nm, sg, buckets, k, m, a) && ShowsUrl(nm, sg, buckets, l, n, b)
    ensures var s, t := TermsOf(sg, m), TermsOf(sg, n);
            && (s.(recency := t.recency) == t ==> a.score * t.recency == b.score * s.recency)
            && (s.(authority := t.authority) == t ==> a.score - b.score == (s.authority - t.authority) * s.recency)
            && (s.(engines := 1) == t && s.engines == 2 ==> a.score - b.score == 0.05 * s.recency)
            && (s.(engines := 1) == t && s.engines == 3 ==> a.score - b.score == 0.10 * s.recency)
            && (s.(engines := 1) == t && s.engines >= 4 ==> a.score - b.score == 0.12 * s.recency)
            && (s.(la := t.la) == t && s.la == 1.0 && t.la == 0.0 ==>
                  a.score - b.score == 0.5 * s.shares * s.dq * s.rare * s.recency)
            && (s.(shares := t.shares) == t && t.la == 1.0 ==>
                  a.score - b.score == (s.shares - t.shares) * s.dq * s.rare * s.recency)
  {
    hide ShowsUrl, EnginesOf, SumShares, GatherText;
    UrlScoreMeans(nm, sg, buckets, k, m, a);
    UrlScoreMeans(nm, sg, buckets, l, n, b);
    var s, t := TermsOf(sg, m), TermsOf(sg, n);
    assert a.score == TermScore(s) && b.score == TermScore(t);
    hide TermsOf, UrlScored;
    TermEffects(s, t);
  }

  ghost function TermScore(s: Terms): real {
    (s.shares * s.dq * (0.5 + 0.5 * s.la) * s.rare
     + (if s.engines <= 1 then 0.0 else if s.engines == 2 then 0.05 else if s.engines == 3 then 0.10 else 0.12)
     + s.authority) * s.recency
  }

  lemma TermEffects(s: Terms, t: Terms)
    ensures s.(recency := t.recency) == t ==> TermScore(s) * t.recency == TermScore(t) * s.recency
    ensures s.(authority := t.authority) == t ==> TermScore(s) - TermScore(t) == (s.authority - t.authority) * s.recency
    ensures s.(engines := 1) == t && s.engines == 2 ==> TermScore(s) - TermScore(t) == 0.05 * s.recency
    ensures s.(engines := 1) == t && s.engines == 3 ==> TermScore(s) - TermScore(t) == 0.10 * s.recency
    ensures s.(engines := 1) == t && s.engines >= 4 ==> TermScore(s) - TermScore(t) == 0.12 * s.recency
    ensures s.(la := t.la) == t && s.la == 1.0 && t.la == 0.0 ==>
              TermScore(s) - TermScore(t) == 0.5 * s.shares * s.dq * s.rare * s.recency
    ensures s.(shares := t.shares) == t && t.la == 1.0 ==>
              TermScore(s) - TermScore(t) == (s.shares - t.shares) * s.dq * s.rare * s.recency
  {
    var x, y := s.shares * s.dq * (0.5 + 0.5 * s.la) * s.rare, t.shares * t.dq * (0.5 + 0.5 * t.la) * t.rare;
    if s.(la := t.la) == t && s.la == 1.0 && t.la == 0.0 {
      assert x - y == 0.5 * s.shares * s.dq * s.rare;
    }
    if s.(shares := t.shares) == t && t.la == 1.0 {
      assert x - y == (s.shares - t.shares) * s.dq * s.rare;
    }
  }

  /** r is some URL's entry, scored from that URL's hits. */
  ghost predicate FromUrl(nm: Normalizer, sg: WebSignals, buckets: seq<ScoreBucket>, r: SearchResult) {
    exists k: string :: k != "" && UrlScored(sg, Filter(Hits(buckets), HasUrl(nm, k)), r)
  }

  lemma RankedFromUrl(nm: Normalizer, sg: WebSignals, buckets: seq<ScoreBucket>, r: SearchResult)
    requires r in WebRanked(nm, sg, buckets)
    ensures FromUrl(nm, sg, buckets, r)
  {
    hide KeyOrder, EntryOf, WebResult, UrlScored, Hits, SortDesc, HasUrl;
    var hits := Hits(buckets);
    var order := KeyOrder(nm, hits);
    var scored := seq(|order|, i requires 0 <= i < |order| => WebResult(sg, EntryOf(nm, hits, order[i])));
    SortDescMembers(scored, ScoreOf());
    KeyOrderFacts(nm, hits);
    var i :| 0 <= i < |scored| && scored[i] == r;
    ShownUrl(nm, sg, buckets, order[i]);
  }

  lemma ShownUrl(nm: Normalizer, sg: WebSignals, buckets: seq<ScoreBucket>, k: string)
    requires k in KeyOrder(nm, Hits(buckets))
    ensures UrlScored(sg, Filter(Hits(buckets), HasUrl(nm, k)), WebResult(sg, EntryOf(nm, Hits(buckets), k)))
  {
    hide UrlScored;
    var m := Filter(Hits(buckets), HasUrl(nm, k));
    UrlScoreMeans(nm, sg, buckets, k, m, WebResult(sg, EntryOf(nm, Hits(buckets), k)));
  }

  /** The tail adds nothing. */
  lemma TailMembers(ranked: seq<SearchResult>, threshold: real, maxSize: int, mmr: MMRConfig,
      tok: string -> set<string>, out: seq<SearchResult>, selected: seq<nat>)
    requires TailOf(ranked, threshold, maxSize, mmr, tok, out, selected)
    ensures forall r :: r in out ==> r in ranked
  {
    hide TokenSets, EarliestBest, FloorLength;
    var floored := ranked[..FloorLength(ranked, threshold)];
    forall k | 0 <= k < |out| ensures out[k] in ranked {
      var i := if mmr.enabled then selected[k] else k;
      assert out[k] == floored[i] == ranked[i];
    }
  }

  /** The whole pipeline: what the loops leave in the heap is ranked and goes through the tail. */
  method EnhanceResultsMMR(nm: Normalizer, sg: WebSignals, buckets: seq<ScoreBucket>, threshold: real, maxSize: int,
                           mmr: MMRConfig, tok: string -> set<string>)
    returns (out: seq<SearchResult>, ghost selected: seq<nat>)
    ensures TailOf(WebRanked(nm, sg, buckets), threshold, maxSize, mmr, tok, out, selected)
    ensures WebRanked(nm, sg, buckets) != [] ==> out != [] && out[0] == WebRanked(nm, sg, buckets)[0]
    ensures forall r :: r in out ==> FromUrl(nm, sg, buckets, r)
  {
    hide TailOf, WebResult, EntryOf, FromUrl;
    var order, m := FuseByUrl(nm, buckets);
    var scored := ScoreByUrl(nm, sg, order, m, Hits(buckets));
    ghost var ranked := WebRanked(nm, sg, buckets);
    assert scored == seq(|order|, i requires 0 <= i < |order| => WebResult(sg, EntryOf(nm, Hits(buckets), order[i])));
    SortDescCorrect(scored, ScoreOf());
    scored := SortDesc(scored, ScoreOf());
    out, selected := RankingTail(scored, threshold, maxSize, mmr, tok);
    if ranked != [] {
      BestLeads(ranked, threshold, maxSize, mmr, tok, out, selected);
    }
    TailMembers(ranked, threshold, maxSize, mmr, tok, out, selected);
    forall r | r in out ensures FromUrl(nm, sg, buckets, r) {
      RankedFromUrl(nm, sg, buckets, r);
    }
  }
}
