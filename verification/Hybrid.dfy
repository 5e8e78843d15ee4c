/** Merging the answers of engines that ran concurrently: whatever order they arrive in, the merge
    sees them by engine index; then per-engine shaping, cross-engine deduplication, and the cap. */
module Hybrid {
  import opened Core
  import opened RoundRobin
  import opened Seqs
  import opened Sorting
  import opened Text
  import WebEnhance

  const DEFAULT_ENGINE_MAX: int := 4

  /** One message on the channel: engine index, and its results or its error. */
  datatype Arrival = Arrival(index: nat, results: seq<SearchResult>, error: Option<string>)

  datatype EngineFilter = EngineFilter(minScore: real, maxSize: int, weight: real)

  datatype Config = Config(engineNames: seq<string>, filters: map<string, EngineFilter>, maxSize: int, enhance: bool)

  datatype Outcome =
    | AllFailed(summaries: seq<string>)
    | NothingFound
    | Merged(results: seq<SearchResult>)

  /** What the enhancement pipeline is given besides the buckets and the global maximum. */
  datatype Enhancer = Enhancer(nm: Normalizer, sg: WebEnhance.WebSignals, threshold: real, mmr: WebEnhance.MMRConfig,
                               tok: string -> set<string>)

  // ---- arrival order ----

  function Succeeded(): Arrival -> bool {
    (a: Arrival) => a.error.None?
  }

  function ByIndex(): Arrival -> real {
    (a: Arrival) => -(a.index as real)
  }

  /** The successes by engine index: all that the merge goes on with. */
  function Collected(arrivals: seq<Arrival>): seq<Arrival> {
    SortDesc(Filter(arrivals, Succeeded()), ByIndex())
  }

  ghost predicate OnePerEngine(arrivals: seq<Arrival>) {
    forall i, j :: 0 <= i < j < |arrivals| ==> arrivals[i].index != arrivals[j].index
  }

  lemma {:induction false} FilterMultiset<T>(s: seq<T>, p: T -> bool, x: T)
    ensures multiset(Filter(s, p))[x] == if p(x) then multiset(s)[x] else 0
  {
    if s != [] {
      FilterMultiset(s[..|s| - 1], p, x);
      assert s == s[..|s| - 1] + [s[|s| - 1]];
    }
  }

  lemma {:induction false} FilterSpreads(arrivals: seq<Arrival>)
    requires OnePerEngine(arrivals)
    ensures DistinctKeys(Filter(arrivals, Succeeded()), ByIndex())
  {
    if arrivals != [] {
      var init, a := arrivals[..|arrivals| - 1], arrivals[|arrivals| - 1];
      FilterSpreads(init);
      var f := Filter(init, Succeeded());
      forall i | 0 <= i < |f| ensures f[i].index != a.index {
        FilterMember(init, Succeeded(), f[i]);
      }
    }
  }

  lemma {:induction false} DistinctKeysPermute(s: seq<Arrival>, t: seq<Arrival>)
    requires multiset(s) == multiset(t) && DistinctKeys(s, ByIndex())
    ensures DistinctKeys(t, ByIndex())
  {
    PermutedDistinct(s, t);
    forall i, j | 0 <= i < j < |t| ensures ByIndex()(t[i]) != ByIndex()(t[j]) {
      assert t[i] in multiset(s) && t[j] in multiset(s);
      var k, l :| 0 <= k < |s| && s[k] == t[i] && 0 <= l < |s| && s[l] == t[j];
      assert k != l;
    }
  }

  /** For any two arrival orders of the same messages the merge starts from the same sequence. */
  lemma ArrivalOrderIrrelevant(a: seq<Arrival>, b: seq<Arrival>)
    requires multiset(a) == multiset(b) && OnePerEngine(a)
    ensures Collected(a) == Collected(b)
  {
    var fa, fb := Filter(a, Succeeded()), Filter(b, Succeeded());
    forall x ensures multiset(fa)[x] == multiset(fb)[x] {
      FilterMultiset(a, Succeeded(), x);
      FilterMultiset(b, Succeeded(), x);
    }
    assert multiset(fa) == multiset(fb);
    FilterSpreads(a);
    SortDescCorrect(fa, ByIndex());
    SortDescCorrect(fb, ByIndex());
    DistinctKeysPermute(fa, Collected(a));
    DistinctKeysSort(Collected(a), Collected(b), ByIndex());
  }

  // ---- deduplication by trimmed URL ----

  function Trimmed(r: SearchResult): string {
    TrimSpace(r.url)
  }

  /** The first result of every URL, in order. */
  function FirstByUrl(s: seq<SearchResult>): seq<SearchResult> {
    if s == [] then []
    else
      var rest, r := FirstByUrl(s[..|s| - 1]), s[|s| - 1];
      if Trimmed(r) in Urls(rest) then rest else rest + [r]
  }

  function Urls(s: seq<SearchResult>): set<string> {
    set i | 0 <= i < |s| :: Trimmed(s[i])
  }

  lemma UrlsSnoc(s: seq<SearchResult>, r: SearchResult)
    ensures Urls(s + [r]) == Urls(s) + {Trimmed(r)}
  {
    var t := s + [r];
    assert t[|s|] == r;
    forall u ensures u in Urls(t) <==> u in Urls(s) || u == Trimmed(r) {
      if u in Urls(s) {
        var i :| 0 <= i < |s| && Trimmed(s[i]) == u;
        assert t[i] == s[i];
      }
    }
  }

  lemma FirstByUrlSnoc(s: seq<SearchResult>, r: SearchResult)
    ensures FirstByUrl(s + [r]) == FirstByUrl(s) + if Trimmed(r) in Urls(FirstByUrl(s)) then [] else [r]
  {
    assert (s + [r])[..|s|] == s;
  }

  /** r is in s, with no earlier result of the same URL. */
  ghost predicate Earliest(s: seq<SearchResult>, r: SearchResult, i: nat) {
    i < |s| && s[i] == r && forall j :: 0 <= j < i ==> Trimmed(s[j]) != Trimmed(r)
  }

  lemma UrlsMember(s: seq<SearchResult>, u: string)
    ensures u in Urls(s) <==> exists j :: 0 <= j < |s| && Trimmed(s[j]) == u
  {}

  /** Deduplication drops no URL and repeats none, and keeps the earliest result of each. */
  lemma {:induction false} FirstByUrlMeans(s: seq<SearchResult>)
    ensures Urls(FirstByUrl(s)) == Urls(s)
    ensures forall i, j :: 0 <= i < j < |FirstByUrl(s)| ==> Trimmed(FirstByUrl(s)[i]) != Trimmed(FirstByUrl(s)[j])
    ensures forall r :: r in FirstByUrl(s) ==> exists i: nat :: Earliest(s, r, i)
  {
    if s != [] {
      var init, r := s[..|s| - 1], s[|s| - 1];
      assert s == init + [r];
      FirstByUrlMeans(init);
      FirstByUrlSnoc(init, r);
      UrlsSnoc(init, r);
      UrlsSnoc(FirstByUrl(init), r);
      EarliestSnoc(init, r);
      hide FirstByUrl, Trimmed, Earliest;
      UrlsMember(FirstByUrl(init), Trimmed(r));
    }
  }

  lemma EarliestSnoc(init: seq<SearchResult>, r: SearchResult)
    ensures forall x, i: nat :: Earliest(init, x, i) ==> Earliest(init + [r], x, i)
    ensures Trimmed(r) !in Urls(init) ==> Earliest(init + [r], r, |init|)
  {
    hide Trimmed;
    UrlsMember(init, Trimmed(r));
  }

  method DedupeByUrl(s: seq<SearchResult>) returns (unique: seq<SearchResult>)
    ensures unique == FirstByUrl(s)
  {
    unique := [];
    var seen: set<string> := {};
    for i := 0 to |s|
      invariant unique == FirstByUrl(s[..i]) && seen == Urls(unique)
    {
      assert s[..i + 1] == s[..i] + [s[i]];
      FirstByUrlSnoc(s[..i], s[i]);
      UrlsSnoc(unique, s[i]);
      var u := Trimmed(s[i]);
      if u in seen {
        continue;
      }
      seen := seen + {u};
      unique := unique + [s[i]];
    }
    assert s[..|s|] == s;
  }

  // ---- per-engine shaping ----

  predicate HasScore(s: seq<SearchResult>) {
    exists i :: 0 <= i < |s| && s[i].score > 0.0
  }

  function AtLeast(min: real): SearchResult -> bool {
    (r: SearchResult) => r.score >= min
  }

  /** Rounded-up share of the global maximum, for a positive maximum. */
  function PerEngineCap(maxSize: int, engines: nat): int
    requires maxSize > 0 && engines > 0
  {
    (maxSize + engines - 1) / engines
  }

  function FilterOf(cfg: Config, name: string): EngineFilter {
    if name in cfg.filters then cfg.filters[name] else EngineFilter(0.0, 0, 0.0)
  }

  function EngineMax(cfg: Config, ef: EngineFilter, scored: bool): int {
    var m := if ef.maxSize <= 0 then DEFAULT_ENGINE_MAX else ef.maxSize;
    if !cfg.enhance && cfg.maxSize > 0 && |cfg.engineNames| > 0 && !scored
    then Min(m, PerEngineCap(cfg.maxSize, |cfg.engineNames|)) else m
  }

  /** One engine's contribution: unique URLs, filtered by score when it reports scores, cut. */
  function Shaped(cfg: Config, a: Arrival): seq<SearchResult>
    requires a.index < |cfg.engineNames|
  {
    var ef, unique := FilterOf(cfg, cfg.engineNames[a.index]), FirstByUrl(a.results);
    var kept := if ef.minScore > 0.0 && HasScore(unique) then Filter(unique, AtLeast(ef.minScore)) else unique;
    Cap(kept, EngineMax(cfg, ef, HasScore(kept)))
  }

  /** The share is the least one for which all engines together can fill the global maximum. */
  lemma PerEngineCapCovers(maxSize: int, engines: nat)
    requires maxSize > 0 && engines > 0
    ensures PerEngineCap(maxSize, engines) >= 1
    ensures PerEngineCap(maxSize, engines) * engines >= maxSize > (PerEngineCap(maxSize, engines) - 1) * engines
  {
    var c := PerEngineCap(maxSize, engines);
    assert maxSize + engines - 1 == c * engines + (maxSize + engines - 1) % engines;
    assert (c - 1) * engines == c * engines - engines;
  }

  ghost predicate OwnDistinct(s: seq<SearchResult>, own: seq<SearchResult>) {
    && (forall i, j :: 0 <= i < j < |s| ==> Trimmed(s[i]) != Trimmed(s[j]))
    && (forall i :: 0 <= i < |s| ==> s[i] in own)
  }

  lemma {:induction false} UniquePicks(own: seq<SearchResult>) returns (at: seq<int>)
    ensures PicksFrom(FirstByUrl(own), own, at) && forall i :: 0 <= i < |at| ==> at[i] < |own|
  {
    at := [];
    if own != [] {
      var n := |own| - 1;
      at := UniquePicks(own[..n]);
      var rest := FirstByUrl(own[..n]);
      PicksWiden(rest, own, at, n);
      if Trimmed(own[n]) !in Urls(rest) {
        PicksSnoc(rest, own, at, n);
        at := at + [n];
      }
    }
  }

  lemma UniqueMeans(own: seq<SearchResult>)
    ensures OwnDistinct(FirstByUrl(own), own)
  {
    FirstByUrlMeans(own);
    var u := FirstByUrl(own);
    forall i | 0 <= i < |u| ensures u[i] in own {
      assert u[i] in u;
      var k: nat :| Earliest(own, u[i], k);
    }
  }

  lemma FilteredMeans(s: seq<SearchResult>, own: seq<SearchResult>, min: real)
    requires OwnDistinct(s, own)
    ensures OwnDistinct(Filter(s, AtLeast(min)), own)
    ensures forall i :: 0 <= i < |Filter(s, AtLeast(min))| ==> Filter(s, AtLeast(min))[i].score >= min
  {
    var f := Filter(s, AtLeast(min));
    FilterDistinctUrls(s, AtLeast(min));
    forall i | 0 <= i < |f| ensures f[i] in own && f[i].score >= min {
      FilterMember(s, AtLeast(min), f[i]);
    }
  }

  /** One engine contributes results of its own in their order, no URL twice, no more than its cap;
      if any of them has a score, none below a minimum that is set; if none has, and the results are
      not handed to the enhancement, no more than its share of the global maximum. */
  lemma ShapedMeans(cfg: Config, a: Arrival) returns (at: seq<int>)
    requires a.index < |cfg.engineNames|
    ensures var s, ef := Shaped(cfg, a), FilterOf(cfg, cfg.engineNames[a.index]);
            && OwnDistinct(s, a.results) && PicksFrom(s, a.results, at)
            && |s| <= (if ef.maxSize <= 0 then DEFAULT_ENGINE_MAX else ef.maxSize)
            && (ef.minScore > 0.0 && HasScore(FirstByUrl(a.results)) ==>
                  forall i :: 0 <= i < |s| ==> s[i].score >= ef.minScore)
            && (!HasScore(FirstByUrl(a.results)) && !cfg.enhance && cfg.maxSize > 0 ==>
                  |s| <= PerEngineCap(cfg.maxSize, |cfg.engineNames|))
  {
    var ef, unique := FilterOf(cfg, cfg.engineNames[a.index]), FirstByUrl(a.results);
    UniqueMeans(a.results);
    FilteredMeans(unique, a.results, ef.minScore);
    var picks := UniquePicks(a.results);
    var sifted := FilterPicks(unique, AtLeast(ef.minScore));
    hide FirstByUrl, HasScore, Filter, Trimmed, OwnDistinct, EngineMax, PicksFrom;
    var kept := if ef.minScore > 0.0 && HasScore(unique) then Filter(unique, AtLeast(ef.minScore)) else unique;
    var max := EngineMax(cfg, ef, HasScore(kept));
    EngineMaxBound(cfg, ef, HasScore(kept));
    CapDistinct(kept, a.results, max);
    at := picks;
    if ef.minScore > 0.0 && HasScore(unique) {
      at := PicksCompose(kept, unique, a.results, sifted, picks);
    }
    CapLength(kept, max);
    PicksPrefix(kept, a.results, at, |Cap(kept, max)|);
    at := at[..|Cap(kept, max)|];
  }

  lemma CapLength(s: seq<SearchResult>, n: int)
    requires n >= 1
    ensures |Cap(s, n)| <= |s| && |Cap(s, n)| <= n && Cap(s, n) == s[..|Cap(s, n)|]
  {}

  /** The configuration of one engine, by its name; an engine without an entry has none of the three. */
  ghost predicate Configured(cfg: Config, name: string, minScore: real, maxSize: int, weight: real) {
    if name in cfg.filters then cfg.filters[name] == EngineFilter(minScore, maxSize, weight)
    else minScore == 0.0 && maxSize == 0 && weight == 0.0
  }

  /** What an engine may contribute at most: its results without repeated URLs and, if a minimum is set
      and some of them has a score, without those below it. */
  ghost predicate Eligible(a: Arrival, minScore: real, kept: seq<SearchResult>) {
    var unique := FirstByUrl(a.results);
    kept == if minScore > 0.0 && exists i :: 0 <= i < |unique| && unique[i].score > 0.0
            then Filter(unique, AtLeast(minScore)) else unique
  }

  lemma EligibleMeans(a: Arrival, minScore: real, kept: seq<SearchResult>)
    requires Eligible(a, minScore, kept)
    ensures forall r :: r in kept <==>
              && r in FirstByUrl(a.results)
              && (minScore > 0.0 && (exists x :: x in FirstByUrl(a.results) && x.score > 0.0) ==> r.score >= minScore)
  {
    var unique := FirstByUrl(a.results);
    hide FirstByUrl, Filter;
    forall r ensures r in Filter(unique, AtLeast(minScore)) <==> r in unique && r.score >= minScore {
      FilterMember(unique, AtLeast(minScore), r);
    }
    assert (exists x :: x in unique && x.score > 0.0) <==> exists i :: 0 <= i < |unique| && unique[i].score > 0.0;
  }

  /** The cap of one engine: what is configured, or 4; lowered to its share of the global maximum
      exactly when it has no scores, there is no enhancement and there is a global maximum. */
  ghost predicate CapIs(cfg: Config, maxSize: int, kept: seq<SearchResult>, cap: int) {
    var own := if maxSize > 0 then maxSize else 4;
    if !cfg.enhance && cfg.maxSize > 0 && |cfg.engineNames| > 0 && forall i :: 0 <= i < |kept| ==> kept[i].score <= 0.0
    then cap == Min(own, PerEngineCap(cfg.maxSize, |cfg.engineNames|)) else cap == own
  }

  /** One engine contributes exactly the first of what it may, as many as its cap allows. */
  lemma ContributionExact(cfg: Config, a: Arrival, minScore: real, maxSize: int, weight: real, kept: seq<SearchResult>,
                          cap: int)
    requires a.index < |cfg.engineNames| && Configured(cfg, cfg.engineNames[a.index], minScore, maxSize, weight)
    requires Eligible(a, minScore, kept) && CapIs(cfg, maxSize, kept, cap)
    ensures cap >= 1 && Shaped(cfg, a) <= kept && |Shaped(cfg, a)| == Min(cap, |kept|)
  {
    var ef, unique := FilterOf(cfg, cfg.engineNames[a.index]), FirstByUrl(a.results);
    if cfg.maxSize > 0 {
      PerEngineCapCovers(cfg.maxSize, |cfg.engineNames|);
    }
    hide FirstByUrl, Filter;
    assert kept == if ef.minScore > 0.0 && HasScore(unique) then Filter(unique, AtLeast(ef.minScore)) else unique;
    assert HasScore(kept) <==> !forall i :: 0 <= i < |kept| ==> kept[i].score <= 0.0;
    assert cap == EngineMax(cfg, ef, HasScore(kept));
  }

  /** The bucket of one engine for the enhancement has its name, its weight and its contribution. */
  lemma BucketMeans(cfg: Config, a: Arrival, minScore: real, maxSize: int, weight: real)
    requires a.index < |cfg.engineNames| && Configured(cfg, cfg.engineNames[a.index], minScore, maxSize, weight)
    ensures FileBucket(cfg, a, Shaped(cfg, a)) == ScoreBucket(cfg.engineNames[a.index], weight, Shaped(cfg, a))
  {}

  lemma EngineMaxBound(cfg: Config, ef: EngineFilter, scored: bool)
    ensures 1 <= EngineMax(cfg, ef, scored) <= if ef.maxSize <= 0 then DEFAULT_ENGINE_MAX else ef.maxSize
    ensures !scored && !cfg.enhance && cfg.maxSize > 0 && |cfg.engineNames| > 0 ==>
              EngineMax(cfg, ef, scored) <= PerEngineCap(cfg.maxSize, |cfg.engineNames|)
  {
    if cfg.maxSize > 0 && |cfg.engineNames| > 0 {
      PerEngineCapCovers(cfg.maxSize, |cfg.engineNames|);
    }
  }

  lemma CapDistinct(s: seq<SearchResult>, own: seq<SearchResult>, n: int)
    requires OwnDistinct(s, own) && n >= 1
    ensures OwnDistinct(Cap(s, n), own) && |Cap(s, n)| <= n
  {}

  lemma {:induction false} FilterDistinctUrls(s: seq<SearchResult>, p: SearchResult -> bool)
    requires forall i, j :: 0 <= i < j < |s| ==> Trimmed(s[i]) != Trimmed(s[j])
    ensures forall i, j :: 0 <= i < j < |Filter(s, p)| ==> Trimmed(Filter(s, p)[i]) != Trimmed(Filter(s, p)[j])
  {
    hide Trimmed;
    if s != [] {
      var init, r := s[..|s| - 1], s[|s| - 1];
      FilterDistinctUrls(init, p);
      var f := Filter(init, p);
      forall i | 0 <= i < |f| ensures Trimmed(f[i]) != Trimmed(r) {
        FilterMember(init, p, f[i]);
        var k :| 0 <= k < |init| && init[k] == f[i];
        assert s[k] == f[i];
      }
    }
  }

  method KeepAtLeast(s: seq<SearchResult>, min: real) returns (kept: seq<SearchResult>)
    ensures kept == Filter(s, AtLeast(min))
  {
    kept := [];
    for i := 0 to |s|
      invariant kept == Filter(s[..i], AtLeast(min))
    {
      assert s[..i + 1] == s[..i] + [s[i]];
      FilterSnoc(s[..i], s[i], AtLeast(min));
      if s[i].score >= min {
        kept := kept + [s[i]];
      }
    }
    assert s[..|s|] == s;
  }

  method ShapeEngine(cfg: Config, a: Arrival) returns (shaped: seq<SearchResult>)
    requires a.index < |cfg.engineNames|
    ensures shaped == Shaped(cfg, a)
  {
    var ef := FilterOf(cfg, cfg.engineNames[a.index]);
    hide FirstByUrl, HasScore, Filter, EngineMax;
    shaped := DedupeByUrl(a.results);
    if ef.minScore > 0.0 && HasScore(shaped) {
      shaped := KeepAtLeast(shaped, ef.minScore);
    }
    var engineMax := EngineMax(cfg, ef, HasScore(shaped));
    if engineMax > 0 && |shaped| > engineMax {
      shaped := shaped[..engineMax];
    }
  }

  // ---- round-robin by engine name ----

  function Label(r: SearchResult): string {
    if r.engine == "" then "_unknown" else r.engine
  }

  function HasLabel(name: string): SearchResult -> bool {
    (r: SearchResult) => Label(r) == name
  }

  ghost function LabelCounts(s: seq<SearchResult>, order: seq<string>): seq<nat> {
    seq(|order|, a requires 0 <= a < |order| => |Filter(s, HasLabel(order[a]))|)
  }

  /** Every result is counted under exactly one of the distinct labels. */
  lemma {:induction false} LabelsPartition(s: seq<SearchResult>, order: seq<string>)
    requires NoDuplicates(order) && forall r :: r in s ==> Label(r) in order
    ensures SumNat(LabelCounts(s, order)) == |s|
  {
    hide Label, SumNat;
    if s == [] {
      SumNatZero(LabelCounts(s, order));
    } else {
      var init, r := s[..|s| - 1], s[|s| - 1];
      assert s == init + [r];
      LabelsPartition(init, order);
      assert Label(r) in order;
      var a :| 0 <= a < |order| && order[a] == Label(r);
      var c := LabelCounts(init, order);
      SumNatUpdate(c, a, c[a] + 1);
      LabelCountsSnoc(init, r, order, a);
    }
  }

  lemma LabelCountsSnoc(init: seq<SearchResult>, r: SearchResult, order: seq<string>, a: nat)
    requires NoDuplicates(order) && a < |order| && order[a] == Label(r)
    ensures LabelCounts(init + [r], order) == var c := LabelCounts(init, order); c[a := c[a] + 1]
  {
    hide Filter, Label;
    var c := LabelCounts(init, order);
    forall b | 0 <= b < |order| ensures LabelCounts(init + [r], order)[b] == c[a := c[a] + 1][b] {
      FilterSnoc(init, r, HasLabel(order[b]));
    }
  }

  /** What was taken from the a-th bucket is what carries its label in the output. */
  lemma {:induction false} TakenIsLabelled(out: seq<SearchResult>, from: seq<nat>, order: seq<string>, a: nat)
    requires |out| == |from| && NoDuplicates(order) && a < |order|
    requires forall k :: 0 <= k < |out| ==> from[k] < |order| && Label(out[k]) == order[from[k]]
    ensures Taken(out, from, a) == Filter(out, HasLabel(order[a]))
  {
    if out != [] {
      TakenIsLabelled(out[..|out| - 1], from[..|out| - 1], order, a);
    }
  }

  lemma {:induction false} TakenMember(out: seq<SearchResult>, from: seq<nat>, k: nat)
    requires |out| == |from| && k < |out|
    ensures out[k] in Taken(out, from, from[k])
  {
    var n := |out| - 1;
    if k < n {
      TakenMember(out[..n], from[..n], k);
      assert out[..n][k] == out[k] && from[..n][k] == from[k];
    }
  }

  function Labels(s: seq<SearchResult>): seq<string> {
    seq(|s|, i requires 0 <= i < |s| => Label(s[i]))
  }

  /** The order in which engines are served: the configured names, then any others as they first occur. */
  function EngineOrder(engineNames: seq<string>, results: seq<SearchResult>): seq<string> {
    Distinct(engineNames + Labels(results))
  }

  lemma EngineOrderFacts(engineNames: seq<string>, results: seq<SearchResult>)
    ensures NoDuplicates(EngineOrder(engineNames, results))
    ensures forall r :: r in results ==> Label(r) in EngineOrder(engineNames, results)
  {
    hide Label;
    DistinctFacts(engineNames + Labels(results));
    forall r | r in results ensures Label(r) in Labels(results) {
      var i :| 0 <= i < |results| && results[i] == r;
      assert Labels(results)[i] == Label(r);
    }
  }

  /** Keeps exactly `limit` of too many results: from every engine the first few in their order, dealt
      out one by one in the engines' order. */
  method RoundRobinByNames(results: seq<SearchResult>, limit: int, engineNames: seq<string>)
    returns (out: seq<SearchResult>)
    ensures |results| <= limit ==> out == results
    ensures |results| > limit ==> EvenShare(out, results, limit, engineNames)
    ensures |results| > limit ==> forall e, f :: e != "" && f != "" ==> Served(out, results, e, f)
    ensures multiset(out) <= multiset(results)
  {
    hide EvenShare, Served, Filter, Prefixes, Bucket, Label, Even, SumNat, Dealt, EngineOrder;
    if |results| <= limit {
      return results;
    }
    var buckets, order := GroupByEngine(results, engineNames);
    EngineOrderFacts(engineNames, results);
    ghost var from, counts;
    out, from, counts := Distribute(buckets, order, limit);
    DistributesEvenly(results, buckets, engineNames, out, from, counts, limit);
    EvenShareTakes(out, results, limit, engineNames);
    forall e, f | e != "" && f != "" ensures Served(out, results, e, f) {
      EvenShareServes(out, results, limit, engineNames, e, f);
    }
  }

  /** An even share is part of what is shared out: results of the input, each at most as often. */
  lemma EvenShareTakes(out: seq<SearchResult>, all: seq<SearchResult>, limit: int, engineNames: seq<string>)
    requires EvenShare(out, all, limit, engineNames)
    ensures multiset(out) <= multiset(all)
  {
    hide Label, Filter, Even, EngineOrder;
    var order := EngineOrder(engineNames, all);
    forall r ensures multiset(out)[r] <= multiset(all)[r] {
      if r in out {
        assert Label(r) in order;
        var a :| 0 <= a < |order| && order[a] == Label(r);
        FilterMultiset(out, HasLabel(order[a]), r);
        FilterMultiset(all, HasLabel(order[a]), r);
        PrefixMultiset(Filter(out, HasLabel(order[a])), Filter(all, HasLabel(order[a])));
      }
    }
  }

  lemma PrefixMultiset<T>(s: seq<T>, t: seq<T>)
    requires s <= t
    ensures multiset(s) <= multiset(t)
  {
    assert t == s + t[|s|..];
  }

  /** Buckets the results by engine, noting the engines' order. */
  method GroupByEngine(results: seq<SearchResult>, engineNames: seq<string>)
    returns (buckets: Buckets, order: seq<string>)
    ensures order == EngineOrder(engineNames, results)
    ensures forall e :: Bucket(buckets, e) == Filter(results, HasLabel(e))
  {
    hide Distinct, Label, Filter, HasLabel;
    buckets := map[];
    order := DistinctNames(engineNames);
    assert engineNames + Labels(results[..0]) == engineNames;
    assert forall e :: Bucket(buckets, e) == Filter(results[..0], HasLabel(e)) by { NothingGrouped(); }
    for i := 0 to |results|
      invariant order == Distinct(engineNames + Labels(results[..i]))
      invariant forall e :: Bucket(buckets, e) == Filter(results[..i], HasLabel(e))
    {
      var r, e := results[i], Label(results[i]);
      assert results[..i + 1] == results[..i] + [r];
      assert engineNames + Labels(results[..i + 1]) == (engineNames + Labels(results[..i])) + [e];
      DistinctSnoc(engineNames + Labels(results[..i]), e);
      if e !in order {
        order := order + [e];
      }
      GroupStep(results[..i], r, buckets);
      buckets := buckets[e := Bucket(buckets, e) + [r]];
    }
    assert results[..|results|] == results;
  }

  method DistinctNames(names: seq<string>) returns (order: seq<string>)
    ensures order == Distinct(names)
  {
    order := [];
    for i := 0 to |names|
      invariant order == Distinct(names[..i])
    {
      assert names[..i + 1] == names[..i] + [names[i]];
      DistinctSnoc(names[..i], names[i]);
      if names[i] !in order {
        order := order + [names[i]];
      }
    }
    assert names[..|names|] == names;
  }

  lemma NothingGrouped()
    ensures forall e :: Bucket(map[], e) == Filter([], HasLabel(e))
  {}

  lemma GroupStep(init: seq<SearchResult>, r: SearchResult, buckets: Buckets)
    requires forall e :: Bucket(buckets, e) == Filter(init, HasLabel(e))
    ensures var b := buckets[Label(r) := Bucket(buckets, Label(r)) + [r]];
            forall e :: Bucket(b, e) == Filter(init + [r], HasLabel(e))
  {
    var b := buckets[Label(r) := Bucket(buckets, Label(r)) + [r]];
    forall e ensures Bucket(b, e) == Filter(init + [r], HasLabel(e)) {
      FilterSnoc(init, r, HasLabel(e));
    }
  }

  lemma OutLabels(results: seq<SearchResult>, buckets: Buckets, order: seq<string>, out: seq<SearchResult>,
                  from: seq<nat>, counts: seq<nat>, k: nat)
    requires Prefixes(out, from, counts, buckets, order) && k < |out|
    requires forall e :: Bucket(buckets, e) == Filter(results, HasLabel(e))
    ensures from[k] < |order| && Label(out[k]) == order[from[k]]
  {
    var name := order[from[k]];
    TakenMember(out, from, k);
    assert Taken(out, from, from[k]) == Bucket(buckets, name)[..counts[from[k]]];
    assert out[k] in Bucket(buckets, name);
    FilterMember(results, HasLabel(name), out[k]);
  }

  ghost predicate IsPrefixOf(out: seq<SearchResult>, results: seq<SearchResult>, name: string, n: nat) {
    n <= |Filter(results, HasLabel(name))| && Filter(out, HasLabel(name)) == Filter(results, HasLabel(name))[..n]
  }

  lemma PrefixCounted(out: seq<SearchResult>, results: seq<SearchResult>, name: string, n: nat)
    requires IsPrefixOf(out, results, name, n)
    ensures n == |Filter(out, HasLabel(name))| && Filter(out, HasLabel(name)) <= Filter(results, HasLabel(name))
  {}

  lemma EvenByLabel(results: seq<SearchResult>, buckets: Buckets, order: seq<string>, out: seq<SearchResult>,
                    from: seq<nat>, counts: seq<nat>)
    requires NoDuplicates(order) && Prefixes(out, from, counts, buckets, order)
    requires forall r :: r in results ==> Label(r) in order
    requires forall e :: Bucket(buckets, e) == Filter(results, HasLabel(e))
    ensures Sizes(buckets, order) == LabelCounts(results, order) && SumNat(Sizes(buckets, order)) == |results|
    ensures counts == LabelCounts(out, order)
    ensures forall a :: 0 <= a < |order| ==> Filter(out, HasLabel(order[a])) <= Filter(results, HasLabel(order[a]))
  {
    hide Filter, Taken, Bucket, SumNat, Prefixes, IsPrefixOf, NoDuplicates, Label;
    LabelsPartition(results, order);
    assert Sizes(buckets, order) == LabelCounts(results, order);
    PrefixesLengths(out, from, counts, buckets, order);
    forall a | 0 <= a < |order|
      ensures counts[a] == |Filter(out, HasLabel(order[a]))|
      ensures Filter(out, HasLabel(order[a])) <= Filter(results, HasLabel(order[a]))
    {
      LabelPrefix(results, buckets, order, out, from, counts, a);
      PrefixCounted(out, results, order[a], counts[a]);
    }
  }

  lemma OutInOrder(results: seq<SearchResult>, buckets: Buckets, order: seq<string>, out: seq<SearchResult>,
                   from: seq<nat>, counts: seq<nat>)
    requires Prefixes(out, from, counts, buckets, order)
    requires forall e :: Bucket(buckets, e) == Filter(results, HasLabel(e))
    ensures forall r :: r in out ==> Label(r) in order
  {
    hide Filter, Prefixes, Bucket, Label;
    PrefixesLengths(out, from, counts, buckets, order);
    forall k | 0 <= k < |out| ensures Label(out[k]) in order {
      OutLabels(results, buckets, order, out, from, counts, k);
    }
  }

  /** What was taken so far from each engine is what so far carries its label. */
  lemma TallyIsLabels(out: seq<SearchResult>, from: seq<nat>, order: seq<string>, k: nat)
    requires |out| == |from| && NoDuplicates(order) && k <= |out|
    requires forall j :: 0 <= j < |out| ==> from[j] < |order| && Label(out[j]) == order[from[j]]
    ensures Tally(from[..k], |order|) == LabelCounts(out[..k], order)
  {
    hide Label, Filter, Taken;
    forall a | 0 <= a < |order| ensures CountOf(from[..k], a) == |Filter(out[..k], HasLabel(order[a]))| {
      CountTaken(out[..k], from[..k], a);
      TakenIsLabelled(out[..k], from[..k], order, a);
    }
  }

  /** Results dealt out by engine position are dealt out by label. */
  lemma DealtByLabel(results: seq<SearchResult>, buckets: Buckets, order: seq<string>, out: seq<SearchResult>,
                     from: seq<nat>, counts: seq<nat>, sizes: seq<nat>)
    requires NoDuplicates(order) && Prefixes(out, from, counts, buckets, order) &&
             Dealt(from, sizes) && |sizes| == |order|
    requires forall e :: Bucket(buckets, e) == Filter(results, HasLabel(e))
    ensures FairAlong(out, order, sizes)
  {
    hide Prefixes, Bucket, Filter, Label, LabelCounts, Tally, FairSoFar;
    PrefixesLengths(out, from, counts, buckets, order);
    forall j | 0 <= j < |out| ensures from[j] < |order| && Label(out[j]) == order[from[j]] {
      OutLabels(results, buckets, order, out, from, counts, j);
    }
    forall k: nat | k <= |out| ensures FairSoFar(LabelCounts(out[..k], order), sizes) {
      TallyIsLabels(out, from, order, k);
    }
  }

  /** What the distribution takes is an even share. */
  lemma DistributesEvenly(results: seq<SearchResult>, buckets: Buckets, engineNames: seq<string>,
                          out: seq<SearchResult>, from: seq<nat>, counts: seq<nat>, limit: int)
    requires |results| > limit && forall e :: Bucket(buckets, e) == Filter(results, HasLabel(e))
    requires var order := EngineOrder(engineNames, results);
             && |out| == Min(Max(limit, 0), SumNat(Sizes(buckets, order)))
             && Prefixes(out, from, counts, buckets, order) && Even(counts, Sizes(buckets, order))
             && Dealt(from, Sizes(buckets, order))
    ensures EvenShare(out, results, limit, engineNames)
  {
    hide Filter, Prefixes, Bucket, Label, Even, SumNat, LabelCounts, Sizes, NoDuplicates, EngineOrder, Dealt, FairAlong;
    var order := EngineOrder(engineNames, results);
    EngineOrderFacts(engineNames, results);
    EvenByLabel(results, buckets, order, out, from, counts);
    OutInOrder(results, buckets, order, out, from, counts);
    assert |Sizes(buckets, order)| == |order| by { SizesLength(buckets, order); }
    DealtByLabel(results, buckets, order, out, from, counts, Sizes(buckets, order));
  }

  lemma SizesLength(buckets: Buckets, order: seq<string>)
    ensures |Sizes(buckets, order)| == |order|
  {}

  lemma PrefixesLengths(out: seq<SearchResult>, from: seq<nat>, counts: seq<nat>, buckets: Buckets, order: seq<string>)
    requires Prefixes(out, from, counts, buckets, order)
    ensures |counts| == |order| && |out| == |from|
  {}

  lemma LabelPrefix(results: seq<SearchResult>, buckets: Buckets, order: seq<string>, out: seq<SearchResult>,
                    from: seq<nat>, counts: seq<nat>, a: nat)
    requires NoDuplicates(order) && Prefixes(out, from, counts, buckets, order) && a < |order| == |counts|
    requires forall e :: Bucket(buckets, e) == Filter(results, HasLabel(e))
    ensures IsPrefixOf(out, results, order[a], counts[a])
  {
    hide Filter, Taken, Bucket, SumNat;
    forall k | 0 <= k < |out| ensures from[k] < |order| && Label(out[k]) == order[from[k]] {
      OutLabels(results, buckets, order, out, from, counts, k);
    }
    TakenIsLabelled(out, from, order, a);
    assert Taken(out, from, a) == Bucket(buckets, order[a])[..counts[a]];
  }

  // ---- the merge ----

  ghost predicate KnownEngines(cfg: Config, arrivals: seq<Arrival>) {
    forall k :: 0 <= k < |arrivals| ==> arrivals[k].index < |cfg.engineNames|
  }

  lemma CollectedKnown(cfg: Config, arrivals: seq<Arrival>)
    requires KnownEngines(cfg, arrivals)
    ensures KnownEngines(cfg, Collected(arrivals))
  {
    CollectedMembers(arrivals);
    var c := Collected(arrivals);
    forall k | 0 <= k < |c| ensures c[k].index < |cfg.engineNames| {
      assert c[k] in c;
    }
  }

  ghost function ShapedAll(cfg: Config, arrivals: seq<Arrival>): seq<SearchResult>
    requires KnownEngines(cfg, arrivals)
  {
    if arrivals == [] then []
    else ShapedAll(cfg, arrivals[..|arrivals| - 1]) + Shaped(cfg, arrivals[|arrivals| - 1])
  }

  function FileBucket(cfg: Config, a: Arrival, unique: seq<SearchResult>): ScoreBucket
    requires a.index < |cfg.engineNames|
  {
    var name := cfg.engineNames[a.index];
    ScoreBucket(name, FilterOf(cfg, name).weight, unique)
  }

  ghost function BucketsOf(cfg: Config, arrivals: seq<Arrival>): seq<ScoreBucket>
    requires KnownEngines(cfg, arrivals)
  {
    seq(|arrivals|, i requires 0 <= i < |arrivals| => FileBucket(cfg, arrivals[i], Shaped(cfg, arrivals[i])))
  }

  /** Some sort by descending score; which of equal scores comes first is not fixed. */
  method SortByScore(s: seq<SearchResult>) returns (t: seq<SearchResult>)
    ensures multiset(t) == multiset(s) && SortedDesc(t, ScoreOf()) && |t| == |s|
  {
    t := SortDesc(s, ScoreOf());
    SortDescCorrect(s, ScoreOf());
  }

  /** The best n results: out and the dropped rest make up s, and no dropped result has a higher
      score than a kept one. */
  ghost predicate BestOf(out: seq<SearchResult>, dropped: seq<SearchResult>, s: seq<SearchResult>, n: nat) {
    && |out| == n && multiset(out) + multiset(dropped) == multiset(s) && SortedDesc(out, ScoreOf())
    && forall i, k :: 0 <= i < |dropped| && 0 <= k < n ==> dropped[i].score <= out[k].score
  }

  lemma SortedPrefixBest(t: seq<SearchResult>, s: seq<SearchResult>, n: nat)
    requires multiset(t) == multiset(s) && SortedDesc(t, ScoreOf()) && n <= |t|
    ensures BestOf(t[..n], t[n..], s, n)
  {
    assert t == t[..n] + t[n..];
    forall i, k | 0 <= i < |t[n..]| && 0 <= k < n ensures t[n..][i].score <= t[..n][k].score {
      assert ScoreOf()(t[n + i]) <= ScoreOf()(t[k]);
    }
    forall i, j | 0 <= i < j < n ensures ScoreOf()(t[..n][i]) >= ScoreOf()(t[..n][j]) {
      assert ScoreOf()(t[i]) >= ScoreOf()(t[j]);
    }
  }

  /** Empties the channel: successes in arrival order, and one summary per failure. */
  method Collect(cfg: Config, arrivals: seq<Arrival>) returns (allResults: seq<Arrival>, errSummaries: seq<string>)
    requires KnownEngines(cfg, arrivals)
    ensures allResults == Filter(arrivals, Succeeded()) && |errSummaries| == |arrivals| - |allResults|
  {
    allResults, errSummaries := [], [];
    for i := 0 to |arrivals|
      invariant allResults == Filter(arrivals[..i], Succeeded()) && |errSummaries| == i - |allResults|
    {
      var a := arrivals[i];
      assert arrivals[..i + 1] == arrivals[..i] + [a];
      FilterSnoc(arrivals[..i], a, Succeeded());
      if a.error.Some? {
        errSummaries := errSummaries + [cfg.engineNames[a.index] + ": " + a.error.value];
      } else {
        allResults := allResults + [a];
      }
    }
    assert arrivals[..|arrivals|] == arrivals;
  }

  /** What becomes of the merged list without the enhancement pipeline. */
  ghost predicate CappedTo(cfg: Config, all: seq<SearchResult>, r: Outcome, dropped: seq<SearchResult>) {
    if all == [] then r == NothingFound
    else if cfg.maxSize <= 0 || |all| <= cfg.maxSize then r == Merged(all)
    else
      && r.Merged? && multiset(r.results) <= multiset(all)
      && if exists i :: 0 <= i < |all| && all[i].score > 0.0 then BestOf(r.results, dropped, all, cfg.maxSize)
         else EvenShare(r.results, all, cfg.maxSize, cfg.engineNames)
  }

  method CapMerged(cfg: Config, merged: seq<SearchResult>) returns (r: Outcome, ghost dropped: seq<SearchResult>)
    ensures CappedTo(cfg, merged, r, dropped)
  {
    hide EvenShare, BestOf;
    dropped := [];
    if merged == [] {
      return NothingFound, dropped;
    }
    if cfg.maxSize > 0 && |merged| > cfg.maxSize {
      if HasScore(merged) {
        var sorted := SortByScore(merged);
        SortedPrefixBest(sorted, merged, cfg.maxSize);
        assert multiset(sorted[..cfg.maxSize]) <= multiset(merged) by { PrefixMultiset(sorted[..cfg.maxSize], sorted); }
        return Merged(sorted[..cfg.maxSize]), sorted[cfg.maxSize..];
      }
      var out := RoundRobinByNames(merged, cfg.maxSize, cfg.engineNames);
      return Merged(out), dropped;
    }
    r := Merged(merged);
  }

  /** What becomes of the buckets in the enhancement pipeline: nothing found exactly when the
      ranking is empty, else the ranking's tail, led by its best. */
  ghost predicate EnhancedTo(cfg: Config, en: Enhancer, buckets: seq<ScoreBucket>, r: Outcome, selected: seq<nat>) {
    var ranked := WebEnhance.WebRanked(en.nm, en.sg, buckets);
    if ranked == [] then r == NothingFound
    else
      && r.Merged? && r.results != [] && r.results[0] == ranked[0]
      && WebEnhance.TailOf(ranked, en.threshold, cfg.maxSize, en.mmr, en.tok, r.results, selected)
  }

  method EnhanceBuckets(cfg: Config, en: Enhancer, buckets: seq<ScoreBucket>)
    returns (r: Outcome, ghost selected: seq<nat>)
    ensures EnhancedTo(cfg, en, buckets, r, selected)
  {
    var enhanced;
    enhanced, selected := WebEnhance.EnhanceResultsMMR(en.nm, en.sg, buckets,
      en.threshold, cfg.maxSize, en.mmr, en.tok);
    if WebEnhance.WebRanked(en.nm, en.sg, buckets) == [] {
      WebEnhance.NothingRanked([], en.threshold, cfg.maxSize, en.mmr, en.tok, enhanced, selected);
    }
    hide WebEnhance.WebRanked, WebEnhance.TailOf;
    r := if |enhanced| == 0 then NothingFound else Merged(enhanced);
  }

  /** The merge depends on the arrivals only through Collected: it fails only if every engine did,
      runs the enhancement on the ranked buckets, or dedupes across engines and caps. */
  method MergeResults(cfg: Config, en: Enhancer, arrivals: seq<Arrival>)
    returns (r: Outcome, ghost dropped: seq<SearchResult>, ghost selected: seq<nat>)
    requires KnownEngines(cfg, arrivals)
    ensures var c := Collected(arrivals);
            && KnownEngines(cfg, c)
            && (c == [] <==> r.AllFailed?) && (r.AllFailed? ==> |r.summaries| == |arrivals|)
    ensures var c := Collected(arrivals);
            && (c != [] && cfg.enhance ==> EnhancedTo(cfg, en, BucketsOf(cfg, c), r, selected))
            && (c != [] && !cfg.enhance ==> CappedTo(cfg, FirstByUrl(ShapedAll(cfg, c)), r, dropped))
    ensures Unlimited(cfg, arrivals) ==> AllUrls(arrivals, if r.Merged? then r.results else [])
  {
    if Unlimited(cfg, arrivals) {
      AllUrlsMerged(cfg, arrivals);
    }
    hide CappedTo, EnhancedTo, Unlimited, AllUrls, FirstByUrl, ShapedAll, BucketsOf, Filter;
    dropped, selected := [], [];
    var allResults, errSummaries := Collect(cfg, arrivals);
    CollectedMembers(arrivals);
    CollectedKnown(cfg, arrivals);
    if allResults == [] {
      assert Unlimited(cfg, arrivals) ==> AllUrls(arrivals, []) by { NoSuccessNoUrls(arrivals); }
      return AllFailed(errSummaries), dropped, selected;
    }
    allResults := SortDesc(allResults, ByIndex());
    var merged, buckets := MergeCollected(cfg, allResults);
    if cfg.enhance {
      assert !Unlimited(cfg, arrivals) by { UnlimitedPlain(cfg, arrivals); }
      r, selected := EnhanceBuckets(cfg, en, buckets);
      EnhancedNotFailed(cfg, en, buckets, r, selected);
      return;
    }
    r, dropped := CapMerged(cfg, merged);
    CappedNotFailed(cfg, merged, r, dropped);
    if Unlimited(cfg, arrivals) {
      CappedAll(cfg, arrivals, merged, r, dropped);
    }
  }

  lemma EnhancedNotFailed(cfg: Config, en: Enhancer, buckets: seq<ScoreBucket>, r: Outcome, selected: seq<nat>)
    requires EnhancedTo(cfg, en, buckets, r, selected)
    ensures !r.AllFailed?
  {}

  lemma CappedNotFailed(cfg: Config, all: seq<SearchResult>, r: Outcome, dropped: seq<SearchResult>)
    requires CappedTo(cfg, all, r, dropped)
    ensures !r.AllFailed?
  {}

  /** Every prefix of out has so many full rounds over the engines, and part of the next. */
  ghost predicate FairAlong(out: seq<SearchResult>, order: seq<string>, sizes: seq<nat>) {
    forall k: nat :: k <= |out| ==> FairSoFar(LabelCounts(out[..k], order), sizes)
  }

  /** limit of all results, from each engine a prefix of its own, dealt out one by one in the engines'
      order; that fixes out, so it ends with even counts. */
  ghost predicate EvenShare(out: seq<SearchResult>, all: seq<SearchResult>, limit: int, engineNames: seq<string>) {
    var order := EngineOrder(engineNames, all);
    && |out| == Max(limit, 0) && (forall r :: r in out ==> Label(r) in order)
    && (forall a :: 0 <= a < |order| ==> Filter(out, HasLabel(order[a])) <= Filter(all, HasLabel(order[a])))
    && Even(LabelCounts(out, order), LabelCounts(all, order))
    && FairAlong(out, order, LabelCounts(all, order))
  }

  /** The results of engine e; those that name no engine are the engine "_unknown"'s. */
  function FromEngine(e: string): SearchResult -> bool {
    (r: SearchResult) => r.engine == e || (r.engine == "" && e == "_unknown")
  }

  /** Of engine e's results the first few are given, and unless that is all of them no engine f gets
      more than one more. */
  ghost predicate Served(out: seq<SearchResult>, all: seq<SearchResult>, e: string, f: string) {
    var own, given := Filter(all, FromEngine(e)), Filter(out, FromEngine(e));
    given <= own && (|given| < |own| ==> |Filter(out, FromEngine(f))| <= |given| + 1)
  }

  lemma EngineLabel(s: seq<SearchResult>, e: string)
    requires e != ""
    ensures Filter(s, FromEngine(e)) == Filter(s, HasLabel(e))
  {
    FilterAlike(s, FromEngine(e), HasLabel(e));
  }

  lemma LabelAbsent(s: seq<SearchResult>, order: seq<string>, e: string)
    requires (forall r :: r in s ==> Label(r) in order) && e !in order
    ensures Filter(s, HasLabel(e)) == []
  {
    FilterAll(s, HasLabel(e));
  }

  /** What a share of too many results does for any two engines. */
  lemma EvenShareServes(out: seq<SearchResult>, all: seq<SearchResult>, limit: int, engineNames: seq<string>,
      e: string, f: string)
    requires EvenShare(out, all, limit, engineNames) && e != "" && f != ""
    ensures Served(out, all, e, f)
  {
    hide Filter, Label, EngineOrder, HasLabel, FromEngine, FairAlong;
    var order := EngineOrder(engineNames, all);
    EngineOrderFacts(engineNames, all);
    EngineLabel(all, e);
    EngineLabel(out, e);
    EngineLabel(out, f);
    if e !in order {
      LabelAbsent(all, order, e);
      LabelAbsent(out, order, e);
    } else {
      var a :| 0 <= a < |order| && order[a] == e;
      assert LabelCounts(all, order)[a] == |Filter(all, HasLabel(e))|;
      if f !in order {
        LabelAbsent(out, order, f);
      } else {
        var b :| 0 <= b < |order| && order[b] == f;
        assert LabelCounts(out, order)[b] == |Filter(out, HasLabel(f))|;
      }
    }
  }

  /** A dealt result is the next of its engine's. */
  lemma NextOfEngine(out: seq<SearchResult>, all: seq<SearchResult>, k: nat)
    requires k < |out|
    requires var l := HasLabel(Label(out[k])); Filter(out, l) <= Filter(all, l)
    ensures var own, n := Filter(all, HasLabel(Label(out[k]))), |Filter(out[..k], HasLabel(Label(out[k])))|;
            n < |own| && out[k] == own[n]
  {
    var l := HasLabel(Label(out[k]));
    assert out == out[..k] + [out[k]] + out[k + 1..];
    FilterConcat(out[..k] + [out[k]], out[k + 1..], l);
    FilterSnoc(out[..k], out[k], l);
  }

  /** Two deals that agree so far serve the same engine next. */
  lemma SameEngineNext(a: seq<SearchResult>, b: seq<SearchResult>, order: seq<string>, sizes: seq<nat>, k: nat)
    requires NoDuplicates(order) && k < |a| && k < |b| && a[..k] == b[..k]
    requires (forall r :: r in a ==> Label(r) in order) && (forall r :: r in b ==> Label(r) in order)
    requires FairAlong(a, order, sizes) && FairAlong(b, order, sizes)
    ensures Label(a[k]) == Label(b[k])
  {
    hide Label, FairSoFar, SumNat, LabelCounts;
    assert a[..k + 1] == a[..k] + [a[k]] && b[..k + 1] == b[..k] + [b[k]];
    LabelsPartition(a[..k + 1], order);
    LabelsPartition(b[..k + 1], order);
    FairUnique(LabelCounts(a[..k + 1], order), LabelCounts(b[..k + 1], order), sizes);
    assert Label(a[k]) in order && Label(b[k]) in order;
    var i :| 0 <= i < |order| && order[i] == Label(a[k]);
    var j :| 0 <= j < |order| && order[j] == Label(b[k]);
    LabelCountsSnoc(a[..k], a[k], order, i);
    LabelCountsSnoc(b[..k], b[k], order, j);
    LabelCountsLength(a[..k], order);
    var c := LabelCounts(a[..k], order);
    assert c[i := c[i] + 1][i] == c[j := c[j] + 1][i];
  }

  lemma LabelCountsLength(s: seq<SearchResult>, order: seq<string>)
    ensures |LabelCounts(s, order)| == |order|
  {}

  /** There is one even share, so its definition fixes the answer. */
  lemma EvenShareUnique(a: seq<SearchResult>, b: seq<SearchResult>, all: seq<SearchResult>, limit: int,
                        engineNames: seq<string>)
    requires EvenShare(a, all, limit, engineNames) && EvenShare(b, all, limit, engineNames)
    ensures a == b
  {
    EvenShareAgree(a, b, all, limit, engineNames, |a|);
    assert a[..|a|] == a && b[..|b|] == b;
  }

  lemma {:induction false} EvenShareAgree(a: seq<SearchResult>, b: seq<SearchResult>, all: seq<SearchResult>,
                                          limit: int, engineNames: seq<string>, k: nat)
    requires EvenShare(a, all, limit, engineNames) && EvenShare(b, all, limit, engineNames) && k <= |a|
    ensures |a| == |b| && a[..k] == b[..k]
  {
    hide Label, Filter, FairAlong, LabelCounts, EngineOrder, Even;
    if k > 0 {
      var order := EngineOrder(engineNames, all);
      EngineOrderFacts(engineNames, all);
      EvenShareAgree(a, b, all, limit, engineNames, k - 1);
      SameEngineNext(a, b, order, LabelCounts(all, order), k - 1);
      assert Label(a[k - 1]) in order;
      NextOfEngine(a, all, k - 1);
      NextOfEngine(b, all, k - 1);
      assert a[..k] == a[..k - 1] + [a[k - 1]] && b[..k] == b[..k - 1] + [b[k - 1]];
    }
  }

  /** The merge sees exactly the successes, a lower engine index first. */
  lemma CollectedInOrder(arrivals: seq<Arrival>)
    ensures multiset(Collected(arrivals)) == multiset(Filter(arrivals, Succeeded()))
    ensures forall a :: a in Collected(arrivals) <==> a in arrivals && a.error.None?
    ensures var c := Collected(arrivals); forall i, j :: 0 <= i < j < |c| ==> c[i].index <= c[j].index
  {
    CollectedMembers(arrivals);
    SortDescCorrect(Filter(arrivals, Succeeded()), ByIndex());
    var c := Collected(arrivals);
    forall i, j | 0 <= i < j < |c| ensures c[i].index <= c[j].index {
      assert ByIndex()(c[i]) >= ByIndex()(c[j]);
    }
  }

  /** No cap or minimum is in force on any success. */
  ghost predicate Unlimited(cfg: Config, arrivals: seq<Arrival>) {
    && KnownEngines(cfg, arrivals) && !cfg.enhance && cfg.maxSize <= 0
    && forall a :: a in arrivals && a.error.None? && a.index < |cfg.engineNames| ==>
         var name := cfg.engineNames[a.index];
         if name in cfg.filters
         then cfg.filters[name].minScore <= 0.0
               && (cfg.filters[name].maxSize >= |a.results|
                   || (cfg.filters[name].maxSize <= 0 && |a.results| <= 4))
         else |a.results| <= 4
  }

  lemma FirstByUrlShorter(s: seq<SearchResult>)
    ensures |FirstByUrl(s)| <= |s|
  {}

  lemma AllOfEngine(cfg: Config, a: Arrival)
    requires Unlimited(cfg, [a]) && a.error.None?
    ensures a.index < |cfg.engineNames| && Shaped(cfg, a) == FirstByUrl(a.results)
  {
    assert [a][0] == a && a in [a];
    var name := cfg.engineNames[a.index];
    var ef := FilterOf(cfg, name);
    FirstByUrlShorter(a.results);
    hide FirstByUrl;
    ContributionExact(cfg, a, ef.minScore, ef.maxSize, ef.weight, FirstByUrl(a.results),
      if ef.maxSize > 0 then ef.maxSize else 4);
  }

  lemma {:induction false} ShapedAllKeeps(cfg: Config, c: seq<Arrival>, a: Arrival, r: SearchResult)
    requires KnownEngines(cfg, c) && a in c && r in Shaped(cfg, a)
    ensures r in ShapedAll(cfg, c)
  {
    hide Shaped;
    var n := |c| - 1;
    if a == c[n] {
      assert r in Shaped(cfg, c[n]);
    } else {
      assert a in c[..n] by {
        var i :| 0 <= i < |c| && c[i] == a;
        assert c[..n][i] == a;
      }
      ShapedAllKeeps(cfg, c[..n], a, r);
    }
  }

  /** Without caps and minimums every URL of every success is in the merged list. */
  lemma NothingLost(cfg: Config, arrivals: seq<Arrival>, a: Arrival, r: SearchResult)
    requires Unlimited(cfg, arrivals) && a in arrivals && a.error.None? && r in a.results
    ensures KnownEngines(cfg, Collected(arrivals))
    ensures Trimmed(r) in Urls(FirstByUrl(ShapedAll(cfg, Collected(arrivals))))
  {
    CollectedKnown(cfg, arrivals);
    CollectedMembers(arrivals);
    assert Unlimited(cfg, [a]);
    AllOfEngine(cfg, a);
    hide Collected, ShapedAll, Shaped, FirstByUrl, Trimmed, Unlimited;
    FirstByUrlMeans(a.results);
    var j :| 0 <= j < |a.results| && a.results[j] == r;
    UrlsMember(a.results, Trimmed(r));
    var own := FirstByUrl(a.results);
    UrlsMember(own, Trimmed(r));
    var i :| 0 <= i < |own| && Trimmed(own[i]) == Trimmed(r);
    var all := ShapedAll(cfg, Collected(arrivals));
    ShapedAllKeeps(cfg, Collected(arrivals), a, own[i]);
    var k :| 0 <= k < |all| && all[k] == own[i];
    UrlsMember(all, Trimmed(r));
    FirstByUrlMeans(all);
  }

  /** Every URL of every success is in s. */
  ghost predicate AllUrls(arrivals: seq<Arrival>, s: seq<SearchResult>) {
    forall a, r :: a in arrivals && a.error.None? && r in a.results ==> Trimmed(r) in Urls(s)
  }

  lemma AllUrlsMerged(cfg: Config, arrivals: seq<Arrival>)
    requires Unlimited(cfg, arrivals)
    ensures KnownEngines(cfg, Collected(arrivals))
    ensures AllUrls(arrivals, FirstByUrl(ShapedAll(cfg, Collected(arrivals))))
  {
    CollectedKnown(cfg, arrivals);
    hide Collected, ShapedAll, FirstByUrl, Trimmed, Urls, Unlimited;
    forall a, r | a in arrivals && a.error.None? && r in a.results
      ensures Trimmed(r) in Urls(FirstByUrl(ShapedAll(cfg, Collected(arrivals))))
    {
      NothingLost(cfg, arrivals, a, r);
    }
  }

  lemma UnlimitedPlain(cfg: Config, arrivals: seq<Arrival>)
    ensures Unlimited(cfg, arrivals) ==> !cfg.enhance && cfg.maxSize <= 0
  {}

  lemma CappedAll(cfg: Config, arrivals: seq<Arrival>, all: seq<SearchResult>, r: Outcome, dropped: seq<SearchResult>)
    requires Unlimited(cfg, arrivals) && CappedTo(cfg, all, r, dropped) && AllUrls(arrivals, all)
    ensures AllUrls(arrivals, if r.Merged? then r.results else [])
  {}

  lemma NoSuccessNoUrls(arrivals: seq<Arrival>)
    requires Filter(arrivals, Succeeded()) == []
    ensures AllUrls(arrivals, [])
  {
    forall a | a in arrivals ensures a.error.Some? {
      FilterMember(arrivals, Succeeded(), a);
    }
  }

  lemma CollectedMembers(arrivals: seq<Arrival>)
    ensures forall a :: a in Collected(arrivals) <==> a in arrivals && a.error.None?
    ensures Collected(arrivals) == [] <==> Filter(arrivals, Succeeded()) == []
  {
    SortDescMembers(Filter(arrivals, Succeeded()), ByIndex());
    forall a ensures a in Collected(arrivals) <==> a in arrivals && a.error.None? {
      FilterMember(arrivals, Succeeded(), a);
    }
  }

  /** The per-engine loop: shapes each answer, files it as a bucket, and merges new URLs. */
  method MergeCollected(cfg: Config, c: seq<Arrival>) returns (merged: seq<SearchResult>, buckets: seq<ScoreBucket>)
    requires KnownEngines(cfg, c)
    ensures merged == FirstByUrl(ShapedAll(cfg, c))
    ensures cfg.enhance ==> buckets == BucketsOf(cfg, c)
  {
    hide FirstByUrl, Urls, Shaped, FileBucket, ShapedAll, BucketsOf, Filed;
    merged, buckets := [], [];
    var seen: set<string> := {};
    NothingMerged(cfg, c);
    for i := 0 to |c|
      invariant merged == FirstByUrl(ShapedAll(cfg, c[..i])) && seen == Urls(merged)
      invariant cfg.enhance ==> Filed(cfg, c, buckets, i)
    {
      var unique := ShapeEngine(cfg, c[i]);
      if cfg.enhance {
        FiledNext(cfg, c, buckets, i);
        buckets := buckets + [FileBucket(cfg, c[i], unique)];
      }
      merged, seen := AppendNew(merged, seen, unique, ShapedAll(cfg, c[..i]));
      ShapedAllSnoc(cfg, c, i);
    }
    assert c[..|c|] == c;
    if cfg.enhance {
      BucketsAre(cfg, c, buckets);
    }
  }

  /** The first n answers are filed as buckets. */
  ghost predicate Filed(cfg: Config, c: seq<Arrival>, buckets: seq<ScoreBucket>, n: nat)
    requires KnownEngines(cfg, c) && n <= |c|
  {
    |buckets| == n && forall k :: 0 <= k < n ==> buckets[k] == FileBucket(cfg, c[k], Shaped(cfg, c[k]))
  }

  lemma NothingMerged(cfg: Config, c: seq<Arrival>)
    requires KnownEngines(cfg, c)
    ensures FirstByUrl(ShapedAll(cfg, c[..0])) == [] && Urls([]) == {} && Filed(cfg, c, [], 0)
  {}

  lemma FiledNext(cfg: Config, c: seq<Arrival>, buckets: seq<ScoreBucket>, n: nat)
    requires KnownEngines(cfg, c) && n < |c| && Filed(cfg, c, buckets, n)
    ensures Filed(cfg, c, buckets + [FileBucket(cfg, c[n], Shaped(cfg, c[n]))], n + 1)
  {
    hide FileBucket, Shaped;
  }

  lemma BucketsAre(cfg: Config, c: seq<Arrival>, buckets: seq<ScoreBucket>)
    requires KnownEngines(cfg, c)
    requires Filed(cfg, c, buckets, |c|)
    ensures buckets == BucketsOf(cfg, c)
  {}

  lemma ShapedAllSnoc(cfg: Config, c: seq<Arrival>, i: nat)
    requires i < |c| && KnownEngines(cfg, c)
    ensures ShapedAll(cfg, c[..i + 1]) == ShapedAll(cfg, c[..i]) + Shaped(cfg, c[i])
  {
    assert c[..i + 1][..i] == c[..i];
  }

  method AppendNew(merged0: seq<SearchResult>, seen0: set<string>, unique: seq<SearchResult>,
                   ghost before: seq<SearchResult>)
    returns (merged: seq<SearchResult>, seen: set<string>)
    requires merged0 == FirstByUrl(before) && seen0 == Urls(merged0)
    ensures merged == FirstByUrl(before + unique) && seen == Urls(merged)
  {
    hide FirstByUrl, Urls, Trimmed;
    merged, seen := merged0, seen0;
    assert before + unique[..0] == before;
    for k := 0 to |unique|
      invariant merged == FirstByUrl(before + unique[..k]) && seen == Urls(merged)
    {
      assert before + unique[..k + 1] == before + unique[..k] + [unique[k]];
      FirstByUrlSnoc(before + unique[..k], unique[k]);
      UrlsSnoc(merged, unique[k]);
      var u := Trimmed(unique[k]);
      if u in seen {
        continue;
      }
      seen := seen + {u};
      merged := merged + [unique[k]];
    }
    assert unique[..|unique|] == unique;
  }
}
