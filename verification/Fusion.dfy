/** Rank fusion over two indexes at once: a result joins the entry its DOI key leads to, else the
    one its URL key leads to, else starts a new entry. Entries are positions in `aggs`. */
module Fusion {
  import opened Core
  import opened Seqs
  import opened Text

  const RRF_K: real := 60.0

  datatype Agg = Agg(res: SearchResult, rrf: real, engineOrder: seq<string>)

  /** One ranked result of one engine, with the engine's effective weight. */
  datatype Hit = Hit(engine: string, weight: real, rank: nat, result: SearchResult)

  datatype Table = Table(aggs: seq<Agg>, byDoi: map<string, nat>, byUrl: map<string, nat>)

  const EMPTY: Table := Table([], map[], map[])

  function EffectiveWeight(w: real): real {
    if w <= 0.0 then 1.0 else w
  }

  function Share(weight: real, rank: nat): real {
    weight * (1.0 / (RRF_K + rank as real))
  }

  function HitAt(b: ScoreBucket, rank: nat): Hit
    requires rank < |b.results|
  {
    Hit(b.name, EffectiveWeight(b.weight), rank, b.results[rank])
  }

  /** The first k hits of a bucket. */
  function BucketHits(b: ScoreBucket, k: nat): seq<Hit>
    requires k <= |b.results|
  {
    if k == 0 then [] else BucketHits(b, k - 1) + [HitAt(b, k - 1)]
  }

  /** Every hit, bucket after bucket. */
  function Hits(buckets: seq<ScoreBucket>): seq<Hit> {
    if buckets == [] then []
    else var b := buckets[|buckets| - 1]; Hits(buckets[..|buckets| - 1]) + BucketHits(b, |b.results|)
  }

  predicate Keyed(nm: Normalizer, h: Hit) {
    nm.DoiKey(h.result) != "" || nm.UrlKey(h.result) != ""
  }

  /** Where a result belongs: its DOI entry, else its URL entry, else a new one. */
  function Locate(nm: Normalizer, t: Table, r: SearchResult): nat {
    var d, u := nm.DoiKey(r), nm.UrlKey(r);
    if d in t.byDoi then t.byDoi[d] else if u in t.byUrl then t.byUrl[u] else |t.aggs|
  }

  function MergeMetadata(a: SearchResult, r: SearchResult): SearchResult {
    a.(content := if ByteLength(r.content) > ByteLength(a.content) then r.content else a.content,
       title := if a.title == "" then r.title else a.title,
       publishDate := if a.publishDate == "" then r.publishDate else a.publishDate,
       citedBy := if r.citedBy > a.citedBy then r.citedBy else a.citedBy,
       journal := if a.journal == "" then r.journal else a.journal,
       pdfUrl := if a.pdfUrl == "" then r.pdfUrl else a.pdfUrl,
       doi := if a.doi == "" then r.doi else a.doi)
  }

  function MergeText(a: SearchResult, r: SearchResult): SearchResult {
    a.(content := if ByteLength(r.content) > ByteLength(a.content) then r.content else a.content,
       title := if a.title == "" then r.title else a.title,
       publishDate := if a.publishDate == "" then r.publishDate else a.publishDate)
  }

  function Absorb(a: Agg, h: Hit): Agg {
    Agg(MergeMetadata(a.res, h.result), a.rrf + Share(h.weight, h.rank),
        if h.engine in a.engineOrder then a.engineOrder else a.engineOrder + [h.engine])
  }

  /** The web pipeline's version, which merges less metadata. */
  function AbsorbText(a: Agg, h: Hit): Agg {
    Agg(MergeText(a.res, h.result), a.rrf + Share(h.weight, h.rank),
        if h.engine in a.engineOrder then a.engineOrder else a.engineOrder + [h.engine])
  }

  function Put(m: map<string, nat>, k: string, v: nat): map<string, nat> {
    if k == "" then m else m[k := v]
  }

  function AddHit(nm: Normalizer, t: Table, h: Hit): Table {
    if !Keyed(nm, h) then t
    else
      var r, i := h.result, Locate(nm, t, h.result);
      Table(if i < |t.aggs| then t.aggs[i := Absorb(t.aggs[i], h)] else t.aggs + [Absorb(Agg(r, 0.0, []), h)],
            Put(t.byDoi, nm.DoiKey(r), i), Put(t.byUrl, nm.UrlKey(r), i))
  }

  function Fuse(nm: Normalizer, hits: seq<Hit>): Table {
    if hits == [] then EMPTY else AddHit(nm, Fuse(nm, hits[..|hits| - 1]), hits[|hits| - 1])
  }

  // ---- the two-index invariant ----

  ghost predicate InRange(t: Table) {
    && "" !in t.byDoi && "" !in t.byUrl
    && (forall d :: d in t.byDoi ==> t.byDoi[d] < |t.aggs|)
    && (forall u :: u in t.byUrl ==> t.byUrl[u] < |t.aggs|)
  }

  /** Entry i is reachable: its DOI key leads to it and to nothing else, and its URL key is taken
      (perhaps, after re-pointing, by another entry); one of the two is there. */
  ghost predicate EntryIndexed(nm: Normalizer, t: Table, i: nat)
    requires i < |t.aggs|
  {
    var r := t.aggs[i].res;
    && (nm.DoiKey(r) != "" ==> nm.DoiKey(r) in t.byDoi && t.byDoi[nm.DoiKey(r)] == i)
    && (nm.UrlKey(r) != "" ==> nm.UrlKey(r) in t.byUrl)
    && (nm.DoiKey(r) != "" || nm.UrlKey(r) != "")
  }

  ghost predicate UrlsDistinct(nm: Normalizer, t: Table) {
    forall i, j :: 0 <= i < j < |t.aggs| && nm.UrlKey(t.aggs[i].res) == nm.UrlKey(t.aggs[j].res)
      ==> nm.UrlKey(t.aggs[i].res) == ""
  }

  ghost predicate Indexed(nm: Normalizer, t: Table) {
    && InRange(t) && UrlsDistinct(nm, t)
    && forall i :: 0 <= i < |t.aggs| ==> EntryIndexed(nm, t, i)
  }

  lemma AddHitIndexed(nm: Normalizer, t: Table, h: Hit)
    requires nm.Valid() && Indexed(nm, t)
    ensures Indexed(nm, AddHit(nm, t, h))
  {
    if Keyed(nm, h) {
      AddHitEntries(nm, t, h);
      AddHitUrls(nm, t, h);
    }
  }

  lemma AddHitEntries(nm: Normalizer, t: Table, h: Hit)
    requires nm.Valid() && Indexed(nm, t) && Keyed(nm, h)
    ensures var t' := AddHit(nm, t, h); InRange(t') && forall k :: 0 <= k < |t'.aggs| ==> EntryIndexed(nm, t', k)
  {
    var t' := AddHit(nm, t, h);
    AddHitInRange(nm, t, h);
    hide AddHit, Indexed, EntryIndexed, Locate;
    forall k | 0 <= k < |t'.aggs| ensures EntryIndexed(nm, t', k) {
      if k == Locate(nm, t, h.result) {
        AddHitOwner(nm, t, h);
      } else {
        AddHitOther(nm, t, h, k);
      }
    }
  }

  lemma AddHitInRange(nm: Normalizer, t: Table, h: Hit)
    requires Indexed(nm, t) && Keyed(nm, h)
    ensures InRange(AddHit(nm, t, h)) && |AddHit(nm, t, h).aggs| == Max(|t.aggs|, Locate(nm, t, h.result) + 1)
    ensures Locate(nm, t, h.result) <= |t.aggs|
  {
    hide Share, UrlsDistinct, MergeMetadata;
  }

  /** The entry that takes the hit is indexed afterwards. */
  lemma AddHitOwner(nm: Normalizer, t: Table, h: Hit)
    requires nm.Valid() && Indexed(nm, t) && Keyed(nm, h)
    ensures var t', i := AddHit(nm, t, h), Locate(nm, t, h.result); i < |t'.aggs| && EntryIndexed(nm, t', i)
  {
    hide Share, UrlsDistinct;
    var i := Locate(nm, t, h.result);
    if i < |t.aggs| {
      assert EntryIndexed(nm, t, i);
    }
  }

  /** Any entry but the one that takes the hit stays indexed: its DOI key leads to it still, or the hit
      would have come to it. */
  lemma AddHitOther(nm: Normalizer, t: Table, h: Hit, k: nat)
    requires Indexed(nm, t) && Keyed(nm, h) && k < |t.aggs| && k != Locate(nm, t, h.result)
    ensures k < |AddHit(nm, t, h).aggs| && EntryIndexed(nm, AddHit(nm, t, h), k)
  {
    hide Share, UrlsDistinct, MergeMetadata;
    assert EntryIndexed(nm, t, k);
  }

  lemma AddHitUrls(nm: Normalizer, t: Table, h: Hit)
    requires nm.Valid() && Indexed(nm, t) && Keyed(nm, h)
    ensures UrlsDistinct(nm, AddHit(nm, t, h))
  {
    hide Share, Put;
    var t' := AddHit(nm, t, h);
    forall k, l | 0 <= k < l < |t'.aggs| && nm.UrlKey(t'.aggs[k].res) == nm.UrlKey(t'.aggs[l].res)
      ensures nm.UrlKey(t'.aggs[k].res) == ""
    {
      assert nm.UrlKey(t'.aggs[k].res) == nm.UrlKey(t.aggs[k].res);
      assert EntryIndexed(nm, t, k);
      if l < |t.aggs| {
        assert nm.UrlKey(t'.aggs[l].res) == nm.UrlKey(t.aggs[l].res);
      }
    }
  }

  lemma {:induction false} FuseIndexed(nm: Normalizer, hits: seq<Hit>)
    requires nm.Valid()
    ensures Indexed(nm, Fuse(nm, hits))
  {
    if hits != [] {
      FuseIndexed(nm, hits[..|hits| - 1]);
      AddHitIndexed(nm, Fuse(nm, hits[..|hits| - 1]), hits[|hits| - 1]);
    }
  }

  function Entries(t: Table): seq<SearchResult> {
    seq(|t.aggs|, i requires 0 <= i < |t.aggs| => t.aggs[i].res)
  }

  /** After any sequence of buckets the entries have pairwise disjoint, non-empty key sets. */
  lemma FusedKeysDisjoint(nm: Normalizer, hits: seq<Hit>)
    requires nm.Valid()
    ensures SeparateKeys(nm, Entries(Fuse(nm, hits)))
  {
    var t := Fuse(nm, hits);
    FuseIndexed(nm, hits);
    forall i, j | 0 <= i < |t.aggs| && 0 <= j < |t.aggs| && i != j
      ensures !SharesKey(nm, t.aggs[i].res, t.aggs[j].res) {
      assert EntryIndexed(nm, t, i) && EntryIndexed(nm, t, j);
      SharesKeyMeans(nm, t.aggs[i].res, t.aggs[j].res);
    }
    forall i | 0 <= i < |t.aggs| ensures ResultKeys(nm, t.aggs[i].res) != [] {
      assert EntryIndexed(nm, t, i);
    }
  }

  // ---- which entry owns which hit ----

  /** The hits of the prefix that were merged into entry i, in order. */
  function Members(nm: Normalizer, hits: seq<Hit>, i: nat): seq<Hit> {
    if hits == [] then []
    else
      var init, h := hits[..|hits| - 1], hits[|hits| - 1];
      Members(nm, init, i) + if Keyed(nm, h) && Locate(nm, Fuse(nm, init), h.result) == i then [h] else []
  }

  /** One entry built from the hits it owns. */
  function Gather(members: seq<Hit>): Agg
    requires members != []
  {
    var n := |members| - 1;
    if n == 0 then Absorb(Agg(members[0].result, 0.0, []), members[0]) else Absorb(Gather(members[..n]), members[n])
  }

  lemma GatherSnoc(m: seq<Hit>, h: Hit)
    ensures Gather(m + [h]) == if m == [] then Absorb(Agg(h.result, 0.0, []), h) else Absorb(Gather(m), h)
  {
    assert (m + [h])[..|m|] == m;
  }

  /** The two-index merge is a partition: each entry is exactly the merge of the hits it owns. */
  lemma {:induction false} EntriesGather(nm: Normalizer, hits: seq<Hit>, i: nat)
    requires nm.Valid()
    ensures i < |Fuse(nm, hits).aggs| <==> Members(nm, hits, i) != []
    ensures i < |Fuse(nm, hits).aggs| ==> Fuse(nm, hits).aggs[i] == Gather(Members(nm, hits, i))
  {
    if hits != [] {
      var init, h := hits[..|hits| - 1], hits[|hits| - 1];
      EntriesGather(nm, init, i);
      FuseIndexed(nm, init);
      var t, m := Fuse(nm, init), Members(nm, init, i);
      assert Fuse(nm, hits) == AddHit(nm, t, h);
      if Keyed(nm, h) && Locate(nm, t, h.result) == i {
        GatherSnoc(m, h);
        assert Members(nm, hits, i) == m + [h];
      } else {
        assert Members(nm, hits, i) == m;
      }
    }
  }

  ghost predicate HitBy(members: seq<Hit>, e: string) {
    exists k :: 0 <= k < |members| && members[k].engine == e
  }

  lemma HitBySnoc(m: seq<Hit>, h: Hit, e: string)
    ensures HitBy(m + [h], e) <==> HitBy(m, e) || h.engine == e
  {
    assert (m + [h])[|m|] == h;
    if HitBy(m, e) {
      var k :| 0 <= k < |m| && m[k].engine == e;
      assert (m + [h])[k].engine == e;
    }
  }

  /** What an entry's fields mean: its fused rank is the sum of its hits' shares, and its engines
      are those that hit it, once each. */
  lemma {:induction false} GatherCounts(members: seq<Hit>)
    requires members != []
    ensures Gather(members).rrf == SumShares(members)
    ensures NoDuplicates(Gather(members).engineOrder)
    ensures forall e :: e in Gather(members).engineOrder <==> HitBy(members, e)
  {
    hide MergeMetadata, Share;
    var n := |members| - 1;
    assert members == members[..n] + [members[n]];
    if n > 0 {
      GatherCounts(members[..n]);
    }
    forall e ensures e in Gather(members).engineOrder <==> HitBy(members, e) {
      HitBySnoc(members[..n], members[n], e);
    }
  }

  /** The member with the greatest citation count (or the longest content) decides that field. */
  ghost predicate Greatest(members: seq<Hit>, k: nat, f: SearchResult -> int) {
    k < |members| && forall j :: 0 <= j < |members| ==> f(members[j].result) <= f(members[k].result)
  }

  function CitedBy(): SearchResult -> int {
    (r: SearchResult) => r.citedBy
  }

  function ContentLength(): SearchResult -> int {
    (r: SearchResult) => ByteLength(r.content)
  }

  lemma GreatestSnoc(m: seq<Hit>, h: Hit, k: nat, f: SearchResult -> int)
    requires Greatest(m, k, f)
    ensures Greatest(m + [h], if f(h.result) > f(m[k].result) then |m| else k, f)
  {}

  function Title(): SearchResult -> string { (r: SearchResult) => r.title }

  function Date(): SearchResult -> string { (r: SearchResult) => r.publishDate }

  function JournalName(): SearchResult -> string { (r: SearchResult) => r.journal }

  function PdfUrl(): SearchResult -> string { (r: SearchResult) => r.pdfUrl }

  function Doi(): SearchResult -> string { (r: SearchResult) => r.doi }

  /** v is the first value of the field that is not blank, or blank when all are. */
  ghost predicate FirstFilled(members: seq<Hit>, f: SearchResult -> string, v: string) {
    if v == "" then forall k :: 0 <= k < |members| ==> f(members[k].result) == ""
    else exists k :: 0 <= k < |members| && f(members[k].result) == v &&
                forall j :: 0 <= j < k ==> f(members[j].result) == ""
  }

  lemma FirstFilledSnoc(m: seq<Hit>, h: Hit, f: SearchResult -> string, v: string)
    requires FirstFilled(m, f, v)
    ensures FirstFilled(m + [h], f, if v == "" then f(h.result) else v)
  {
    var s := m + [h];
    assert s[|m|] == h;
    if v != "" {
      var k :| 0 <= k < |m| && f(m[k].result) == v && forall j :: 0 <= j < k ==> f(m[j].result) == "";
      assert f(s[k].result) == v;
    }
  }

  ghost predicate Filled(members: seq<Hit>, r: SearchResult) {
    && FirstFilled(members, Title(), r.title) && FirstFilled(members, Date(), r.publishDate)
    && FirstFilled(members, JournalName(), r.journal) && FirstFilled(members, PdfUrl(), r.pdfUrl)
    && FirstFilled(members, Doi(), r.doi)
  }

  lemma FilledSnoc(m: seq<Hit>, h: Hit, r: SearchResult)
    requires Filled(m, r)
    ensures Filled(m + [h], MergeMetadata(r, h.result))
  {
    hide FirstFilled;
    FirstFilledSnoc(m, h, Title(), r.title);
    FirstFilledSnoc(m, h, Date(), r.publishDate);
    FirstFilledSnoc(m, h, JournalName(), r.journal);
    FirstFilledSnoc(m, h, PdfUrl(), r.pdfUrl);
    FirstFilledSnoc(m, h, Doi(), r.doi);
  }

  lemma FilledOne(h: Hit)
    ensures Filled([h], h.result) && MergeMetadata(h.result, h.result) == h.result
  {
    hide FirstFilled;
    FilledFirst(h, Title());
    FilledFirst(h, Date());
    FilledFirst(h, JournalName());
    FilledFirst(h, PdfUrl());
    FilledFirst(h, Doi());
  }

  lemma FilledFirst(h: Hit, f: SearchResult -> string)
    ensures FirstFilled([h], f, f(h.result))
  {
    assert f([h][0].result) == f(h.result);
  }

  /** An entry's citation count is the highest and its content the longest of its hits', its title,
      date, journal, PDF link and DOI are the first that are not blank, and it keeps the first URL. */
  lemma {:induction false} GatherMetadata(members: seq<Hit>) returns (c: nat, t: nat)
    requires members != []
    ensures Greatest(members, c, CitedBy()) && Gather(members).res.citedBy == members[c].result.citedBy
    ensures Greatest(members, t, ContentLength()) && Gather(members).res.content == members[t].result.content
    ensures Filled(members, Gather(members).res) && Gather(members).res.url == members[0].result.url
  {
    hide Filled, Share;
    var n := |members| - 1;
    if n == 0 {
      c, t := 0, 0;
      assert members == [members[0]];
      FilledOne(members[0]);
    } else {
      var m, h := members[..n], members[n];
      var c0, t0 := GatherMetadata(m);
      assert members == m + [h];
      FilledSnoc(m, h, Gather(m).res);
      GreatestSnoc(m, h, c0, CitedBy());
      GreatestSnoc(m, h, t0, ContentLength());
      c := if h.result.citedBy > m[c0].result.citedBy then n else c0;
      t := if ByteLength(h.result.content) > ByteLength(m[t0].result.content) then n else t0;
    }
  }

  function SumShares(hits: seq<Hit>): real {
    if hits == [] then 0.0
    else SumShares(hits[..|hits| - 1]) + Share(hits[|hits| - 1].weight, hits[|hits| - 1].rank)
  }

  lemma {:induction false} HitOfBucket(b: ScoreBucket, n: nat, h: Hit)
    requires n <= |b.results|
    ensures h in BucketHits(b, n) <==> exists r: nat :: r < n && h == HitAt(b, r)
  {
    if n > 0 {
      HitOfBucket(b, n - 1, h);
      assert h == HitAt(b, n - 1) || h in BucketHits(b, n - 1) <==> h in BucketHits(b, n);
    }
  }

  /** The hits are each bucket's results with their ranks. */
  lemma {:induction false} HitOfBuckets(buckets: seq<ScoreBucket>, h: Hit)
    ensures h in Hits(buckets) <==> exists b :: b in buckets && h in BucketHits(b, |b.results|)
  {
    if buckets != [] {
      var i, b := buckets[..|buckets| - 1], buckets[|buckets| - 1];
      HitOfBuckets(i, h);
      assert buckets == i + [b];
    }
  }

  /** The rank share of a bucket's result: its weight, or 1 for a weight that is not positive, over 60
      plus the rank from 0. */
  lemma ShareMeans(b: ScoreBucket, rank: nat)
    requires rank < |b.results|
    ensures var h := HitAt(b, rank);
            && h.engine == b.name && h.result == b.results[rank]
            && SumShares([h]) * (60.0 + rank as real) == if b.weight <= 0.0 then 1.0 else b.weight
  {
    var h := HitAt(b, rank);
    assert SumShares([h]) == SumShares([]) + Share(h.weight, h.rank) by { assert [h][..0] == []; }
    Quotient(h.weight, 60.0 + rank as real);
  }

  lemma Quotient(w: real, d: real)
    requires d > 0.0
    ensures (w * (1.0 / d)) * d == w
  {
    assert (1.0 / d) * d == 1.0;
    assert (w * (1.0 / d)) * d == w * ((1.0 / d) * d);
  }

  lemma {:induction false} SumSharesConcat(a: seq<Hit>, b: seq<Hit>)
    ensures SumShares(a + b) == SumShares(a) + SumShares(b)
  {
    if b == [] {
      assert a + b == a;
    } else {
      SumSharesConcat(a, b[..|b| - 1]);
      assert (a + b)[..|a| + |b| - 1] == a + b[..|b| - 1];
    }
  }

  /** What one bucket adds to the shares of the hits that p selects. */
  function BucketShare(p: Hit -> bool): ScoreBucket -> real {
    (b: ScoreBucket) => SumShares(Filter(BucketHits(b, |b.results|), p))
  }

  lemma {:induction false} ShareByBucket(buckets: seq<ScoreBucket>, p: Hit -> bool)
    ensures SumShares(Filter(Hits(buckets), p)) == SumBy(buckets, BucketShare(p))
  {
    if buckets != [] {
      var i, b := buckets[..|buckets| - 1], buckets[|buckets| - 1];
      ShareByBucket(i, p);
      FilterConcat(Hits(i), BucketHits(b, |b.results|), p);
      SumSharesConcat(Filter(Hits(i), p), Filter(BucketHits(b, |b.results|), p));
    }
  }

  lemma ShareUnordered(a: seq<ScoreBucket>, b: seq<ScoreBucket>, p: Hit -> bool)
    requires multiset(a) == multiset(b)
    ensures SumShares(Filter(Hits(a), p)) == SumShares(Filter(Hits(b), p))
  {
    ShareByBucket(a, p);
    ShareByBucket(b, p);
    SumByPermute(a, b, BucketShare(p));
  }

  function IsKeyed(nm: Normalizer): Hit -> bool {
    (h: Hit) => Keyed(nm, h)
  }

  function Rrfs(t: Table): seq<real> {
    seq(|t.aggs|, i requires 0 <= i < |t.aggs| => t.aggs[i].rrf)
  }

  lemma AddHitRrf(nm: Normalizer, t: Table, h: Hit)
    requires InRange(t)
    ensures Sum(Rrfs(AddHit(nm, t, h))) == Sum(Rrfs(t)) + if Keyed(nm, h) then Share(h.weight, h.rank) else 0.0
  {
    hide Share, MergeMetadata, Sum;
    if Keyed(nm, h) {
      var i, d := Locate(nm, t, h.result), Share(h.weight, h.rank);
      if i < |t.aggs| {
        SumUpdate(Rrfs(t), i, d);
        assert Rrfs(AddHit(nm, t, h)) == Rrfs(t)[i := Rrfs(t)[i] + d];
      } else {
        SumSnoc(Rrfs(t), d);
        assert Rrfs(AddHit(nm, t, h)) == Rrfs(t) + [d];
      }
    }
  }

  lemma SumSharesSnoc(hits: seq<Hit>, h: Hit)
    ensures SumShares(hits + [h]) == SumShares(hits) + Share(h.weight, h.rank)
  {
    assert (hits + [h])[..|hits|] == hits;
  }

  /** Conservation: the entries' fused ranks add up to the shares of all keyed hits. */
  lemma {:induction false} RrfConserved(nm: Normalizer, hits: seq<Hit>)
    requires nm.Valid()
    ensures Sum(Rrfs(Fuse(nm, hits))) == SumShares(Filter(hits, IsKeyed(nm)))
  {
    if hits != [] {
      var init, h := hits[..|hits| - 1], hits[|hits| - 1];
      RrfConserved(nm, init);
      FuseIndexed(nm, init);
      RrfStep(nm, init, h);
      assert hits == init + [h];
    }
  }

  /** The total is the same for any order of the buckets, however differently they then merge. */
  lemma RrfTotalUnordered(nm: Normalizer, a: seq<ScoreBucket>, b: seq<ScoreBucket>)
    requires nm.Valid() && multiset(a) == multiset(b)
    ensures Sum(Rrfs(Fuse(nm, Hits(a)))) == Sum(Rrfs(Fuse(nm, Hits(b))))
  {
    RrfConserved(nm, Hits(a));
    RrfConserved(nm, Hits(b));
    ShareUnordered(a, b, IsKeyed(nm));
  }

  lemma RrfStep(nm: Normalizer, init: seq<Hit>, h: Hit)
    requires InRange(Fuse(nm, init)) && Sum(Rrfs(Fuse(nm, init))) == SumShares(Filter(init, IsKeyed(nm)))
    ensures Sum(Rrfs(Fuse(nm, init + [h]))) == SumShares(Filter(init + [h], IsKeyed(nm)))
  {
    hide Fuse, AddHit, Filter, Sum, Rrfs, Share, SumShares, Keyed, InRange;
    FuseSnoc(nm, init, h);
    AddHitRrf(nm, Fuse(nm, init), h);
    var kept := Filter(init, IsKeyed(nm));
    FilterSnoc(init, h, IsKeyed(nm));
    SumSharesSnoc(kept, h);
    assert kept + [] == kept;
  }

  lemma FuseSnoc(nm: Normalizer, hits: seq<Hit>, h: Hit)
    ensures Fuse(nm, hits + [h]) == AddHit(nm, Fuse(nm, hits), h)
  {
    assert (hits + [h])[..|hits|] == hits;
  }

  // ---- DOI keys are never re-pointed ----

  lemma AddHitKeepsDoi(nm: Normalizer, t: Table, h: Hit, d: string)
    requires nm.Valid() && d in t.byDoi
    ensures d in AddHit(nm, t, h).byDoi && AddHit(nm, t, h).byDoi[d] == t.byDoi[d]
  {}

  lemma {:induction false} DoiNeverRepointed(nm: Normalizer, hits: seq<Hit>, k: nat, d: string)
    requires nm.Valid() && k <= |hits| && d in Fuse(nm, hits[..k]).byDoi
    ensures d in Fuse(nm, hits).byDoi && Fuse(nm, hits).byDoi[d] == Fuse(nm, hits[..k]).byDoi[d]
  {
    hide Fuse, AddHit;
    if k == |hits| {
      assert hits[..k] == hits;
    } else {
      var n := |hits| - 1;
      assert hits[..n][..k] == hits[..k] && hits == hits[..n] + [hits[n]];
      DoiNeverRepointed(nm, hits[..n], k, d);
      FuseSnoc(nm, hits[..n], hits[n]);
      AddHitKeepsDoi(nm, Fuse(nm, hits[..n]), hits[n], d);
    }
  }

  /** Position of the entry that takes hit k. */
  function Owner(nm: Normalizer, hits: seq<Hit>, k: nat): nat
    requires k < |hits|
  {
    Locate(nm, Fuse(nm, hits[..k]), hits[k].result)
  }

  /** Two hits with the same non-blank DOI always end in the same entry, whatever comes between. */
  lemma SameDoiSameEntry(nm: Normalizer, hits: seq<Hit>, j: nat, k: nat)
    requires nm.Valid() && j < k < |hits|
    requires nm.DoiKey(hits[j].result) == nm.DoiKey(hits[k].result) != ""
    ensures Owner(nm, hits, j) == Owner(nm, hits, k)
  {
    var d := nm.DoiKey(hits[j].result);
    assert hits[..j + 1][..j] == hits[..j] && hits[..k][..j + 1] == hits[..j + 1];
    assert Fuse(nm, hits[..j + 1]) == AddHit(nm, Fuse(nm, hits[..j]), hits[j]);
    DoiNeverRepointed(nm, hits[..k], j + 1, d);
  }
}
