/** The result record every engine returns, per-engine ranked buckets, and deduplication keys. */
module Core {
  import opened Seqs

  datatype SearchResult = SearchResult(
    title: string, url: string, content: string, publishDate: string, score: real, engine: string,
    engines: seq<string>, kind: string, authors: string, doi: string, journal: string, citedBy: int, pdfUrl: string)

  /** One engine's results, best first. */
  datatype ScoreBucket = ScoreBucket(name: string, weight: real, results: seq<SearchResult>)

  function ScoreOf(): SearchResult -> real {
    (r: SearchResult) => r.score
  }

  /** The two key normalisations, as arbitrary total functions; a blank DOI has a blank key. */
  datatype Normalizer = Normalizer(doi: string -> string, url: string -> string) {
    predicate Valid() {
      doi("") == ""
    }

    function DoiKey(r: SearchResult): string { doi(r.doi) }

    function UrlKey(r: SearchResult): string { url(r.url) }
  }

  /** Deduplication keys of a result: one for a non-blank DOI, one for a non-blank URL. */
  function ResultKeys(nm: Normalizer, r: SearchResult): seq<string> {
    var d, u := nm.DoiKey(r), nm.UrlKey(r);
    (if d != "" then ["doi:" + d] else []) + (if u != "" then ["url:" + u] else [])
  }

  ghost predicate SharesKey(nm: Normalizer, a: SearchResult, b: SearchResult) {
    exists k :: k in ResultKeys(nm, a) && k in ResultKeys(nm, b)
  }

  /** Sharing a key is agreeing on a non-blank DOI or on a non-blank URL. */
  lemma SharesKeyMeans(nm: Normalizer, a: SearchResult, b: SearchResult)
    ensures SharesKey(nm, a, b) <==>
              || (nm.DoiKey(a) != "" && nm.DoiKey(a) == nm.DoiKey(b))
              || (nm.UrlKey(a) != "" && nm.UrlKey(a) == nm.UrlKey(b))
  {
    var da, ua, db, ub := nm.DoiKey(a), nm.UrlKey(a), nm.DoiKey(b), nm.UrlKey(b);
    PrefixedKeys(da, db, ua, ub);
    if da != "" && da == db {
      assert ("doi:" + da) in ResultKeys(nm, a) && ("doi:" + da) in ResultKeys(nm, b);
    }
    if ua != "" && ua == ub {
      assert ("url:" + ua) in ResultKeys(nm, a) && ("url:" + ua) in ResultKeys(nm, b);
    }
  }

  lemma PrefixedKeys(d: string, d': string, u: string, u': string)
    ensures "doi:" + d == "doi:" + d' ==> d == d'
    ensures "url:" + u == "url:" + u' ==> u == u'
    ensures "doi:" + d != "url:" + u' && "doi:" + d' != "url:" + u
  {
    assert ("doi:" + d)[4..] == d && ("doi:" + d')[4..] == d';
    assert ("url:" + u)[4..] == u && ("url:" + u')[4..] == u';
    assert ("doi:" + d)[0] == 'd' && ("doi:" + d')[0] == 'd' && ("url:" + u)[0] == 'u' && ("url:" + u')[0] == 'u';
  }

  /** Non-empty, pairwise disjoint key sets. */
  ghost predicate SeparateKeys(nm: Normalizer, rs: seq<SearchResult>) {
    && (forall i :: 0 <= i < |rs| ==> ResultKeys(nm, rs[i]) != [])
    && (forall i, j :: 0 <= i < |rs| && 0 <= j < |rs| && i != j ==> !SharesKey(nm, rs[i], rs[j]))
  }

  lemma SeparateKeysDistinct(nm: Normalizer, rs: seq<SearchResult>)
    requires SeparateKeys(nm, rs)
    ensures NoDuplicates(rs)
  {
    forall i, j | 0 <= i < j < |rs| ensures rs[i] != rs[j] {
      var k := ResultKeys(nm, rs[i])[0];
      assert k in ResultKeys(nm, rs[j]) ==> SharesKey(nm, rs[i], rs[j]);
    }
  }

  /** Rearranging results keeps their keys separate. */
  lemma SeparateKeysPermute(nm: Normalizer, rs: seq<SearchResult>, ts: seq<SearchResult>)
    requires SeparateKeys(nm, rs) && multiset(rs) == multiset(ts)
    ensures SeparateKeys(nm, ts)
  {
    SeparateKeysDistinct(nm, rs);
    PermutedDistinct(rs, ts);
    forall x | x in ts ensures x in rs {
      assert x in multiset(ts);
    }
    forall i, j | 0 <= i < |ts| && 0 <= j < |ts| && i != j ensures !SharesKey(nm, ts[i], ts[j]) {
      assert ts[i] in rs && ts[j] in rs;
      var k, l :| 0 <= k < |rs| && rs[k] == ts[i] && 0 <= l < |rs| && rs[l] == ts[j];
    }
    forall i | 0 <= i < |ts| ensures ResultKeys(nm, ts[i]) != [] {
      assert ts[i] in rs;
    }
  }
}
