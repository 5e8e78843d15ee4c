/** The mutable entry both enhancement pipelines build their results in. */
module UrlAggs {
  import opened Core
  import opened Fusion
  import opened Seqs
  import opened Text

  /** One entry under construction, shared by both indexes. */
  class UrlAgg {
    var res: SearchResult
    var rrf: real
    var engines: set<string>
    var engineOrder: seq<string>

    ghost function View(): Agg
      reads this
    {
      Agg(res, rrf, engineOrder)
    }

    ghost predicate Valid()
      reads this
    {
      engines == (set e | e in engineOrder) && NoDuplicates(engineOrder)
    }

    constructor (r: SearchResult)
      ensures Valid() && View() == Agg(r, 0.0, [])
    {
      res, rrf, engines, engineOrder := r, 0.0, {}, [];
    }

    /** Takes over whatever metadata is better or was missing. */
    method Improve(r: SearchResult)
      modifies this`res
      ensures res == MergeMetadata(old(res), r)
    {
      ghost var was := res;
      if ByteLength(r.content) > ByteLength(res.content) {
        res := res.(content := r.content);
      }
      if r.citedBy > res.citedBy {
        res := res.(citedBy := r.citedBy);
      }
      assert res == was.(content := MergeMetadata(was, r).content, citedBy := MergeMetadata(was, r).citedBy);
      if res.title == "" && r.title != "" {
        res := res.(title := r.title);
      }
      if res.publishDate == "" && r.publishDate != "" {
        res := res.(publishDate := r.publishDate);
      }
      FillBlanks(r);
    }

    /** The journal, PDF and DOI half of Improve. */
    method FillBlanks(r: SearchResult)
      modifies this`res
      ensures res == old(res).(journal := if old(res).journal == "" then r.journal else old(res).journal,
                               pdfUrl := if old(res).pdfUrl == "" then r.pdfUrl else old(res).pdfUrl,
                               doi := if old(res).doi == "" then r.doi else old(res).doi)
    {
      if res.journal == "" && r.journal != "" {
        res := res.(journal := r.journal);
      }
      if res.pdfUrl == "" && r.pdfUrl != "" {
        res := res.(pdfUrl := r.pdfUrl);
      }
      if res.doi == "" && r.doi != "" {
        res := res.(doi := r.doi);
      }
    }

    /** Adds the rank share and notes the engine once. */
    method Count(h: Hit)
      requires Valid()
      modifies this`rrf, this`engines, this`engineOrder
      ensures Valid() && rrf == old(rrf) + Share(h.weight, h.rank)
      ensures engineOrder == if h.engine in old(engineOrder) then old(engineOrder) else old(engineOrder) + [h.engine]
    {
      rrf := rrf + h.weight * (1.0 / (RRF_K + h.rank as real));
      if h.engine !in engines {
        engines := engines + {h.engine};
        engineOrder := engineOrder + [h.engine];
      }
    }

    method Merge(h: Hit)
      requires Valid()
      modifies this
      ensures Valid() && View() == Absorb(old(View()), h)
    {
      Improve(h.result);
      Count(h);
    }

    /** The web pipeline merges less: the longer content, and a missing title or date. */
    method MergeText(r: SearchResult)
      modifies this`res
      ensures res == Fusion.MergeText(old(res), r)
    {
      if ByteLength(r.content) > ByteLength(res.content) {
        res := res.(content := r.content);
      }
      if res.title == "" && r.title != "" {
        res := res.(title := r.title);
      }
      if res.publishDate == "" && r.publishDate != "" {
        res := res.(publishDate := r.publishDate);
      }
    }

    method MergeWeb(h: Hit)
      requires Valid()
      modifies this
      ensures Valid() && View() == AbsorbText(old(View()), h)
    {
      MergeText(h.result);
      Count(h);
    }
  }
}
