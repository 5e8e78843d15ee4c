/** Diversity re-ranking: greedy selection by relevance minus similarity to what is selected. */
module Mmr {
  import opened Core
  import opened Seqs
  import opened Sorting

  // ---- similarity ----

  /** Shared tokens over all tokens; zero when either set is empty. */
  ghost function Jaccard(a: set<string>, b: set<string>): real {
    if a == {} || b == {} then 0.0 else |a * b| as real / |a + b| as real
  }

  lemma UnionSize(a: set<string>, b: set<string>)
    ensures |a + b| == |a| + |b| - |a * b|
    ensures |a * b| <= |a + b| && |a * b| <= |a|
  {
    assert a + b == a + (b - a) && b == (a * b) + (b - a);
    assert |a + (b - a)| == |a| + |b - a| && |(a * b) + (b - a)| == |a * b| + |b - a|;
    assert a == (a * b) + (a - b);
  }

  lemma {:induction false} JaccardRange(a: set<string>, b: set<string>)
    ensures 0.0 <= Jaccard(a, b) <= 1.0 && Jaccard(a, b) == Jaccard(b, a)
    ensures Jaccard(a, b) == 0.0 <==> a !! b
    ensures a != {} ==> (Jaccard(a, b) == 1.0 <==> a == b)
    ensures Jaccard(a, b) * |a + b| as real == |a * b| as real
  {
    UnionSize(a, b);
    assert a * b == b * a && a + b == b + a;
    if a != {} && b != {} {
      var i, u := |a * b| as real, |a + b| as real;
      assert |a + b| > 0 by { var x :| x in a; assert x in a + b; }
      Quotient(i, u);
      assert a * b == {} <==> |a * b| == 0;
      if |a * b| == |a + b| {
        SubsetSameSize(a * b, a + b);
        assert a == b;
      }
    }
  }

  lemma Quotient(i: real, u: real)
    requires 0.0 <= i <= u && u > 0.0
    ensures 0.0 <= i / u <= 1.0 && (i / u == 0.0 <==> i == 0.0) && (i / u == 1.0 <==> i == u)
  {
    assert i == (i / u) * u;
  }

  method CountShared(a: set<string>, b: set<string>) returns (inter: nat)
    ensures inter == |a * b|
  {
    inter := 0;
    var rest := a;
    while rest != {}
      invariant rest <= a && inter == |(a - rest) * b|
      decreases rest
    {
      var t :| t in rest;
      SharedStep(a, b, rest, t);
      if t in b {
        inter := inter + 1;
      }
      rest := rest - {t};
    }
    assert a - {} == a;
  }

  lemma SharedStep(a: set<string>, b: set<string>, rest: set<string>, t: string)
    requires rest <= a && t in rest
    ensures |(a - (rest - {t})) * b| == |(a - rest) * b| + if t in b then 1 else 0
  {
    assert (a - (rest - {t})) * b == (a - rest) * b + if t in b then {t} else {};
  }

  method JaccardSets(a: set<string>, b: set<string>) returns (sim: real)
    ensures sim == Jaccard(a, b)
  {
    if |a| == 0 || |b| == 0 {
      return 0.0;
    }
    var inter := CountShared(a, b);
    UnionSize(a, b);
    var union := |a| + |b| - inter;
    assert union > 0 by { var x :| x in a; assert x in a + b; }
    return inter as real / union as real;
  }

  // ---- the greedy selection ----

  ghost predicate Indices(s: seq<nat>, n: nat) {
    forall k :: 0 <= k < |s| ==> s[k] < n
  }

  /** Highest similarity of i to a selected result, and 0 when nothing is selected. */
  ghost function MaxSim(tokens: seq<set<string>>, i: nat, selected: seq<nat>): real
    requires i < |tokens| && Indices(selected, |tokens|)
  {
    if selected == [] then 0.0
    else
      var rest, sim := MaxSim(tokens, i, selected[..|selected| - 1]),
                       Jaccard(tokens[i], tokens[selected[|selected| - 1]]);
      if sim > rest then sim else rest
  }

  lemma {:induction false} MaxSimRange(tokens: seq<set<string>>, i: nat, selected: seq<nat>)
    requires i < |tokens| && Indices(selected, |tokens|)
    ensures 0.0 <= MaxSim(tokens, i, selected) <= 1.0
    ensures forall s :: s in selected ==> Jaccard(tokens[i], tokens[s]) <= MaxSim(tokens, i, selected)
    ensures MaxSim(tokens, i, selected) == 0.0 ||
            exists s :: s in selected && Jaccard(tokens[i], tokens[s]) == MaxSim(tokens, i, selected)
  {
    if selected != [] {
      var n := |selected| - 1;
      assert selected == selected[..n] + [selected[n]];
      MaxSimRange(tokens, i, selected[..n]);
      JaccardRange(tokens[i], tokens[selected[n]]);
    }
  }

  function Weigh(balance: real, score: real, maxSim: real): real {
    balance * score - (1.0 - balance) * maxSim
  }

  /** The marginal relevance of result i once `selected` is taken. */
  ghost function Marginal(balance: real, results: seq<SearchResult>, tokens: seq<set<string>>, i: nat,
                          selected: seq<nat>): real
    requires |tokens| == |results| && i < |results| && Indices(selected, |results|)
  {
    Weigh(balance, results[i].score, MaxSim(tokens, i, selected))
  }

  /** i is the earliest of the best results not yet selected. */
  ghost predicate EarliestBest(balance: real, results: seq<SearchResult>, tokens: seq<set<string>>, i: nat,
                               selected: seq<nat>)
    requires |tokens| == |results| && Indices(selected, |results|)
  {
    && i < |results| && i !in selected
    && forall j: nat :: j < |results| && j !in selected ==>
         var a, b := Marginal(balance, results, tokens, i, selected), Marginal(balance, results, tokens, j, selected);
         a >= b && (j < i ==> a > b)
  }

  /** Starts with the first result and always goes on with the earliest best of the rest. */
  ghost predicate Greedy(balance: real, results: seq<SearchResult>, tokens: seq<set<string>>, selected: seq<nat>) {
    && |tokens| == |results|
    && Indices(selected, |results|)
    && (selected != [] ==> selected[0] == 0)
    && forall k :: 1 <= k < |selected| ==> EarliestBest(balance, results, tokens, selected[k], selected[..k])
  }

  function EffectiveBalance(balance: real): real {
    if balance <= 0.0 then 0.7 else if balance > 1.0 then 1.0 else balance
  }

  function Target(n: nat, targetN: int): nat {
    if targetN <= 0 || targetN > n then n else targetN
  }

  function TokenSets(results: seq<SearchResult>, tok: string -> set<string>): seq<set<string>> {
    seq(|results|, i requires 0 <= i < |results| => tok(results[i].title + " " + results[i].content))
  }

  ghost function Picked(results: seq<SearchResult>, selected: seq<nat>): seq<SearchResult>
    requires Indices(selected, |results|)
  {
    seq(|selected|, k requires 0 <= k < |selected| => results[selected[k]])
  }

  /** How alike two results are: shared over united tokens of title and content. */
  ghost function Alike(tok: string -> set<string>, a: SearchResult, b: SearchResult): real {
    Jaccard(tok(a.title + " " + a.content), tok(b.title + " " + b.content))
  }

  /** The lead that result i must have over j to be selected first, when i is alike to s and nothing
      selected is more alike to j than t. */
  ghost predicate Outweighs(trust: real, tok: string -> set<string>, i: SearchResult, j: SearchResult, s: SearchResult,
                            t: SearchResult) {
    trust * (i.score - j.score) >= (1.0 - trust) * (Alike(tok, i, s) - Alike(tok, j, t))
  }

  /** The k-th selected result outweighs the waiting result j, against the p-th selected one. */
  ghost predicate Overcomes(trust: real, results: seq<SearchResult>, tok: string -> set<string>, selected: seq<nat>,
                            k: nat, j: nat, p: nat)
    requires Indices(selected, |results|) && p < k < |selected| && j < |results|
  {
    exists q :: 0 <= q < k &&
      Outweighs(trust, tok, results[selected[k]], results[j], results[selected[p]], results[selected[q]])
  }

  /** Every result selected outweighs every one still waiting, against all that was selected before. */
  ghost predicate Diverse(trust: real, results: seq<SearchResult>, tok: string -> set<string>, selected: seq<nat>) {
    && Indices(selected, |results|)
    && forall k: nat, j: nat, p: nat :: p < k < |selected| && j < |results| && j !in selected[..k] ==>
         Overcomes(trust, results, tok, selected, k, j, p)
  }

  /** Selects distinct results, as many as asked for, each the earliest best of the untouched rest: it
      outweighs what still waits, relevance against likeness to what is selected, by the caller's
      balance, which is 0.7 by default and at most 1. */
  method ApplyMMR(results: seq<SearchResult>, balance0: real, targetN0: int, tok: string -> set<string>)
    returns (out: seq<SearchResult>, ghost selected: seq<nat>)
    ensures Greedy(EffectiveBalance(balance0), results, TokenSets(results, tok), selected) && NoDuplicates(selected)
    ensures |selected| == Target(|results|, targetN0) && out == Picked(results, selected)
    ensures |out| == if targetN0 <= 0 || targetN0 > |results| then |results| else targetN0
    ensures results != [] ==> out != [] && out[0] == results[0]
    ensures Diverse(if balance0 <= 0.0 then 0.7 else if balance0 > 1.0 then 1.0 else balance0, results, tok, selected)
  {
    hide Diverse;
    var tokenSets := TokenSets(results, tok);
    if |results| <= 1 {
      selected := seq(|results|, i => i);
      GreedyDiverse(results, balance0, tok, selected);
      return results, selected;
    }
    var balance, targetN := EffectiveBalance(balance0), Target(|results|, targetN0);
    if targetN == 1 {
      GreedyDiverse(results, balance0, tok, [0]);
      return results[..1], [0];
    }
    var chosen: seq<nat>, remaining: seq<nat> := [0], seq(|results| - 1, i => i + 1);
    InitialRemainder(remaining, |results|);
    while |chosen| < targetN && |remaining| > 0
      invariant |chosen| + |remaining| == |results| && |chosen| <= targetN
      invariant Greedy(balance, results, tokenSets, chosen) && NoDuplicates(chosen) && chosen != []
      invariant Remainder(remaining, chosen, |results|)
    {
      assert forall p :: 0 <= p < |remaining| ==> remaining[p] in remaining;
      var bestPos := BestPosition(balance, results, tokenSets, chosen, remaining);
      RemainderStep(remaining, chosen, |results|, bestPos);
      GreedyStep(balance, results, tokenSets, chosen, remaining[bestPos]);
      chosen := chosen + [remaining[bestPos]];
      remaining := remaining[..bestPos] + remaining[bestPos + 1..];
    }
    selected := chosen;
    GreedyDiverse(results, balance0, tok, selected);
    out := [];
    for k := 0 to |chosen|
      invariant |out| == k && forall j :: 0 <= j < k ==> out[j] == results[chosen[j]]
    {
      out := out + [results[chosen[k]]];
    }
  }

  lemma NearestSelected(tokens: seq<set<string>>, i: nat, sel: seq<nat>) returns (q: nat)
    requires i < |tokens| && Indices(sel, |tokens|) && sel != []
    ensures q < |sel| && MaxSim(tokens, i, sel) == Jaccard(tokens[i], tokens[sel[q]])
    ensures forall p :: 0 <= p < |sel| ==> Jaccard(tokens[i], tokens[sel[p]]) <= MaxSim(tokens, i, sel)
  {
    MaxSimRange(tokens, i, sel);
    hide MaxSim, Jaccard;
    if s :| s in sel && Jaccard(tokens[i], tokens[s]) == MaxSim(tokens, i, sel) {
      q :| 0 <= q < |sel| && sel[q] == s;
    } else {
      q := 0;
      assert sel[0] in sel;
      JaccardRange(tokens[i], tokens[sel[0]]);
    }
  }

  lemma StepOutweighs(results: seq<SearchResult>, balance0: real, tok: string -> set<string>, sel: seq<nat>,
      i: nat, j: nat, p: nat) returns (q: nat)
    requires Indices(sel, |results|) && p < |sel| && j < |results| && j !in sel
    requires EarliestBest(EffectiveBalance(balance0), results, TokenSets(results, tok), i, sel)
    ensures q < |sel|
    ensures var trust := if balance0 <= 0.0 then 0.7 else if balance0 > 1.0 then 1.0 else balance0;
            Outweighs(trust, tok, results[i], results[j], results[sel[p]], results[sel[q]])
  {
    hide MaxSim, Jaccard;
    var b, tokens := EffectiveBalance(balance0), TokenSets(results, tok);
    var r := NearestSelected(tokens, i, sel);
    q := NearestSelected(tokens, j, sel);
    assert Marginal(b, results, tokens, i, sel) >= Marginal(b, results, tokens, j, sel);
    Penalty(b, results[i].score, results[j].score, MaxSim(tokens, i, sel), MaxSim(tokens, j, sel),
            Alike(tok, results[i], results[sel[p]]));
  }

  lemma Penalty(b: real, si: real, sj: real, mi: real, mj: real, x: real)
    requires b <= 1.0 && x <= mi && Weigh(b, si, mi) >= Weigh(b, sj, mj)
    ensures b * (si - sj) >= (1.0 - b) * (x - mj)
  {
    Scale2(1.0 - b, mi, x);
    assert b * (si - sj) == b * si - b * sj;
    assert (1.0 - b) * (x - mj) == (1.0 - b) * x - (1.0 - b) * mj;
  }

  lemma GreedyDiverse(results: seq<SearchResult>, balance0: real, tok: string -> set<string>, selected: seq<nat>)
    requires Greedy(EffectiveBalance(balance0), results, TokenSets(results, tok), selected)
    ensures Diverse(if balance0 <= 0.0 then 0.7 else if balance0 > 1.0 then 1.0 else balance0, results, tok, selected)
  {
    hide EarliestBest, TokenSets, EffectiveBalance, Outweighs;
    var trust := if balance0 <= 0.0 then 0.7 else if balance0 > 1.0 then 1.0 else balance0;
    forall k: nat, j: nat, p: nat | p < k < |selected| && j < |results| && j !in selected[..k]
      ensures Overcomes(trust, results, tok, selected, k, j, p)
    {
      var q := StepOutweighs(results, balance0, tok, selected[..k], selected[k], j, p);
      assert selected[..k][p] == selected[p] && selected[..k][q] == selected[q];
    }
  }

  /** A token duplicate of a selected result goes after every waiting result that shares no token with
      any selected one and whose score is not too far behind. */
  lemma DuplicatesWait(trust: real, results: seq<SearchResult>, tok: string -> set<string>, selected: seq<nat>,
      k: nat, j: nat, p: nat)
    requires Diverse(trust, results, tok, selected) && p < k < |selected| && j < |results| && j !in selected[..k]
    requires Alike(tok, results[selected[k]], results[selected[p]]) == 1.0
    requires forall q :: 0 <= q < k ==> Alike(tok, results[j], results[selected[q]]) == 0.0
    ensures trust * (results[selected[k]].score - results[j].score) >= 1.0 - trust
  {
    hide Alike, Outweighs;
    assert Overcomes(trust, results, tok, selected, k, j, p);
    var q :| 0 <= q < k &&
      Outweighs(trust, tok, results[selected[k]], results[j], results[selected[p]], results[selected[q]]);
    Lead(trust, tok, results[selected[k]], results[j], results[selected[p]], results[selected[q]]);
  }

  lemma Lead(trust: real, tok: string -> set<string>, i: SearchResult, j: SearchResult, s: SearchResult,
      t: SearchResult)
    requires Outweighs(trust, tok, i, j, s, t) && Alike(tok, i, s) == 1.0 && Alike(tok, j, t) == 0.0
    ensures trust * (i.score - j.score) >= 1.0 - trust
  {
    hide Alike;
  }

  lemma GreedyStep(balance: real, results: seq<SearchResult>, tokens: seq<set<string>>, chosen: seq<nat>, i: nat)
    requires Greedy(balance, results, tokens, chosen) && NoDuplicates(chosen) && chosen != []
    requires EarliestBest(balance, results, tokens, i, chosen)
    ensures Greedy(balance, results, tokens, chosen + [i]) && NoDuplicates(chosen + [i])
  {
    var s := chosen + [i];
    forall k | 1 <= k < |s| ensures EarliestBest(balance, results, tokens, s[k], s[..k]) {
      assert s[..k] == chosen[..k];
      assert chosen[..|chosen|] == chosen;
    }
  }

  /** `remaining` lists, in ascending order, exactly the indices that are not chosen. */
  ghost predicate Remainder(remaining: seq<nat>, chosen: seq<nat>, n: nat) {
    && (forall i, j :: 0 <= i < j < |remaining| ==> remaining[i] < remaining[j])
    && (forall x: nat :: x in remaining <==> x < n && x !in chosen)
  }

  lemma InitialRemainder(remaining: seq<nat>, n: nat)
    requires n > 0 && |remaining| == n - 1 && forall i :: 0 <= i < n - 1 ==> remaining[i] == i + 1
    ensures Remainder(remaining, [0], n)
  {
    forall x: nat ensures x in remaining <==> x < n && x !in [0] {
      if 0 < x < n {
        assert remaining[x - 1] == x;
      }
    }
  }

  lemma RemainderStep(remaining: seq<nat>, chosen: seq<nat>, n: nat, pos: nat)
    requires Remainder(remaining, chosen, n) && pos < |remaining|
    ensures Remainder(remaining[..pos] + remaining[pos + 1..], chosen + [remaining[pos]], n)
  {
    var r := remaining[..pos] + remaining[pos + 1..];
    forall x ensures x in r <==> x in remaining && x != remaining[pos] {
      if x in remaining && x != remaining[pos] {
        var i :| 0 <= i < |remaining| && remaining[i] == x;
        assert r[if i < pos then i else i - 1] == x;
      }
    }
  }

  method ComputeMarginal(balance: real, results: seq<SearchResult>, tokenSets: seq<set<string>>, selected: seq<nat>,
                         ri: nat)
    returns (mmr: real)
    requires |tokenSets| == |results| && ri < |results| && Indices(selected, |results|)
    ensures mmr == Marginal(balance, results, tokenSets, ri, selected)
  {
    var maxSim := 0.0;
    for s := 0 to |selected|
      invariant maxSim == MaxSim(tokenSets, ri, selected[..s])
    {
      var sim := JaccardSets(tokenSets[ri], tokenSets[selected[s]]);
      assert selected[..s + 1][..s] == selected[..s];
      if sim > maxSim {
        maxSim := sim;
      }
    }
    assert selected[..|selected|] == selected;
    mmr := Weigh(balance, results[ri].score, maxSim);
  }

  /** values[best] is the first of the largest. */
  ghost predicate FirstLargest(values: seq<real>, best: nat) {
    && best < |values|
    && (forall p :: 0 <= p < |values| ==> values[best] >= values[p])
    && (forall p :: 0 <= p < best ==> values[best] > values[p])
  }

  /** Position of the first remaining result with the highest marginal value. */
  method BestPosition(balance: real, results: seq<SearchResult>, tokenSets: seq<set<string>>, selected: seq<nat>,
                      remaining: seq<nat>)
    returns (best: nat)
    requires |tokenSets| == |results| && remaining != [] && Remainder(remaining, selected, |results|)
    requires Indices(selected, |results|) && Indices(remaining, |results|)
    ensures best < |remaining| && EarliestBest(balance, results, tokenSets, remaining[best], selected)
  {
    var bestMMR := ComputeMarginal(balance, results, tokenSets, selected, remaining[0]);
    ghost var values := [bestMMR];
    best := 0;
    for pos := 1 to |remaining|
      invariant |values| == pos && FirstLargest(values, best) && bestMMR == values[best]
      invariant forall p :: 0 <= p < pos ==> values[p] == Marginal(balance, results, tokenSets, remaining[p], selected)
    {
      var mmr := ComputeMarginal(balance, results, tokenSets, selected, remaining[pos]);
      values := values + [mmr];
      if mmr > bestMMR {
        bestMMR, best := mmr, pos;
      }
    }
    BestIsEarliest(balance, results, tokenSets, selected, remaining, values, best);
  }

  lemma BestIsEarliest(balance: real, results: seq<SearchResult>, tokens: seq<set<string>>, selected: seq<nat>,
                       remaining: seq<nat>, values: seq<real>, best: nat)
    requires |tokens| == |results| && Remainder(remaining, selected, |results|)
    requires Indices(selected, |results|) && Indices(remaining, |results|)
    requires |values| == |remaining| && FirstLargest(values, best)
    requires forall p :: 0 <= p < |values| ==> values[p] == Marginal(balance, results, tokens, remaining[p], selected)
    ensures EarliestBest(balance, results, tokens, remaining[best], selected)
  {
    assert remaining[best] in remaining;
    forall j: nat | j < |results| && j !in selected
      ensures values[best] >= Marginal(balance, results, tokens, j, selected)
      ensures j < remaining[best] ==> values[best] > Marginal(balance, results, tokens, j, selected)
    {
      var p :| 0 <= p < |remaining| && remaining[p] == j;
    }
  }

  // ---- what greedy selection guarantees ----

  /** A greedy selection of a given length is unique, so Greedy is the whole specification. */
  lemma {:induction false} GreedyUnique(balance: real, results: seq<SearchResult>, tokens: seq<set<string>>,
                                        s: seq<nat>, t: seq<nat>)
    requires Greedy(balance, results, tokens, s) && Greedy(balance, results, tokens, t) && |s| == |t|
    ensures s == t
    decreases |s|
  {
    if |s| > 0 {
      var k := |s| - 1;
      GreedyPrefix(balance, results, tokens, s, k);
      GreedyPrefix(balance, results, tokens, t, k);
      GreedyUnique(balance, results, tokens, s[..k], t[..k]);
      assert s == s[..k] + [s[k]] && t == t[..k] + [t[k]];
      if k > 0 {
        BestUnique(balance, results, tokens, s[..k], s[k], t[k]);
      }
    }
  }

  lemma BestUnique(balance: real, results: seq<SearchResult>, tokens: seq<set<string>>, selected: seq<nat>, i: nat,
                   j: nat)
    requires |tokens| == |results| && Indices(selected, |results|)
    requires EarliestBest(balance, results, tokens, i, selected) && EarliestBest(balance, results, tokens, j, selected)
    ensures i == j
  {}

  lemma GreedyPrefix(balance: real, results: seq<SearchResult>, tokens: seq<set<string>>, s: seq<nat>, k: nat)
    requires Greedy(balance, results, tokens, s) && k <= |s|
    ensures Greedy(balance, results, tokens, s[..k])
  {
    assert forall i :: 0 <= i <= k ==> s[..k][..i] == s[..i];
  }

  /** Bounded displacement: a result is placed before a better-scored one still waiting only if
      balance times the score gap is at most 1 - balance. */
  lemma DisplacementBounded(balance: real, results: seq<SearchResult>, tokens: seq<set<string>>, selected: seq<nat>,
                            k: nat, j: nat)
    requires 0.0 < balance <= 1.0 && Greedy(balance, results, tokens, selected)
    requires 1 <= k < |selected| && j < |results| && j !in selected[..k]
    ensures balance * (results[j].score - results[selected[k]].score) <= 1.0 - balance
  {
    DisplacedBy(balance, results, tokens, selected[..k], selected[k], j);
  }

  lemma MaxSimUnit(tokens: seq<set<string>>, i: nat, selected: seq<nat>)
    requires i < |tokens| && Indices(selected, |tokens|)
    ensures 0.0 <= MaxSim(tokens, i, selected) <= 1.0
  {
    MaxSimRange(tokens, i, selected);
  }

  lemma DisplacedBy(balance: real, results: seq<SearchResult>, tokens: seq<set<string>>, sel: seq<nat>, i: nat, j: nat)
    requires |tokens| == |results| && Indices(sel, |results|) && j < |results| && j !in sel
    requires balance <= 1.0 && EarliestBest(balance, results, tokens, i, sel)
    ensures balance * (results[j].score - results[i].score) <= 1.0 - balance
  {
    hide MaxSim, Weigh, Jaccard;
    MaxSimUnit(tokens, i, sel);
    MaxSimUnit(tokens, j, sel);
    assert Marginal(balance, results, tokens, i, sel) >= Marginal(balance, results, tokens, j, sel);
    Gap(balance, results[i].score, results[j].score, MaxSim(tokens, i, sel), MaxSim(tokens, j, sel));
  }

  lemma Gap(balance: real, si: real, sj: real, mi: real, mj: real)
    requires balance <= 1.0 && 0.0 <= mi <= 1.0 && 0.0 <= mj <= 1.0
    requires Weigh(balance, si, mi) >= Weigh(balance, sj, mj)
    ensures balance * (sj - si) <= 1.0 - balance
  {
    Scale(1.0 - balance, mj - mi);
    assert (1.0 - balance) * (mj - mi) == (1.0 - balance) * mj - (1.0 - balance) * mi;
    assert balance * (sj - si) == balance * sj - balance * si;
  }

  lemma Scale(c: real, x: real)
    requires c >= 0.0 && x <= 1.0
    ensures c * x <= c
  {}

  /** The penalty never decides: relevance only, or nothing similar to anything. */
  ghost predicate NoPenalty(balance: real, tokens: seq<set<string>>) {
    || balance == 1.0
    || (balance > 0.0 && forall i, j :: 0 <= i < |tokens| && 0 <= j < |tokens| && i != j ==>
          Jaccard(tokens[i], tokens[j]) == 0.0)
  }

  lemma MarginalUnpenalised(balance: real, results: seq<SearchResult>, tokens: seq<set<string>>, i: nat,
                            selected: seq<nat>)
    requires |tokens| == |results| && i < |results| && Indices(selected, |results|) && i !in selected
    requires NoPenalty(balance, tokens)
    ensures Marginal(balance, results, tokens, i, selected) == balance * results[i].score
  {
    MaxSimRange(tokens, i, selected);
  }

  /** With balance 1, or without any similarity, score-sorted input comes back in its own order. */
  lemma {:induction false} UnpenalisedIdentity(balance: real, results: seq<SearchResult>, tokens: seq<set<string>>,
                                               selected: seq<nat>)
    requires Greedy(balance, results, tokens, selected) && NoPenalty(balance, tokens) && |selected| <= |results|
    requires SortedDesc(results, ScoreOf())
    ensures forall k :: 0 <= k < |selected| ==> selected[k] == k
    decreases |selected|
  {
    if |selected| > 1 {
      var k := |selected| - 1;
      var before := selected[..k];
      GreedyPrefix(balance, results, tokens, selected, k);
      UnpenalisedIdentity(balance, results, tokens, before);
      assert forall i :: 0 <= i < k ==> selected[i] == before[i];
      assert EarliestBest(balance, results, tokens, selected[k], before);
      NextUnpenalised(balance, results, tokens, before, selected[k]);
    }
  }

  lemma CountsUp(s: seq<nat>)
    requires forall k :: 0 <= k < |s| ==> s[k] == k
    ensures forall x: nat :: x in s <==> x < |s|
  {
    forall x: nat | x < |s| ensures x in s {
      assert s[x] == x;
    }
  }

  lemma NextUnpenalised(balance: real, results: seq<SearchResult>, tokens: seq<set<string>>, before: seq<nat>, i: nat)
    requires |tokens| == |results| && Indices(before, |results|) && EarliestBest(balance, results, tokens, i, before)
    requires NoPenalty(balance, tokens) && SortedDesc(results, ScoreOf()) && |before| < |results|
    requires forall k :: 0 <= k < |before| ==> before[k] == k
    ensures i == |before|
  {
    var k := |before|;
    CountsUp(before);
    MarginalUnpenalised(balance, results, tokens, i, before);
    MarginalUnpenalised(balance, results, tokens, k, before);
    assert ScoreOf()(results[k]) >= ScoreOf()(results[Max(i, k)]);
    Scale2(balance, results[k].score, results[Max(i, k)].score);
  }

  lemma Scale2(c: real, x: real, y: real)
    requires c >= 0.0 && x >= y
    ensures c * x >= c * y
  {}
}
