/** Small sequence toolkit shared by the component models. Everything recurses on the last
    element, the way the source's append loops grow their slices. */
module Seqs {

  datatype Option<+T> = None | Some(value: T)

  /** The elements of s that satisfy p, in order. */
  function Filter<T>(s: seq<T>, p: T -> bool): seq<T> {
    if s == [] then []
    else if p(s[|s| - 1]) then Filter(s[..|s| - 1], p) + [s[|s| - 1]]
    else Filter(s[..|s| - 1], p)
  }

  lemma FilterSnoc<T>(s: seq<T>, x: T, p: T -> bool)
    ensures Filter(s + [x], p) == Filter(s, p) + if p(x) then [x] else []
  {
    assert (s + [x])[..|s|] == s;
  }

  lemma {:induction false} FilterConcat<T>(a: seq<T>, b: seq<T>, p: T -> bool)
    ensures Filter(a + b, p) == Filter(a, p) + Filter(b, p)
  {
    if b == [] {
      assert a + b == a;
    } else {
      var n := |b| - 1;
      FilterConcat(a, b[..n], p);
      assert (a + b)[..|a| + n] == a + b[..n];
    }
  }

  lemma {:induction false} FilterMember<T>(s: seq<T>, p: T -> bool, x: T)
    ensures x in Filter(s, p) <==> x in s && p(x)
  {
    if s != [] {
      FilterMember(s[..|s| - 1], p, x);
      assert s == s[..|s| - 1] + [s[|s| - 1]];
    }
  }

  /** When p holds of every element nothing is dropped; when it fails of every element nothing stays. */
  lemma {:induction false} FilterAll<T>(s: seq<T>, p: T -> bool)
    ensures (forall x :: x in s ==> p(x)) ==> Filter(s, p) == s
    ensures (forall x :: x in s ==> !p(x)) ==> Filter(s, p) == []
  {
    if s != [] {
      FilterAll(s[..|s| - 1], p);
      assert s == s[..|s| - 1] + [s[|s| - 1]];
    }
  }

  lemma {:induction false} FilterAlike<T>(s: seq<T>, p: T -> bool, q: T -> bool)
    requires forall x :: x in s ==> (p(x) <==> q(x))
    ensures Filter(s, p) == Filter(s, q)
  {
    if s != [] {
      FilterAlike(s[..|s| - 1], p, q);
      assert s == s[..|s| - 1] + [s[|s| - 1]];
    }
  }

  /** A predicate that keeps fewer elements keeps no more of them. */
  lemma {:induction false} FilterMonotone<T>(s: seq<T>, p: T -> bool, q: T -> bool)
    requires forall x :: x in s && p(x) ==> q(x)
    ensures |Filter(s, p)| <= |Filter(s, q)| <= |s|
  {
    if s != [] {
      FilterMonotone(s[..|s| - 1], p, q);
      assert s == s[..|s| - 1] + [s[|s| - 1]];
    }
  }

  lemma {:induction false} FilterFilter<T>(s: seq<T>, p: T -> bool, q: T -> bool)
    requires forall x :: x in s && q(x) ==> p(x)
    ensures Filter(Filter(s, p), q) == Filter(s, q)
  {
    if s != [] {
      var i, x := s[..|s| - 1], s[|s| - 1];
      assert s == i + [x];
      FilterFilter(i, p, q);
      if p(x) {
        FilterSnoc(Filter(i, p), x, q);
      }
    }
  }

  /** Two predicates that agree on s select the same elements. */
  lemma {:induction false} FilterAgree<T>(s: seq<T>, p: T -> bool, q: T -> bool)
    requires forall x :: x in s ==> p(x) == q(x)
    ensures Filter(s, p) == Filter(s, q)
  {
    if s != [] {
      FilterAgree(s[..|s| - 1], p, q);
      assert s == s[..|s| - 1] + [s[|s| - 1]];
    }
  }

  function Sum(s: seq<real>): real {
    if s == [] then 0.0 else Sum(s[..|s| - 1]) + s[|s| - 1]
  }

  lemma SumSnoc(s: seq<real>, x: real)
    ensures Sum(s + [x]) == Sum(s) + x
  {
    assert (s + [x])[..|s|] == s;
  }

  lemma {:induction false} SumUpdate(s: seq<real>, i: nat, d: real)
    requires i < |s|
    ensures Sum(s[i := s[i] + d]) == Sum(s) + d
  {
    var n := |s| - 1;
    if i < n {
      SumUpdate(s[..n], i, d);
      assert s[i := s[i] + d][..n] == s[..n][i := s[..n][i] + d];
    } else {
      assert s[i := s[i] + d][..n] == s[..n];
    }
  }

  function SumNat(s: seq<nat>): nat {
    if s == [] then 0 else SumNat(s[..|s| - 1]) + s[|s| - 1]
  }

  lemma {:induction false} SumNatUpdate(s: seq<nat>, i: nat, v: nat)
    requires i < |s|
    ensures SumNat(s[i := v]) == SumNat(s) + v - s[i]
  {
    var n := |s| - 1;
    if i < n {
      SumNatUpdate(s[..n], i, v);
      assert s[i := v][..n] == s[..n][i := v];
    } else {
      assert s[i := v][..n] == s[..n];
    }
  }

  lemma {:induction false} SumNatZero(s: seq<nat>)
    requires forall i :: 0 <= i < |s| ==> s[i] == 0
    ensures SumNat(s) == 0
  {
    if s != [] {
      SumNatZero(s[..|s| - 1]);
    }
  }

  lemma {:induction false} SumNatMonotone(s: seq<nat>, t: seq<nat>)
    requires |s| == |t| && forall i :: 0 <= i < |s| ==> s[i] <= t[i]
    ensures SumNat(s) <= SumNat(t)
  {
    if s != [] {
      SumNatMonotone(s[..|s| - 1], t[..|t| - 1]);
    }
  }

  function Min(a: int, b: int): int { if a <= b then a else b }

  function Max(a: int, b: int): int { if a >= b then a else b }

  ghost predicate NoDuplicates<T>(s: seq<T>) {
    forall i, j :: 0 <= i < j < |s| ==> s[i] != s[j]
  }

  lemma {:induction false} DistinctCounts<T>(s: seq<T>)
    ensures NoDuplicates(s) <==> forall x :: multiset(s)[x] <= 1
  {
    if s != [] {
      var i, y := s[..|s| - 1], s[|s| - 1];
      assert s == i + [y];
      DistinctCounts(i);
      if y in i {
        assert multiset(i)[y] >= 1 && multiset(s)[y] >= 2;
      } else {
        assert multiset(i)[y] == 0;
        assert forall x :: multiset(s)[x] == multiset(i)[x] + if x == y then 1 else 0;
        if !NoDuplicates(i) {
          var x :| multiset(i)[x] > 1;
          assert multiset(s)[x] > 1;
        }
      }
    }
  }

  lemma PermutedDistinct<T>(s: seq<T>, t: seq<T>)
    requires multiset(s) == multiset(t)
    ensures NoDuplicates(s) == NoDuplicates(t)
  {
    DistinctCounts(s);
    DistinctCounts(t);
  }

  /** First occurrences, in order. */
  function Distinct<T(==)>(s: seq<T>): seq<T> {
    if s == [] then []
    else
      var d, x := Distinct(s[..|s| - 1]), s[|s| - 1];
      if x in d then d else d + [x]
  }

  lemma {:induction false} DistinctFacts<T>(s: seq<T>)
    ensures NoDuplicates(Distinct(s))
    ensures forall x :: x in Distinct(s) <==> x in s
  {
    if s != [] {
      DistinctFacts(s[..|s| - 1]);
      assert s == s[..|s| - 1] + [s[|s| - 1]];
    }
  }

  lemma DistinctSnoc<T>(s: seq<T>, x: T)
    ensures Distinct(s + [x]) == Distinct(s) + if x in Distinct(s) then [] else [x]
  {
    assert (s + [x])[..|s|] == s;
  }

  lemma SubsetSameSize<T>(a: set<T>, b: set<T>)
    requires a <= b && |a| == |b|
    ensures a == b
  {
    assert b == a + (b - a) && |b| == |a| + |b - a|;
  }

  /** s appears in t in order, at the strictly increasing positions `at`. */
  ghost predicate PicksFrom<T>(s: seq<T>, t: seq<T>, at: seq<int>) {
    && |at| == |s|
    && (forall i :: 0 <= i < |at| ==> 0 <= at[i] < |t| && t[at[i]] == s[i])
    && (forall i, j :: 0 <= i < j < |at| ==> at[i] < at[j])
  }

  lemma PicksSnoc<T>(s: seq<T>, t: seq<T>, at: seq<int>, k: nat)
    requires PicksFrom(s, t, at) && k < |t| && forall i :: 0 <= i < |at| ==> at[i] < k
    ensures PicksFrom(s + [t[k]], t, at + [k])
  {}

  lemma PicksCompose<T>(s: seq<T>, t: seq<T>, u: seq<T>, a: seq<int>, b: seq<int>) returns (at: seq<int>)
    requires PicksFrom(s, t, a) && PicksFrom(t, u, b)
    ensures PicksFrom(s, u, at)
  {
    at := seq(|a|, i requires 0 <= i < |a| => b[a[i]]);
  }

  lemma {:induction false} FilterPicks<T>(s: seq<T>, p: T -> bool) returns (at: seq<int>)
    ensures PicksFrom(Filter(s, p), s, at) && forall i :: 0 <= i < |at| ==> at[i] < |s|
  {
    at := [];
    if s != [] {
      var n := |s| - 1;
      at := FilterPicks(s[..n], p);
      PicksWiden(Filter(s[..n], p), s, at, n);
      if p(s[n]) {
        PicksSnoc(Filter(s[..n], p), s, at, n);
        at := at + [n];
      }
    }
  }

  lemma PicksWiden<T>(s: seq<T>, t: seq<T>, at: seq<int>, n: nat)
    requires n <= |t| && PicksFrom(s, t[..n], at)
    ensures PicksFrom(s, t, at) && forall i :: 0 <= i < |at| ==> at[i] < n
  {}

  lemma PicksPrefix<T>(s: seq<T>, t: seq<T>, at: seq<int>, n: nat)
    requires PicksFrom(s, t, at) && n <= |s|
    ensures PicksFrom(s[..n], t, at[..n])
  {}

  /** The source's cut to a maximum length, where a bound of zero or less means no bound. */
  function Cap<T>(s: seq<T>, maxSize: int): (r: seq<T>)
    ensures r <= s && |r| == if maxSize > 0 then Min(maxSize, |s|) else |s|
  {
    if maxSize > 0 && |s| > maxSize then s[..maxSize] else s
  }

  // ---- sums that do not depend on the order ----

  function SumBy<T>(s: seq<T>, f: T -> real): real {
    if s == [] then 0.0 else SumBy(s[..|s| - 1], f) + f(s[|s| - 1])
  }

  lemma {:induction false} SumByRemove<T>(s: seq<T>, f: T -> real, j: nat)
    requires j < |s|
    ensures SumBy(s, f) == SumBy(s[..j] + s[j + 1..], f) + f(s[j])
  {
    var n := |s| - 1;
    var r := s[..j] + s[j + 1..];
    if j < n {
      SumByRemove(s[..n], f, j);
      assert r[..n - 1] == s[..n][..j] + s[..n][j + 1..];
    } else {
      assert r == s[..n];
    }
  }

  lemma RemoveOne<T>(t: seq<T>, j: nat)
    requires j < |t|
    ensures multiset(t[..j] + t[j + 1..]) == multiset(t) - multiset{t[j]}
  {
    assert t == t[..j] + [t[j]] + t[j + 1..];
  }

  lemma DropLast<T>(s: seq<T>)
    requires s != []
    ensures s == s[..|s| - 1] + [s[|s| - 1]]
    ensures multiset(s[..|s| - 1]) == multiset(s) - multiset{s[|s| - 1]}
  {
    assert s == s[..|s| - 1] + [s[|s| - 1]];
  }

  /** The last element of s, found in a rearrangement t; without it the rests match again. */
  lemma MatchLast<T>(s: seq<T>, t: seq<T>) returns (j: nat)
    requires multiset(s) == multiset(t) && s != []
    ensures j < |t| && t[j] == s[|s| - 1]
    ensures multiset(s[..|s| - 1]) == multiset(t[..j] + t[j + 1..])
  {
    DropLast(s);
    assert s[|s| - 1] in multiset(t);
    j :| 0 <= j < |t| && t[j] == s[|s| - 1];
    RemoveOne(t, j);
  }

  lemma {:induction false} SumByPermute<T>(s: seq<T>, t: seq<T>, f: T -> real)
    requires multiset(s) == multiset(t)
    ensures SumBy(s, f) == SumBy(t, f)
    decreases |s|
  {
    assert |multiset(s)| == |multiset(t)|;
    if s != [] {
      var j := MatchLast(s, t);
      SumByRemove(t, f, j);
      SumByPermute(s[..|s| - 1], t[..j] + t[j + 1..], f);
    }
  }

  lemma {:induction false} DistinctSetSize<T>(s: seq<T>)
    requires NoDuplicates(s)
    ensures |set x | x in s| == |s|
  {
    if s != [] {
      var i := s[..|s| - 1];
      DistinctSetSize(i);
      assert s == i + [s[|s| - 1]];
      assert (set x | x in s) == (set x | x in i) + {s[|s| - 1]};
    }
  }
}
