/** The library's stable sort by descending key (sort.SliceStable with `a.key > b.key`).
    SortDesc is one implementation; StableSortUnique shows that "ordered, and each level of
    equal keys in its original order" leaves no other, so results proved for it hold of any. */
module Sorting {
  import opened Seqs

  ghost predicate SortedDesc<T>(s: seq<T>, key: T -> real) {
    forall i, j :: 0 <= i < j < |s| ==> key(s[i]) >= key(s[j])
  }

  /** Puts x behind every element whose key is at least its own. */
  function Insert<T>(s: seq<T>, x: T, key: T -> real): seq<T> {
    if s == [] || key(s[|s| - 1]) >= key(x) then s + [x]
    else Insert(s[..|s| - 1], x, key) + [s[|s| - 1]]
  }

  function SortDesc<T>(s: seq<T>, key: T -> real): seq<T> {
    if s == [] then [] else Insert(SortDesc(s[..|s| - 1], key), s[|s| - 1], key)
  }

  /** The elements of s whose key is v. */
  function Level<T>(s: seq<T>, key: T -> real, v: real): seq<T> {
    Filter(s, HasKey(key, v))
  }

  function HasKey<T>(key: T -> real, v: real): T -> bool {
    x => key(x) == v
  }

  lemma LevelSnoc<T>(s: seq<T>, x: T, key: T -> real, v: real)
    ensures Level(s + [x], key, v) == Level(s, key, v) + if key(x) == v then [x] else []
  {
    FilterSnoc(s, x, HasKey(key, v));
  }

  lemma {:induction false} InsertLevel<T>(s: seq<T>, x: T, key: T -> real, v: real)
    ensures Level(Insert(s, x, key), key, v) == Level(s + [x], key, v)
  {
    if s != [] && key(s[|s| - 1]) < key(x) {
      var i, y := s[..|s| - 1], s[|s| - 1];
      assert s == i + [y];
      InsertLevel(i, x, key, v);
      LevelSnoc(Insert(i, x, key), y, key, v);
      LevelSnoc(i, x, key, v);
      LevelSnoc(i, y, key, v);
      LevelSnoc(s, x, key, v);
    }
  }

  lemma {:induction false} InsertMultiset<T>(s: seq<T>, x: T, key: T -> real)
    ensures multiset(Insert(s, x, key)) == multiset(s) + multiset{x}
  {
    if s != [] && key(s[|s| - 1]) < key(x) {
      InsertMultiset(s[..|s| - 1], x, key);
      assert s == s[..|s| - 1] + [s[|s| - 1]];
    }
  }

  lemma {:induction false} InsertSorted<T>(s: seq<T>, x: T, key: T -> real)
    requires SortedDesc(s, key)
    ensures SortedDesc(Insert(s, x, key), key)
  {
    if s != [] && key(s[|s| - 1]) < key(x) {
      var i, y := s[..|s| - 1], s[|s| - 1];
      InsertSorted(i, x, key);
      InsertMultiset(i, x, key);
      var r := Insert(i, x, key);
      forall k | 0 <= k < |r| ensures key(r[k]) >= key(y) {
        assert r[k] in multiset(r);
        assert r[k] in multiset(i) || r[k] == x;
      }
    }
  }

  lemma {:induction false} SortDescLevel<T>(s: seq<T>, key: T -> real, v: real)
    ensures Level(SortDesc(s, key), key, v) == Level(s, key, v)
  {
    if s != [] {
      var i, x := s[..|s| - 1], s[|s| - 1];
      assert s == i + [x];
      SortDescLevel(i, key, v);
      InsertLevel(SortDesc(i, key), x, key, v);
      LevelSnoc(SortDesc(i, key), x, key, v);
      LevelSnoc(i, x, key, v);
    }
  }

  lemma {:induction false} SortDescCorrect<T>(s: seq<T>, key: T -> real)
    ensures SortedDesc(SortDesc(s, key), key)
    ensures multiset(SortDesc(s, key)) == multiset(s)
    ensures |SortDesc(s, key)| == |s|
  {
    if s != [] {
      var i, x := s[..|s| - 1], s[|s| - 1];
      assert s == i + [x];
      SortDescCorrect(i, key);
      InsertSorted(SortDesc(i, key), x, key);
      InsertMultiset(SortDesc(i, key), x, key);
    }
    assert |multiset(SortDesc(s, key))| == |multiset(s)|;
  }

  /** The members and the length survive sorting. */
  lemma SortDescMembers<T>(s: seq<T>, key: T -> real)
    ensures |SortDesc(s, key)| == |s|
    ensures forall x :: x in SortDesc(s, key) <==> x in s
  {
    SortDescCorrect(s, key);
    forall x ensures x in SortDesc(s, key) <==> x in s {
      assert x in SortDesc(s, key) <==> x in multiset(SortDesc(s, key));
      assert x in s <==> x in multiset(s);
    }
  }

  lemma LastOfLevel<T>(t: seq<T>, key: T -> real)
    requires t != []
    ensures var l := Level(t, key, key(t[|t| - 1])); l != [] && l[|l| - 1] == t[|t| - 1]
  {
    LevelSnoc(t[..|t| - 1], t[|t| - 1], key, key(t[|t| - 1]));
    assert t == t[..|t| - 1] + [t[|t| - 1]];
  }

  /** Two ordered sequences with the same levels end in the same element. */
  lemma SameLast<T>(t: seq<T>, u: seq<T>, key: T -> real)
    requires t != [] && u != [] && SortedDesc(t, key) && SortedDesc(u, key)
    requires forall v :: Level(t, key, v) == Level(u, key, v)
    ensures t[|t| - 1] == u[|u| - 1]
  {
    var x, y := t[|t| - 1], u[|u| - 1];
    LastOfLevel(t, key);
    LastOfLevel(u, key);
    FilterMember(u, HasKey(key, key(x)), x);
    FilterMember(t, HasKey(key, key(y)), y);
    assert x in Level(u, key, key(x)) && y in Level(t, key, key(y));
    assert key(x) == key(y);
  }

  lemma {:induction false} SortedLevelsDetermine<T>(t: seq<T>, u: seq<T>, key: T -> real)
    requires SortedDesc(t, key) && SortedDesc(u, key)
    requires forall v :: Level(t, key, v) == Level(u, key, v)
    ensures t == u
    decreases |t|
  {
    if t == [] {
      if u != [] { LastOfLevel(u, key); }
    } else if u == [] {
      LastOfLevel(t, key);
    } else {
      SameLast(t, u, key);
      var x, t', u' := t[|t| - 1], t[..|t| - 1], u[..|u| - 1];
      assert t == t' + [x] && u == u' + [x];
      forall v ensures Level(t', key, v) == Level(u', key, v) {
        LevelSnoc(t', x, key, v);
        LevelSnoc(u', x, key, v);
        assert Level(t, key, v) == Level(u, key, v);
        var lt, lu := Level(t', key, v), Level(u', key, v);
        if key(x) == v {
          assert lt == (lt + [x])[..|lt|] == (lu + [x])[..|lu|] == lu;
        }
      }
      SortedLevelsDetermine(t', u', key);
    }
  }

  /** Any ordered rearrangement that keeps equal keys in place is SortDesc. */
  lemma StableSortUnique<T>(s: seq<T>, t: seq<T>, key: T -> real)
    requires SortedDesc(t, key)
    requires forall v :: Level(t, key, v) == Level(s, key, v)
    ensures t == SortDesc(s, key)
  {
    SortDescCorrect(s, key);
    forall v ensures Level(t, key, v) == Level(SortDesc(s, key), key, v) {
      SortDescLevel(s, key, v);
    }
    SortedLevelsDetermine(t, SortDesc(s, key), key);
  }

  /** Sorting what is already in order changes nothing. */
  lemma SortDescIdentity<T>(s: seq<T>, key: T -> real)
    requires SortedDesc(s, key)
    ensures SortDesc(s, key) == s
  {
    StableSortUnique(s, s, key);
  }

  /** Ascending integer sort, as the descending sort of the negated values. */
  function SortAscending(s: seq<int>): seq<int> {
    SortDesc(s, Negated())
  }

  function Negated(): int -> real {
    x => -(x as real)
  }

  lemma SortAscendingCorrect(s: seq<int>)
    ensures multiset(SortAscending(s)) == multiset(s) && |SortAscending(s)| == |s|
    ensures forall i, j :: 0 <= i < j < |s| ==> SortAscending(s)[i] <= SortAscending(s)[j]
    ensures forall x :: x in SortAscending(s) <==> x in s
  {
    SortDescCorrect(s, Negated());
    SortDescMembers(s, Negated());
    var r := SortAscending(s);
    forall i, j | 0 <= i < j < |s| ensures r[i] <= r[j] {
      assert Negated()(r[i]) >= Negated()(r[j]);
    }
  }

  ghost predicate DistinctKeys<T>(s: seq<T>, key: T -> real) {
    forall i, j :: 0 <= i < j < |s| ==> key(s[i]) != key(s[j])
  }

  lemma SameLastByKey<T>(s: seq<T>, t: seq<T>, key: T -> real)
    requires s != [] && t != [] && SortedDesc(s, key) && SortedDesc(t, key)
    requires multiset(s) == multiset(t) && DistinctKeys(s, key)
    ensures s[|s| - 1] == t[|t| - 1]
  {
    var x, y := s[|s| - 1], t[|t| - 1];
    assert x in multiset(t) && y in multiset(s);
    var i :| 0 <= i < |s| && s[i] == y;
    var j :| 0 <= j < |t| && t[j] == x;
    assert key(s[i]) >= key(x) && key(t[j]) >= key(y);
  }

  lemma PrefixOrdered<T>(s: seq<T>, key: T -> real)
    requires s != []
    ensures SortedDesc(s, key) ==> SortedDesc(s[..|s| - 1], key)
    ensures DistinctKeys(s, key) ==> DistinctKeys(s[..|s| - 1], key)
  {}

  /** With distinct keys even an unstable sort has only one outcome: two ordered sequences with
      the same elements are equal. */
  lemma {:induction false} DistinctKeysSort<T>(s: seq<T>, t: seq<T>, key: T -> real)
    requires SortedDesc(s, key) && SortedDesc(t, key) && multiset(s) == multiset(t) && DistinctKeys(s, key)
    ensures s == t
    decreases |s|
  {
    hide SortedDesc, DistinctKeys;
    assert |multiset(s)| == |multiset(t)|;
    if s != [] {
      SameLastByKey(s, t, key);
      DropLast(s);
      DropLast(t);
      PrefixOrdered(s, key);
      PrefixOrdered(t, key);
      DistinctKeysSort(s[..|s| - 1], t[..|t| - 1], key);
    }
  }
}
