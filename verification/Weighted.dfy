/** The weighted choice of a provider, in 64-bit integers: weights add up to a total, a draw below the
    total is reduced by one weight after another. */
module Weighted {
  import opened Modular
  import opened Seqs

  /** The provider reached by subtracting weights from r, without a bound on integers. */
  function Pick(ws: seq<nat>, r: nat): (i: nat)
    requires r < SumNat(ws)
    ensures i < |ws| && ws[i] > 0
  {
    SumNatHead(ws);
    if r < ws[0] then 0 else 1 + Pick(ws[1..], r - ws[0])
  }

  lemma {:induction false} SumNatHead(ws: seq<nat>)
    ensures ws != [] ==> SumNat(ws) == ws[0] + SumNat(ws[1..])
  {
    if |ws| > 1 {
      var n := |ws| - 1;
      SumNatHead(ws[..n]);
      assert ws[1..][..n - 1] == ws[..n][1..];
    }
  }

  // ---- on 64 bits ----

  /** The provider the loop selects; none when it runs out. */
  function PickInt64(ws: seq<int>, r: int): (o: Option<nat>)
    ensures o.Some? ==> o.value < |ws|
  {
    if ws == [] then None
    else if r < ws[0] then Some(0)
    else Behind(1, PickInt64(ws[1..], Int64(r - ws[0])))
  }

  function Behind(k: nat, o: Option<nat>): Option<nat> {
    if o.None? then None else Some(k + o.value)
  }

  function Wrapped(ws: seq<nat>): seq<int> {
    seq(|ws|, i requires 0 <= i < |ws| => Int64(ws[i]))
  }

  /** How many draws there are, all equally likely; with none the choice is left to the counter. */
  function DrawCount(ws: seq<nat>): nat {
    Max(0, Int64(SumNat(ws)))
  }

  /** What a draw selects. */
  function Selected(ws: seq<nat>, r: nat): Option<nat> {
    PickInt64(Wrapped(ws), r)
  }

  /** Adds up the weights as they come, wrapping. */
  method AddUp(ws: seq<int>, ghost exact: seq<nat>) returns (total: int)
    requires ws == Wrapped(exact)
    ensures total == Int64(SumNat(exact))
  {
    total := 0;
    for i := 0 to |ws|
      invariant total == Int64(SumNat(exact[..i]))
    {
      assert exact[..i + 1][..i] == exact[..i];
      Int64Add(SumNat(exact[..i]), exact[i]);
      total := Int64(total + ws[i]);
    }
    assert exact[..|ws|] == exact;
  }

  /** The loop of prefix subtractions. */
  method Subtract(ws: seq<int>, draw: int) returns (start: nat, ok: bool)
    ensures PickInt64(ws, draw) == if ok then Some(start) else None
  {
    var r := draw;
    for i := 0 to |ws|
      invariant PickInt64(ws, draw) == Behind(i, PickInt64(ws[i..], r))
    {
      if r < ws[i] {
        return i, true;
      }
      assert ws[i..][1..] == ws[i + 1..];
      r := Int64(r - ws[i]);
    }
    return 0, false;
  }

  // ---- proportional ----

  /** While the total fits 64 bits the loop selects what unbounded integers would; it never runs out. */
  lemma {:induction false} SelectedExact(ws: seq<nat>, r: nat)
    requires r < SumNat(ws) <= MAX_INT64
    ensures Selected(ws, r) == Some(Pick(ws, r))
  {
    SumNatHead(ws);
    assert Wrapped(ws)[1..] == Wrapped(ws[1..]);
    Int64Exact(ws[0]);
    if r >= ws[0] {
      Int64Exact(r - ws[0]);
      SelectedExact(ws[1..], r - ws[0]);
    }
  }

  /** How many of the draws 0, 1, .. m - 1 select provider i. */
  function Selections(ws: seq<nat>, i: nat, m: nat): nat {
    if m == 0 then 0 else Selections(ws, i, m - 1) + if Selected(ws, m - 1) == Some(i) then 1 else 0
  }

  lemma {:induction false} PickInterval(ws: seq<nat>, r: nat, i: nat)
    requires r < SumNat(ws) && i < |ws|
    ensures Pick(ws, r) == i <==> SumNat(ws[..i]) <= r < SumNat(ws[..i]) + ws[i]
  {
    SumNatHead(ws);
    if i > 0 {
      SumNatHead(ws[..i]);
      assert ws[..i][1..] == ws[1..][..i - 1];
      if r >= ws[0] {
        PickInterval(ws[1..], r - ws[0], i - 1);
      }
    }
  }

  lemma {:induction false} SelectionsBelow(ws: seq<nat>, i: nat, m: nat)
    requires i < |ws| && m <= SumNat(ws) <= MAX_INT64
    ensures var lo := SumNat(ws[..i]);
            Selections(ws, i, m) == if m <= lo then 0 else if m <= lo + ws[i] then m - lo else ws[i]
  {
    hide Selected, Pick;
    if m > 0 {
      SelectionsBelow(ws, i, m - 1);
      SelectedExact(ws, m - 1);
      PickInterval(ws, m - 1, i);
    }
  }

  lemma {:induction false} PrefixSum(ws: seq<nat>, i: nat)
    requires i < |ws|
    ensures SumNat(ws[..i]) + ws[i] <= SumNat(ws)
  {
    var n := |ws| - 1;
    if i < n {
      PrefixSum(ws[..n], i);
      assert ws[..n][..i] == ws[..i];
    }
  }

  /** Of the equally likely draws exactly ws[i] select provider i: the start is proportional to
      weight, and a provider of weight zero is never selected. */
  lemma PickProportional(ws: seq<nat>, i: nat)
    requires i < |ws| && SumNat(ws) <= MAX_INT64
    ensures Selections(ws, i, DrawCount(ws)) == ws[i]
  {
    Int64Exact(SumNat(ws));
    SelectionsBelow(ws, i, SumNat(ws));
    PrefixSum(ws, i);
  }

  function AllSelections(ws: seq<nat>, m: nat): seq<nat> {
    seq(|ws|, i requires 0 <= i < |ws| => Selections(ws, i, m))
  }

  /** Every draw selects at most one provider. */
  lemma {:induction false} SelectionsSum(ws: seq<nat>, m: nat)
    ensures SumNat(AllSelections(ws, m)) <= m
  {
    hide Selected, SumNat;
    if m == 0 {
      SumNatZero(AllSelections(ws, 0));
    } else {
      SelectionsSum(ws, m - 1);
      var before, o := AllSelections(ws, m - 1), Selected(ws, m - 1);
      if o.Some? && o.value < |ws| {
        SumNatUpdate(before, o.value, before[o.value] + 1);
        assert AllSelections(ws, m) == before[o.value := before[o.value] + 1];
      } else {
        assert AllSelections(ws, m) == before;
      }
    }
  }

  /** The choice is proportional for every provider exactly while the total fits 64 bits. */
  lemma ProportionalIff(ws: seq<nat>)
    ensures (forall i :: 0 <= i < |ws| ==> Selections(ws, i, DrawCount(ws)) == ws[i]) <==> SumNat(ws) <= MAX_INT64
  {
    if SumNat(ws) <= MAX_INT64 {
      forall i | 0 <= i < |ws| ensures Selections(ws, i, DrawCount(ws)) == ws[i] {
        PickProportional(ws, i);
      }
    } else {
      Int64Range(SumNat(ws));
      SelectionsSum(ws, DrawCount(ws));
      var all := AllSelections(ws, DrawCount(ws));
      assert all != ws;
      var i :| 0 <= i < |ws| && all[i] != ws[i];
    }
  }

  /** A single provider of weight 2^63 leaves no draw at all. */
  lemma WeightTooLarge()
    ensures DrawCount([WRAP / 2]) == 0
  {
    assert SumNat([WRAP / 2]) == WRAP / 2 by { assert [WRAP / 2][..0] == []; }
  }
}
