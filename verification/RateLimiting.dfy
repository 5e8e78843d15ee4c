/** The sliding-window rate limiter. `Allow` keeps two pruned windows; the specification keeps
    the whole log of granted instants and never forgets anything. Instants are nanoseconds. */
module RateLimiting {
  import opened Durations
  import opened Seqs

  /** perSec and perMin are upper bounds; minInterval <= 0 means no spacing rule. */
  datatype Limits = Limits(perSec: int, perMin: int, minInterval: int)

  function IsAfter(cut: int): int -> bool {
    t => t > cut
  }

  function After(log: seq<int>, cut: int): seq<int> {
    Filter(log, IsAfter(cut))
  }

  /** The rule on the full history: spacing from the newest grant, and room in both windows. */
  ghost predicate Permits(l: Limits, log: seq<int>, now: int) {
    && (l.minInterval > 0 && log != [] ==> now - log[|log| - 1] >= l.minInterval)
    && |After(log, now - SECOND)| < l.perSec
    && |After(log, now - MINUTE)| < l.perMin
  }

  ghost function Step(l: Limits, log: seq<int>, now: int): seq<int> {
    if Permits(l, log, now) then log + [now] else log
  }

  /** All grants of a run that asks at the instants `times`. */
  ghost function Log(l: Limits, times: seq<int>): seq<int> {
    if times == [] then [] else Step(l, Log(l, times[..|times| - 1]), times[|times| - 1])
  }

  ghost predicate NonDecreasing(s: seq<int>) {
    forall i, j :: 0 <= i < j < |s| ==> s[i] <= s[j]
  }

  function InWindow(lo: int, hi: int): int -> bool {
    t => lo < t <= hi
  }

  /** Number of grants in the half-open window (t - width, t]. */
  function CountIn(log: seq<int>, t: int, width: int): nat {
    |Filter(log, InWindow(t - width, t))|
  }

  lemma AfterAfter(log: seq<int>, c: int, d: int)
    requires c <= d
    ensures After(After(log, c), d) == After(log, d)
  {
    FilterFilter(log, IsAfter(c), IsAfter(d));
  }

  /** In time order, and nothing later than now. */
  ghost predicate UpTo(log: seq<int>, now: int) {
    NonDecreasing(log) && forall i :: 0 <= i < |log| ==> log[i] <= now
  }

  lemma UpToLater(log: seq<int>, now: int, later: int)
    requires UpTo(log, now) && now <= later
    ensures UpTo(log, later)
  {}

  lemma UpToSnoc(log: seq<int>, now: int)
    requires UpTo(log, now)
    ensures UpTo(log + [now], now)
  {}

  lemma AfterSnoc(log: seq<int>, now: int, cut: int)
    requires cut < now
    ensures After(log + [now], cut) == After(log, cut) + [now]
  {
    FilterSnoc(log, now, IsAfter(cut));
  }

  lemma {:induction false} LogOrdered(l: Limits, times: seq<int>, now: int)
    requires UpTo(times, now)
    ensures UpTo(Log(l, times), now)
  {
    if times != [] {
      var i, t := times[..|times| - 1], times[|times| - 1];
      LogOrdered(l, i, t);
      UpToSnoc(Log(l, i), t);
    }
  }

  /** Adding one permitted grant keeps every window of one width within its bound. */
  lemma WindowStep(log: seq<int>, now: int, t: int, width: int, cap: int)
    requires width > 0
    requires UpTo(log, now)
    requires |After(log, now - width)| < cap
    requires CountIn(log, t, width) <= cap
    ensures CountIn(log + [now], t, width) <= cap
  {
    FilterSnoc(log, now, InWindow(t - width, t));
    if t >= now {
      FilterMonotone(log, InWindow(t - width, t), IsAfter(now - width));
    }
  }

  /** Every window of a run holds at most the configured number of grants, wherever it is placed. */
  lemma {:induction false} WindowsBounded(l: Limits, times: seq<int>, t: int)
    requires NonDecreasing(times)
    ensures CountIn(Log(l, times), t, SECOND) <= Max(0, l.perSec)
    ensures CountIn(Log(l, times), t, MINUTE) <= Max(0, l.perMin)
  {
    if times != [] {
      var i, now := times[..|times| - 1], times[|times| - 1];
      WindowsBounded(l, i, t);
      LogOrdered(l, i, now);
      var log := Log(l, i);
      if Permits(l, log, now) {
        WindowStep(log, now, t, SECOND, l.perSec);
        WindowStep(log, now, t, MINUTE, l.perMin);
      }
    }
  }

  lemma AfterIsWindow(log: seq<int>, now: int, width: int)
    requires UpTo(log, now)
    ensures |After(log, now - width)| == CountIn(log, now, width)
  {
    FilterAgree(log, IsAfter(now - width), InWindow(now - width, now));
  }

  /** The limiter refuses only what it must: a request is granted exactly when, with it, the spacing
      from the newest grant is kept and the last second and the last minute stay within their limits. */
  lemma RefusedOnlyIf(l: Limits, log: seq<int>, now: int)
    requires UpTo(log, now)
    ensures Permits(l, log, now) <==>
              && (l.minInterval > 0 && log != [] ==> now - log[|log| - 1] >= l.minInterval)
              && CountIn(log + [now], now, 1_000_000_000) <= l.perSec
              && CountIn(log + [now], now, 60_000_000_000) <= l.perMin
  {
    AfterIsWindow(log, now, SECOND);
    AfterIsWindow(log, now, MINUTE);
    FilterSnoc(log, now, InWindow(now - SECOND, now));
    FilterSnoc(log, now, InWindow(now - MINUTE, now));
    hide Filter;
  }

  ghost predicate Spaced(g: seq<int>, gap: int) {
    forall i, j :: 0 <= i < j < |g| && j == i + 1 ==> g[j] - g[i] >= gap
  }

  /** Two consecutive grants of a run are at least the minimum interval apart. */
  lemma {:induction false} GrantsSpaced(l: Limits, times: seq<int>)
    requires l.minInterval > 0
    ensures Spaced(Log(l, times), l.minInterval)
  {
    if times != [] {
      GrantsSpaced(l, times[..|times| - 1]);
    }
  }

  /** Keeps the instants after `cut`, compacting the slice in place. */
  method FilterAfter(w: seq<int>, cut: int) returns (kept: seq<int>)
    ensures kept == After(w, cut)
  {
    var buf, i := w, 0;
    for k := 0 to |w|
      invariant i <= k && |buf| == |w|
      invariant buf[k..] == w[k..]
      invariant buf[..i] == After(w[..k], cut)
    {
      var t := buf[k];
      assert t == buf[k..][0] == w[k];
      assert w[..k + 1] == w[..k] + [t];
      FilterSnoc(w[..k], t, IsAfter(cut));
      assert w[k..][1..] == w[k + 1..] && buf[k..][1..] == buf[k + 1..];
      if t > cut {
        ghost var before := buf;
        buf := buf[i := t];
        assert buf[..i + 1] == before[..i] + [t];
        assert buf[k + 1..] == before[k + 1..];
        i := i + 1;
      }
    }
    assert w[..|w|] == w;
    return buf[..i];
  }

  class RateLimiter {
    var perSec: int
    var perMin: int
    var minInterval: int
    var last: Option<int>
    var secWindow: seq<int>
    var minWindow: seq<int>

    ghost var grants: seq<int>  // every instant ever granted
    ghost var clock: int        // the newest instant seen
    ghost var secCut: int       // where each window was last pruned
    ghost var minCut: int

    ghost function Config(): Limits
      reads this
    {
      Limits(perSec, perMin, minInterval)
    }

    /** Each pruned window is the part of the full log after its last cut. */
    ghost predicate Valid()
      reads this
    {
      && last == (if grants == [] then None else Some(grants[|grants| - 1]))
      && secWindow == After(grants, secCut) && secCut <= clock - SECOND
      && minWindow == After(grants, minCut) && minCut <= clock - MINUTE
      && UpTo(grants, clock)
    }

    constructor (perSec: int, perMin: int, ghost start: int)
      ensures Valid() && grants == [] && clock == start && Config() == Limits(perSec, perMin, 0)
    {
      this.perSec, this.perMin, minInterval := perSec, perMin, 0;
      last, secWindow, minWindow := None, [], [];
      grants, clock, secCut, minCut := [], start, start - SECOND, start - MINUTE;
    }

    method WithMinInterval(d: int)
      requires Valid()
      modifies this`minInterval
      ensures Valid() && Config() == old(Config()).(minInterval := d)
    {
      minInterval := d;
    }

    method Prune(now: int)
      requires Valid() && clock == now
      modifies `secWindow, `minWindow, `secCut, `minCut
      ensures Valid()
      ensures secWindow == After(grants, now - SECOND) && minWindow == After(grants, now - MINUTE)
      ensures secCut == now - SECOND && minCut == now - MINUTE
    {
      AfterAfter(grants, secCut, now - SECOND);
      AfterAfter(grants, minCut, now - MINUTE);
      secWindow := FilterAfter(secWindow, now - SECOND);
      minWindow := FilterAfter(minWindow, now - MINUTE);
      secCut, minCut := now - SECOND, now - MINUTE;
    }

    method Grant(now: int)
      requires Valid() && clock == now
      modifies `last, `secWindow, `minWindow, `grants
      ensures Valid() && grants == old(grants) + [now]
    {
      AfterSnoc(grants, now, secCut);
      AfterSnoc(grants, now, minCut);
      UpToSnoc(grants, now);
      last := Some(now);
      secWindow := secWindow + [now];
      minWindow := minWindow + [now];
      grants := grants + [now];
    }

    /** Grants exactly when the whole history permits it; only the clock must not run backwards. */
    method Allow(now: int) returns (ok: bool)
      requires Valid() && clock <= now
      modifies this
      ensures Valid() && clock == now && Config() == old(Config())
      ensures ok <==> Permits(old(Config()), old(grants), now)
      ensures grants == Step(old(Config()), old(grants), now) == old(grants) + if ok then [now] else []
    {
      hide After, UpTo;
      UpToLater(grants, clock, now);
      ghost var permitted := Permits(Config(), grants, now);
      clock := now;
      if minInterval > 0 && last.Some? && now - last.value < minInterval {
        assert !permitted;
        return false;
      }
      Prune(now);
      if |secWindow| >= perSec || |minWindow| >= perMin {
        assert !permitted;
        return false;
      }
      assert permitted;
      Grant(now);
      return true;
    }
  }
}
