/** Back-off of the arXiv engine: local rate limit, one budgeted retry, and a server-side cooldown
    that doubles up to a cap. The upstream and the clock are a `World` whose delays are arbitrary. */
module Arxiv {
  import opened Durations
  import opened RateLimiting
  import opened Seqs

  const MAX_PER_SEC: int := 1
  const MAX_PER_MIN: int := 12
  const MIN_INTERVAL: int := 3 * SECOND
  const RATE_COOLDOWN: int := 30 * SECOND
  const COOLDOWN_MAX: int := 2 * MINUTE
  const RETRY_ESTIMATE: int := 2 * SECOND
  const SEARCH_BUDGET: int := 10 * SECOND
  const POLL: int := 500 * MILLISECOND

  /** An upstream reply; retryAfter is the parsed Retry-After field (RFC 9110, section 10.2.3), 0 if absent. */
  datatype Reply = TransportError | Status(code: int, retryAfter: int)

  /** How one search ended. */
  datatype Outcome = CoolingDown | WaitGivenUp | Failed | RateLimited | Succeeded

  predicate Limited(r: Reply) {
    r.Status? && (r.code == 429 || r.code == 503)
  }

  predicate Okay(r: Reply) {
    r.Status? && r.code == 200
  }

  /** Length of the next cooldown: Retry-After when given, else the first step or twice the last. */
  function NextCooldown(cooldown: int, retryAfter: int): int {
    if retryAfter > 0 then Min(retryAfter, COOLDOWN_MAX)
    else Min(if cooldown <= 0 then RATE_COOLDOWN else 2 * cooldown, COOLDOWN_MAX)
  }

  predicate RetryFits(elapsed: int, wait: int) {
    elapsed + wait + RETRY_ESTIMATE <= SEARCH_BUDGET
  }

  // ---- one search as a function ----

  /** What the world does: how long each request takes, how late each sleep ends, what the replies are. */
  datatype Schedule = Schedule(latency: nat -> nat, oversleep: nat -> nat, replies: nat -> Reply)

  /** calls are the instants of all requests ever sent, grants those the limiter allowed. */
  datatype State = State(now: int, calls: seq<int>, naps: nat, grants: seq<int>, cooldown: int, until: Option<int>)

  datatype Waited = Granted(state: State) | GaveUp(state: State)

  datatype Ended = Ended(outcome: Outcome, state: State)

  function Slept(d: Schedule, s: State, t: int): State {
    s.(now := s.now + t + d.oversleep(s.naps), naps := s.naps + 1)
  }

  function Sent(d: Schedule, s: State): State {
    s.(now := s.now + d.latency(|s.calls|), calls := s.calls + [s.now])
  }

  function Cooled(s: State, retryAfter: int): State {
    var cd := NextCooldown(s.cooldown, retryAfter);
    s.(cooldown := cd, until := Some(s.now + cd))
  }

  function Cleared(s: State): State {
    s.(cooldown := 0, until := None)
  }

  function Allowed(s: State): State {
    s.(grants := s.grants + [s.now])
  }

  function WaitEnd(ok: bool, s: State): Waited {
    if ok then Granted(s) else GaveUp(s)
  }

  /** Polls the limiter until it grants, or until a request could no longer fit the budget. */
  ghost function Await(l: Limits, d: Schedule, start: int, s: State): Waited
    decreases Max(0, start + SEARCH_BUDGET - s.now)
  {
    if Permits(l, s.grants, s.now) then Granted(Allowed(s))
    else if s.now - start + RETRY_ESTIMATE > SEARCH_BUDGET then GaveUp(s)
    else Await(l, d, start, Slept(d, s, POLL))
  }

  /** A rate-limited first reply: one retry if it fits the budget, else, or if that fails, a cooldown. */
  function AfterLimit(d: Schedule, start: int, s: State, retryAfter: int): Ended {
    var wait := NextCooldown(s.cooldown, retryAfter);
    if RetryFits(s.now - start, wait) then
      var s1 := Slept(d, s, wait);
      if Okay(d.replies(|s1.calls|)) then Ended(Succeeded, Cleared(Sent(d, s1)))
      else Ended(RateLimited, Cooled(Sent(d, s1), retryAfter))
    else Ended(RateLimited, Cooled(s, retryAfter))
  }

  function AfterReply(d: Schedule, start: int, s: State, r: Reply): Ended {
    if r.TransportError? then Ended(Failed, s)
    else if Limited(r) then AfterLimit(d, start, s, r.retryAfter)
    else if r.code != 200 then Ended(Failed, s)
    else Ended(Succeeded, Cleared(s))
  }

  ghost function SearchFrom(l: Limits, d: Schedule, s: State): Ended {
    if s.until.Some? && s.until.value > s.now then Ended(CoolingDown, s)
    else
      match Await(l, d, s.now, s)
      case GaveUp(t) => Ended(WaitGivenUp, t)
      case Granted(t) => AfterReply(d, s.now, Sent(d, t), d.replies(|t.calls|))
  }

  /** One search after another, each after a pause. */
  ghost function Session(l: Limits, d: Schedule, s: State, pauses: seq<nat>): State {
    if pauses == [] then s
    else
      var n := |pauses| - 1;
      var t := Session(l, d, s, pauses[..n]);
      SearchFrom(l, d, t.(now := t.now + pauses[n])).state
  }

  function Fresh(start: int): State {
    State(start, [], 0, [], 0, None)
  }

  // ---- what one search does ----

  ghost predicate Settled(s: State) {
    && UpTo(s.grants, s.now) && 0 <= s.cooldown <= COOLDOWN_MAX && (s.cooldown == 0 <==> s.until.None?)
  }

  /** Waiting sends nothing, sleeps at most 17 times and gives up only past the budget. */
  ghost predicate WaitedWell(d: Schedule, start: int, s: State, w: Waited) {
    var t := w.state;
    && t.calls == s.calls && t.cooldown == s.cooldown && t.until == s.until && s.naps <= t.naps
    && s.now + (t.naps - s.naps) * 500_000_000 <= t.now
    && ((forall i :: d.oversleep(i) == 0) ==> t.now == s.now + (t.naps - s.naps) * 500_000_000)
    && (t.naps > s.naps ==> s.now + (t.naps - s.naps - 1) * 500_000_000 + 2_000_000_000 <= start + 10_000_000_000)
    && t.grants == s.grants + (if w.Granted? then [t.now] else [])
    && (w.GaveUp? ==> t.now - start + 2_000_000_000 > 10_000_000_000)
  }

  lemma {:induction false} AwaitMeans(l: Limits, d: Schedule, start: int, s: State)
    requires start <= s.now
    ensures WaitedWell(d, start, s, Await(l, d, start, s))
    ensures var w := Await(l, d, start, s); w.Granted? ==> Permits(l, s.grants, w.state.now)
    ensures Permits(l, s.grants, s.now) ==> Await(l, d, start, s) == Granted(Allowed(s))
    decreases Max(0, start + SEARCH_BUDGET - s.now)
  {
    hide Permits;
    if !Permits(l, s.grants, s.now) && s.now - start + RETRY_ESTIMATE <= SEARCH_BUDGET {
      AwaitMeans(l, d, start, Slept(d, s, POLL));
    }
  }

  /** How the replies decide a search that sent something: the outcome, the cooldown, and whether
      there is a retry, which happens exactly when it fits the budget at the decision. */
  ghost predicate Obeys(d: Schedule, s: State, o: Outcome, t: State)
    requires |s.calls| < |t.calls|
  {
    var base, sent := |s.calls|, |t.calls| - |s.calls|;
    var r, decided := d.replies(base), t.calls[base] + d.latency(base);
    var wait := NextCooldown(s.cooldown, if r.Status? then r.retryAfter else 0);
    && (sent == 2 <==> Limited(r) && RetryFits(decided - s.now, wait))
    && (sent == 2 ==> t.calls[base + 1] >= decided + wait)
    && (o.Succeeded? <==> Okay(r) || (sent == 2 && Okay(d.replies(base + 1))))
    && (o.RateLimited? <==> Limited(r) && !(sent == 2 && Okay(d.replies(base + 1))))
    && (o.Failed? <==> !Okay(r) && !Limited(r))
    && t.cooldown == (if o.Succeeded? then 0 else if o.RateLimited? then wait else s.cooldown)
    && t.until == (if o.Succeeded? then None else if o.RateLimited? then Some(t.now + wait) else s.until)
  }

  /** One search: nothing is sent while a cooldown runs, at most two requests in all, the first with
      the limiter's permission; at most 17 sleeps; the replies decide the rest. */
  ghost predicate OneSearch(l: Limits, d: Schedule, s: State, o: Outcome, t: State) {
    var base, sent := |s.calls|, |t.calls| - |s.calls|;
    && Settled(t) && s.now <= t.now && s.naps <= t.naps <= s.naps + 17
    && 0 <= sent <= 2 && s.calls <= t.calls
    && (sent == 0 <==> o.CoolingDown? || o.WaitGivenUp?)
    && (o.CoolingDown? <==> s.until.Some? && s.until.value > s.now)
    && (sent == 0 ==> t.cooldown == s.cooldown && t.until == s.until)
    && (forall k :: base <= k < |t.calls| ==>
          s.now <= t.calls[k] <= t.now && (s.until.Some? ==> t.calls[k] >= s.until.value))
    && t.grants == s.grants + (if sent > 0 then [t.calls[base]] else [])
    && (sent > 0 ==> Permits(l, s.grants, t.calls[base]) && Obeys(d, s, o, t))
  }

  lemma ReplyMeans(d: Schedule, s: State, t: State)
    requires Settled(s) && s.now <= t.now && t.calls == s.calls && t.cooldown == s.cooldown && t.until == s.until
    ensures var e := AfterReply(d, s.now, Sent(d, t), d.replies(|t.calls|));
            && |s.calls| < |e.state.calls| <= |s.calls| + 2 && Obeys(d, s, e.outcome, e.state)
  {}

  lemma ReplyFrame(d: Schedule, s: State, t: State)
    requires 0 <= s.cooldown <= COOLDOWN_MAX && (s.cooldown == 0 <==> s.until.None?)
    requires s.now <= t.now && t.calls == s.calls && t.cooldown == s.cooldown && t.until == s.until
    requires t.naps == s.naps || (t.naps > s.naps && (t.naps - s.naps - 1) * POLL + RETRY_ESTIMATE <= SEARCH_BUDGET)
    requires s.now + (t.naps - s.naps) * POLL <= t.now
    ensures var u := AfterReply(d, s.now, Sent(d, t), d.replies(|t.calls|)).state;
            && t.now <= u.now && s.naps <= t.naps <= u.naps <= s.naps + 17
            && t.calls + [t.now] <= u.calls && u.grants == t.grants
            && (forall k :: |t.calls| <= k < |u.calls| ==> t.now <= u.calls[k] <= u.now)
            && 0 <= u.cooldown <= COOLDOWN_MAX && (u.cooldown == 0 <==> u.until.None?)
  {}

  lemma SearchMeans(l: Limits, d: Schedule, s: State)
    requires Settled(s)
    ensures var e := SearchFrom(l, d, s); OneSearch(l, d, s, e.outcome, e.state)
  {
    hide Permits, AfterReply, Obeys, UpTo, Await;
    if !(s.until.Some? && s.until.value > s.now) {
      AwaitMeans(l, d, s.now, s);
      var w := Await(l, d, s.now, s);
      var t := w.state;
      UpToLater(s.grants, s.now, t.now);
      UpToSnoc(s.grants, t.now);
      if w.Granted? {
        ReplyFrame(d, s, t);
        ReplyMeans(d, s, t);
        var e := AfterReply(d, s.now, Sent(d, t), d.replies(|t.calls|));
        UpToLater(t.grants, t.now, e.state.now);
        ReplyNotWaiting(d, s, t);
      } else {
        assert t.grants == s.grants;
      }
    }
  }

  lemma ReplyNotWaiting(d: Schedule, s: State, t: State)
    ensures var o := AfterReply(d, s.now, Sent(d, t), d.replies(|t.calls|)).outcome; !o.CoolingDown? && !o.WaitGivenUp?
  {}

  // ---- sessions ----

  /** The replies with these numbers. */
  function Replies(d: Schedule, lo: nat, hi: nat): seq<Reply>
    requires lo <= hi
  {
    seq(hi - lo, i requires 0 <= i < hi - lo => d.replies(lo + i))
  }

  lemma RepliesConcat(d: Schedule, lo: nat, mid: nat, hi: nat)
    requires lo <= mid <= hi
    ensures Replies(d, lo, hi) == Replies(d, lo, mid) + Replies(d, mid, hi)
  {}

  lemma SettledLater(s: State, later: int)
    requires Settled(s) && s.now <= later
    ensures Settled(s.(now := later)) && (Unretried(s) ==> Unretried(s.(now := later)))
  {
    UpToLater(s.grants, s.now, later);
  }

  lemma SessionNone(l: Limits, d: Schedule, s: State)
    ensures Session(l, d, s, []) == s
  {}

  lemma SessionSnoc(l: Limits, d: Schedule, s: State, pauses: seq<nat>)
    requires pauses != []
    ensures var n := |pauses| - 1;
            var t := Session(l, d, s, pauses[..n]);
            Session(l, d, s, pauses) == SearchFrom(l, d, t.(now := t.now + pauses[n])).state
  {}

  lemma {:induction false} SessionSettled(l: Limits, d: Schedule, s: State, pauses: seq<nat>)
    requires Settled(s)
    ensures var t := Session(l, d, s, pauses); Settled(t) && s.now <= t.now && s.calls <= t.calls
  {
    hide Permits, UpTo, SearchFrom, Obeys;
    if pauses != [] {
      var n := |pauses| - 1;
      SessionSettled(l, d, s, pauses[..n]);
      var t := Session(l, d, s, pauses[..n]);
      SettledLater(t, t.now + pauses[n]);
      SearchMeans(l, d, t.(now := t.now + pauses[n]));
    }
  }

  /** In every session from a fresh engine the cooldown stays between zero and the cap. */
  lemma CooldownInRange(l: Limits, d: Schedule, start: int, pauses: seq<nat>)
    ensures var t := Session(l, d, Fresh(start), pauses);
            0 <= t.cooldown <= COOLDOWN_MAX && (t.cooldown == 0 <==> t.until.None?)
  {
    SessionSettled(l, d, Fresh(start), pauses);
  }

  function IsLimited(): Reply -> bool {
    (r: Reply) => Limited(r)
  }

  function Pow2(k: nat): (p: nat)
    ensures p >= 1
  {
    if k == 0 then 1 else 2 * Pow2(k - 1)
  }

  /** min(30s * 2^(k-1), 120s), and no cooldown for k = 0. */
  function Doubled(k: nat): int {
    if k == 0 then 0 else Min(30_000_000_000 * Pow2(k - 1), 120_000_000_000)
  }

  lemma DoubledNext(k: nat)
    ensures NextCooldown(Doubled(k), 0) == Doubled(k + 1) >= RATE_COOLDOWN
  {
    assert k > 0 ==> Pow2(k) == 2 * Pow2(k - 1);
  }

  lemma DoubledNone()
    ensures Doubled(0) == 0 && Filter([], IsLimited()) == []
  {}

  /** No reply is a success, and no rate limit names a Retry-After. */
  ghost predicate Bare(replies: seq<Reply>) {
    forall r :: r in replies ==> !Okay(r) && (Limited(r) ==> r.retryAfter <= 0)
  }

  /** k rate-limited replies since a reset, none naming a Retry-After, leave a cooldown of
      min(30s * 2^(k-1), 120s), whatever other failures come between them. */
  lemma {:induction false} DoublesToCap(l: Limits, d: Schedule, s: State, pauses: seq<nat>)
    requires Settled(s) && s.cooldown == 0
    requires |s.calls| <= |Session(l, d, s, pauses).calls|
    requires Bare(Replies(d, |s.calls|, |Session(l, d, s, pauses).calls|))
    ensures var t := Session(l, d, s, pauses);
            t.cooldown == Doubled(|Filter(Replies(d, |s.calls|, |t.calls|), IsLimited())|)
  {
    hide Permits, UpTo, SearchFrom, Obeys, Filter, Doubled;
    if pauses == [] {
      assert Replies(d, |s.calls|, |s.calls|) == [];
      DoubledNone();
    } else {
      var n := |pauses| - 1;
      SessionSettled(l, d, s, pauses[..n]);
      var t := Session(l, d, s, pauses[..n]);
      var u := t.(now := t.now + pauses[n]);
      SettledLater(t, u.now);
      SearchMeans(l, d, u);
      var v := SearchFrom(l, d, u).state;
      RepliesConcat(d, |s.calls|, |t.calls|, |v.calls|);
      DoublesToCap(l, d, s, pauses[..n]);
      DoublesStep(l, d, s, u, SearchFrom(l, d, u).outcome, v);
    }
  }

  lemma DoublesStep(l: Limits, d: Schedule, s: State, u: State, o: Outcome, v: State)
    requires |s.calls| <= |u.calls| <= |v.calls| && OneSearch(l, d, u, o, v)
    requires Bare(Replies(d, |u.calls|, |v.calls|))
    requires u.cooldown == Doubled(|Filter(Replies(d, |s.calls|, |u.calls|), IsLimited())|)
    ensures v.cooldown == Doubled(|Filter(Replies(d, |s.calls|, |v.calls|), IsLimited())|)
  {
    var base, before := |u.calls|, Replies(d, |s.calls|, |u.calls|);
    var k := |Filter(before, IsLimited())|;
    DoubledNext(k);
    if |v.calls| > base {
      var r := d.replies(base);
      assert Replies(d, base, |v.calls|)[0] == r;
      assert |v.calls| == base + 1;
      assert Replies(d, |s.calls|, |v.calls|) == before + [r];
      FilterSnoc(before, r, IsLimited());
    } else {
      assert Replies(d, |s.calls|, |v.calls|) == before;
    }
  }

  /** A successful reply, to the first request or to the retry, resets the cooldown. */
  lemma {:induction false} SuccessResets(l: Limits, d: Schedule, s: State, pauses: seq<nat>)
    requires Settled(s)
    ensures var t := Session(l, d, s, pauses);
            |t.calls| > |s.calls| && Okay(d.replies(|t.calls| - 1)) ==> t.cooldown == 0 && t.until == None
  {
    hide Permits, UpTo, SearchFrom;
    if pauses != [] {
      var n := |pauses| - 1;
      SessionSettled(l, d, s, pauses[..n]);
      SuccessResets(l, d, s, pauses[..n]);
      var t := Session(l, d, s, pauses[..n]);
      SettledLater(t, t.now + pauses[n]);
      SearchMeans(l, d, t.(now := t.now + pauses[n]));
    }
  }

  // ---- what the server asked for is kept ----

  /** While a cooldown is set that ends at x, later searches send nothing before x. */
  lemma {:induction false} SilentUntil(l: Limits, d: Schedule, s: State, x: int, pauses: seq<nat>)
    requires Settled(s) && s.until == Some(x)
    ensures var t := Session(l, d, s, pauses);
            && s.calls <= t.calls && (forall k :: |s.calls| <= k < |t.calls| ==> t.calls[k] >= x)
            && (t.now >= x || t.until == Some(x))
  {
    hide Permits, UpTo, SearchFrom, Obeys, Session, Settled;
    if pauses == [] {
      SessionNone(l, d, s);
    } else {
      var n := |pauses| - 1;
      SilentUntil(l, d, s, x, pauses[..n]);
      SessionSettled(l, d, s, pauses[..n]);
      SessionSnoc(l, d, s, pauses);
      var t := Session(l, d, s, pauses[..n]);
      SettledLater(t, t.now + pauses[n]);
      SearchMeans(l, d, t.(now := t.now + pauses[n]));
    }
  }

  /** The wait that a rate-limited reply leads to: what it asks for in Retry-After, up to 120 s, or
      without that 30 s, or twice the last cooldown up to 120 s. */
  ghost predicate WaitIs(cooldown: int, retryAfter: int, wait: int) {
    && (retryAfter > 120_000_000_000 ==> wait == 120_000_000_000)
    && (0 < retryAfter <= 120_000_000_000 ==> wait == retryAfter)
    && (retryAfter <= 0 && cooldown == 0 ==> wait == 30_000_000_000)
    && (retryAfter <= 0 && 0 < cooldown <= 60_000_000_000 ==> wait == 2 * cooldown)
    && (retryAfter <= 0 && cooldown > 60_000_000_000 ==> wait == 120_000_000_000)
  }

  lemma NextCooldownIs(cooldown: int, retryAfter: int)
    requires cooldown >= 0
    ensures WaitIs(cooldown, retryAfter, NextCooldown(cooldown, retryAfter))
  {}

  /** A search whose first reply is 429 or 503. One retry is sent exactly when the wait and two seconds
      more fit the ten seconds from the start, and not before the wait is over; if its reply is 200 the
      search succeeds. Otherwise the engine cools down for the wait, from the end of the search, and no
      later search sends anything before that. */
  lemma RateLimitKept(l: Limits, d: Schedule, s: State, code: int, retryAfter: int, wait: int, pauses: seq<nat>)
    requires Settled(s) && code in {429, 503} && d.replies(|s.calls|) == Status(code, retryAfter)
    requires WaitIs(s.cooldown, retryAfter, wait) && |SearchFrom(l, d, s).state.calls| > |s.calls|
    ensures var Ended(o, t) := SearchFrom(l, d, s);
            var base := |s.calls|;
            var decided := t.calls[base] + d.latency(base);
            && (|t.calls| == base + 2 <==> decided - s.now + wait + 2_000_000_000 <= 10_000_000_000)
            && (|t.calls| == base + 2 ==> t.calls[base + 1] >= decided + wait)
            && var served := |t.calls| == base + 2 && d.replies(base + 1).Status? && d.replies(base + 1).code == 200;
               && (served ==> o == Succeeded && t.cooldown == 0 && t.until == None)
               && (!served ==>
                     && o == RateLimited && t.cooldown == wait && t.until == Some(t.now + wait)
                     && var later := Session(l, d, t, pauses).calls;
                        t.calls <= later && forall k :: |t.calls| <= k < |later| ==> later[k] >= t.now + wait)
  {
    hide Permits, UpTo, SearchFrom, Session;
    SearchMeans(l, d, s);
    NextCooldownIs(s.cooldown, retryAfter);
    assert NextCooldown(s.cooldown, retryAfter) == wait;
    var t := SearchFrom(l, d, s).state;
    if t.until.Some? {
      SilentUntil(l, d, t, t.until.value, pauses);
    }
  }

  /** A search whose first reply is anything else: 200 succeeds and ends any cooldown, the rest fails
      and leaves the cooldown as it was, and neither is retried. */
  lemma OtherReplies(l: Limits, d: Schedule, s: State)
    requires Settled(s) && |SearchFrom(l, d, s).state.calls| > |s.calls|
    requires var r := d.replies(|s.calls|); r.TransportError? || r.code !in {429, 503}
    ensures var Ended(o, t) := SearchFrom(l, d, s);
            var r := d.replies(|s.calls|);
            && |t.calls| == |s.calls| + 1
            && (if r.Status? && r.code == 200 then o == Succeeded && t.cooldown == 0 && t.until == None
                else o == Failed && t.cooldown == s.cooldown && t.until == s.until)
  {
    hide Permits, UpTo, SearchFrom;
    SearchMeans(l, d, s);
  }

  // ---- the official spacing ----

  /** The limits of every arXiv engine. */
  predicate ArxivLimits(l: Limits) {
    l.perSec == 1 && 1 <= l.perMin <= 12 && l.minInterval == 3_000_000_000
  }

  /** The upstream names only Retry-After values that `may` allows. */
  ghost predicate Names(d: Schedule, may: int -> bool) {
    forall i: nat :: Limited(d.replies(i)) ==> may(d.replies(i).retryAfter)
  }

  /** In every session of every such upstream adjacent requests keep the official spacing. */
  ghost predicate AlwaysSpaced(l: Limits, may: int -> bool) {
    forall d: Schedule, start: int, pauses: seq<nat> :: Names(d, may) ==>
      Spaced(Session(l, d, Fresh(start), pauses).calls, 3_000_000_000)
  }

  /** In every session of every such upstream each request has the limiter's permission. */
  ghost predicate NeverRetries(l: Limits, may: int -> bool) {
    forall d: Schedule, start: int, pauses: seq<nat> :: Names(d, may) ==>
      Session(l, d, Fresh(start), pauses).calls == Session(l, d, Fresh(start), pauses).grants
  }

  /** No Retry-After that may be named leaves room for a retry in the budget. */
  ghost predicate NoShortWait(may: int -> bool) {
    forall ra: int :: may(ra) ==> ra <= 0 || ra + 2_000_000_000 > 10_000_000_000
  }

  /** While no short wait is named, cooldowns are too long for a retry, and every request is a grant. */
  ghost predicate Unretried(s: State) {
    s.calls == s.grants && (s.cooldown == 0 || !RetryFits(0, s.cooldown)) && Spaced(s.grants, MIN_INTERVAL)
  }

  lemma UnretriedStep(l: Limits, d: Schedule, may: int -> bool, s: State, o: Outcome, t: State)
    requires ArxivLimits(l) && Names(d, may) && NoShortWait(may)
    requires Settled(s) && Unretried(s) && OneSearch(l, d, s, o, t)
    ensures Unretried(t)
  {
    hide UpTo, After;
    var base := |s.calls|;
    if |t.calls| > base {
      var r := d.replies(base);
      if Limited(r) {
        assert may(r.retryAfter);
      }
      assert |t.calls| == base + 1;
      assert t.calls == s.calls + [t.calls[base]];
    }
  }

  lemma FreshUnretried(start: int)
    ensures Unretried(Fresh(start)) && Settled(Fresh(start))
  {}

  lemma {:induction false} UnretriedSession(l: Limits, d: Schedule, may: int -> bool, start: int, pauses: seq<nat>)
    requires ArxivLimits(l) && Names(d, may) && NoShortWait(may)
    ensures Settled(Session(l, d, Fresh(start), pauses)) && Unretried(Session(l, d, Fresh(start), pauses))
  {
    hide Session, Permits, SearchFrom, OneSearch, Settled, Names, NoShortWait, Unretried;
    assert Settled(Fresh(start)) by { FreshUnretried(start); }
    SessionSettled(l, d, Fresh(start), pauses);
    if pauses == [] {
      FreshUnretried(start);
      SessionNone(l, d, Fresh(start));
    } else {
      var n := |pauses| - 1;
      SessionSnoc(l, d, Fresh(start), pauses);
      UnretriedSession(l, d, may, start, pauses[..n]);
      var t := Session(l, d, Fresh(start), pauses[..n]);
      var u := t.(now := t.now + pauses[n]);
      SettledLater(t, u.now);
      SearchMeans(l, d, u);
      UnretriedStep(l, d, may, u, SearchFrom(l, d, u).outcome, SearchFrom(l, d, u).state);
    }
  }

  /** An upstream that rate-limits once with this Retry-After and is instantaneous otherwise; sleeps
      end `late`. */
  function OneLimit(ra: int, late: nat): Schedule {
    Schedule((i: nat) => 0, (i: nat) => late, (i: nat) => if i == 0 then Status(429, ra) else Status(200, 0))
  }

  /** The first search retries at once after the wait. */
  lemma FirstRetries(l: Limits, ra: int, late: nat)
    requires ArxivLimits(l) && ra > 0 && RetryFits(0, ra)
    ensures Session(l, OneLimit(ra, late), Fresh(0), [0]) == State(ra + late, [0, ra + late], 1, [0], 0, None)
  {
    var d, s := OneLimit(ra, late), Fresh(0);
    assert Permits(l, [], 0);
    var s1 := s.(grants := [] + [0]);
    assert Await(l, d, 0, s) == Granted(s1);
    assert SearchFrom(l, d, s) == AfterLimit(d, 0, Sent(d, s1), ra);
    assert Session(l, d, s, [0][..0]) == s;
    assert [0] + [ra + late] == [0, ra + late];
  }

  /** When the limiter no longer holds the first request against it, a search right after the retry
      is granted: two adjacent requests at the same instant. */
  lemma SecondAtOnce(l: Limits, ra: int, late: nat)
    requires ArxivLimits(l) && ra > 0 && RetryFits(0, ra)
    requires ra + late >= if l.perMin > 1 then MIN_INTERVAL else MINUTE
    ensures Session(l, OneLimit(ra, late), Fresh(0), [0, 0]).calls == [0, ra + late, ra + late]
  {
    hide Session, SearchFrom, Permits, OneLimit, ArxivLimits, RetryFits, NextCooldown;
    var d, at := OneLimit(ra, late), ra + late;
    FirstRetries(l, ra, late);
    SessionSnoc(l, d, Fresh(0), [0, 0]);
    assert [0, 0][..1] == [0];
    LimiterClear(l, at);
    SecondSucceeds(l, ra, late, State(at, [0, at], 1, [0], 0, None));
    assert [0, at] + [at] == [0, at, at];
  }

  lemma SecondSucceeds(l: Limits, ra: int, late: nat, s: State)
    requires |s.calls| > 0 && s.until.None? && Permits(l, s.grants, s.now)
    ensures SearchFrom(l, OneLimit(ra, late), s).state.calls == s.calls + [s.now]
  {
    hide Permits;
    assert Await(l, OneLimit(ra, late), s.now, s) == Granted(Allowed(s));
  }

  lemma LimiterClear(l: Limits, at: int)
    requires ArxivLimits(l) && at >= if l.perMin > 1 then MIN_INTERVAL else MINUTE
    ensures Permits(l, [0], at)
  {
    assert [0] == [] + [0];
    FilterSnoc([], 0, IsAfter(at - SECOND));
    FilterSnoc([], 0, IsAfter(at - MINUTE));
  }

  /** The retry asks no limiter and is not entered in its log. The official spacing of adjacent
      requests therefore holds, over all sessions, latencies and late wake-ups, exactly when no
      retry can happen at all: when no Retry-After the upstream may name, once waited for, leaves
      time for a request within the budget. */
  lemma SpacingIff(l: Limits, may: int -> bool)
    requires ArxivLimits(l)
    ensures AlwaysSpaced(l, may) <==> NoShortWait(may)
    ensures NeverRetries(l, may) <==> NoShortWait(may)
  {
    hide Session, Permits, UpTo;
    if NoShortWait(may) {
      forall d: Schedule, start: int, pauses: seq<nat> | Names(d, may)
        ensures Unretried(Session(l, d, Fresh(start), pauses))
      {
        UnretriedSession(l, d, may, start, pauses);
      }
    } else {
      var ra :| may(ra) && ra > 0 && RetryFits(0, ra);
      var d := OneLimit(ra, MINUTE);
      FirstRetries(l, ra, MINUTE);
      SecondAtOnce(l, ra, MINUTE);
      var t := Session(l, d, Fresh(0), [0, 0]);
      assert t.calls[2] - t.calls[1] == 0;
      assert !Spaced(t.calls, MIN_INTERVAL);
      assert Session(l, d, Fresh(0), [0]).calls != Session(l, d, Fresh(0), [0]).grants;
    }
  }

  /** Two concrete breaches under the default limits, with no delay anywhere. Retry-After of one
      second: the two requests of one search are a second apart. Of three seconds: the retry is in
      time, but the next search sends its request at the same instant. */
  lemma RetryTooSoon()
    ensures var l := Limits(MAX_PER_SEC, MAX_PER_MIN, MIN_INTERVAL);
            && Session(l, OneLimit(1_000_000_000, 0), Fresh(0), [0]).calls == [0, 1_000_000_000]
            && Session(l, OneLimit(3_000_000_000, 0), Fresh(0), [0, 0]).calls == [0, 3_000_000_000, 3_000_000_000]
  {
    hide Session, OneLimit;
    var l := Limits(MAX_PER_SEC, MAX_PER_MIN, MIN_INTERVAL);
    FirstRetries(l, SECOND, 0);
    SecondAtOnce(l, 3 * SECOND, 0);
  }

  // ---- the engine ----

  /** The clock and the upstream, which do what the schedule says. */
  class World {
    const d: Schedule
    var now: int
    ghost var calls: seq<int>  // when each upstream request was sent
    var served: nat
    var naps: nat

    ghost predicate Valid()
      reads this
    {
      served == |calls|
    }

    constructor (start: int, d: Schedule)
      ensures Valid() && calls == [] && now == start && naps == 0 && this.d == d
    {
      this.d := d;
      now, calls, served, naps := start, [], 0, 0;
    }

    method Sleep(t: nat)
      modifies `now, `naps
      ensures now == old(now) + t + d.oversleep(old(naps)) && naps == old(naps) + 1
    {
      now, naps := now + t + d.oversleep(naps), naps + 1;
    }

    method Fetch() returns (r: Reply)
      requires Valid()
      modifies `now, `calls, `served
      ensures Valid() && calls == old(calls) + [old(now)]
      ensures r == d.replies(|old(calls)|) && now == old(now) + d.latency(|old(calls)|)
    {
      r := d.replies(served);
      calls := calls + [now];
      now := now + d.latency(served);
      served := served + 1;
    }
  }

  class ArxivEngine {
    const limiter: RateLimiter
    var cooldown: int
    var cooldownUntil: Option<int>

    ghost predicate Valid()
      reads this, limiter
    {
      && limiter.Valid() && ArxivLimits(limiter.Config()) && 0 <= cooldown <= COOLDOWN_MAX
      && (cooldown == 0 <==> cooldownUntil.None?)
    }

    ghost function View(w: World): State
      reads this, limiter, w
    {
      State(w.now, w.calls, w.naps, limiter.grants, cooldown, cooldownUntil)
    }

    /** Missing limits default to, and looser ones are clamped to, the built-in ones. */
    constructor (perSec: int, perMin: int, ghost start: int)
      ensures Valid() && fresh(limiter) && limiter.clock == start && limiter.grants == []
      ensures cooldown == 0 && cooldownUntil == None
      ensures limiter.perSec == 1 && limiter.minInterval == 3_000_000_000
      ensures limiter.perMin == if 1 <= perMin <= 12 then perMin else 12
    {
      var sec := if perSec <= 0 then MAX_PER_SEC else perSec;
      var min := if perMin <= 0 then MAX_PER_MIN else perMin;
      sec := if sec > MAX_PER_SEC then MAX_PER_SEC else sec;
      min := if min > MAX_PER_MIN then MAX_PER_MIN else min;
      var l := new RateLimiter(sec, min, start);
      l.WithMinInterval(MIN_INTERVAL);
      limiter, cooldown, cooldownUntil := l, 0, None;
    }

    function Remaining(now: int): int
      reads this
    {
      if cooldownUntil.Some? && cooldownUntil.value > now then cooldownUntil.value - now else 0
    }

    method EnterCooldown(w: World, retryAfter: int)
      requires Valid()
      modifies `cooldown, `cooldownUntil
      ensures Valid() && View(w) == Cooled(old(View(w)), retryAfter)
    {
      var cd := NextCooldown(cooldown, retryAfter);
      cooldown, cooldownUntil := cd, Some(w.now + cd);
    }

    method RecordSuccess(w: World)
      requires Valid()
      modifies `cooldown, `cooldownUntil
      ensures Valid() && View(w) == Cleared(old(View(w)))
    {
      cooldown, cooldownUntil := 0, None;
    }

    method Poll(w: World) returns (ok: bool)
      requires Valid() && limiter.clock <= w.now
      modifies limiter
      ensures Valid() && limiter.clock == w.now && limiter.Config() == old(limiter.Config())
      ensures ok == old(Permits(limiter.Config(), limiter.grants, w.now))
      ensures View(w) == if ok then Allowed(old(View(w))) else old(View(w))
    {
      hide Permits, UpTo, After;
      ok := limiter.Allow(w.now);
      assert old(limiter.grants) + [] == old(limiter.grants);
    }

    /** Waits for the limiter. Gives up instead of sleeping once a request could no longer fit the
        budget, so it sleeps at most 17 times. */
    method AwaitPermit(w: World, start: int) returns (ok: bool)
      requires Valid() && w.Valid() && limiter.clock <= w.now == start
      modifies limiter, w`now, w`naps
      ensures Valid() && w.Valid() && limiter.clock == w.now && limiter.Config() == old(limiter.Config())
      ensures WaitEnd(ok, View(w)) == old(Await(limiter.Config(), w.d, start, View(w)))
      ensures w.naps <= old(w.naps) + 17
    {
      hide Permits, UpTo, After, Settled;
      ghost var l, s0 := limiter.Config(), View(w);
      ok := Poll(w);
      while !ok
        invariant Valid() && w.Valid() && limiter.clock == w.now && limiter.Config() == l
        invariant !ok ==> !Permits(l, limiter.grants, w.now) &&
                            Await(l, w.d, start, s0) == Await(l, w.d, start, View(w))
        invariant ok ==> Await(l, w.d, start, s0) == Granted(View(w))
        decreases start + SEARCH_BUDGET - w.now, !ok
      {
        if w.now - start + RETRY_ESTIMATE > SEARCH_BUDGET {
          SleepsBounded(l, w.d, s0);
          return;
        }
        ghost var s := View(w);
        w.Sleep(POLL);
        assert View(w) == Slept(w.d, s, POLL);
        ok := Poll(w);
      }
      SleepsBounded(l, w.d, s0);
    }

    /** A rate-limited first reply: retry once if wait and request fit the budget, else cool down. */
    method HandleRateLimited(w: World, start: int, retryAfter: int) returns (o: Outcome)
      requires Valid() && w.Valid() && limiter.clock <= w.now
      modifies `cooldown, `cooldownUntil, w
      ensures Valid() && w.Valid() && limiter.clock <= w.now
      ensures Ended(o, View(w)) == old(AfterLimit(w.d, start, View(w), retryAfter))
    {
      hide UpTo, After, ArxivLimits;
      var wait := NextCooldown(cooldown, retryAfter);
      if w.now - start + wait + RETRY_ESTIMATE <= SEARCH_BUDGET {
        w.Sleep(wait);
        var r := w.Fetch();
        if Okay(r) {
          RecordSuccess(w);
          return Succeeded;
        }
      }
      EnterCooldown(w, retryAfter);
      o := RateLimited;
    }

    /** One search. It ends as the specification says, and so sends nothing while a cooldown runs, at
        most two requests in all, the first with the limiter's permission and the second exactly when
        it fits the budget; the replies decide outcome and cooldown. */
    method Search(w: World) returns (o: Outcome)
      requires Valid() && w.Valid() && limiter.clock <= w.now
      modifies `cooldown, `cooldownUntil, limiter, w
      ensures Valid() && w.Valid() && limiter.clock <= w.now
      ensures Ended(o, View(w)) == old(SearchFrom(limiter.Config(), w.d, View(w)))
      ensures OneSearch(old(limiter.Config()), w.d, old(View(w)), o, View(w))
    {
      hide OneSearch, Permits, UpTo, Await, AfterLimit, WaitedWell;
      assert Settled(View(w)) by { UpToLater(limiter.grants, limiter.clock, w.now); }
      SearchMeans(limiter.Config(), w.d, View(w));
      var start := w.now;
      if Remaining(w.now) > 0 {
        return CoolingDown;
      }
      var ok := AwaitPermit(w, start);
      if !ok {
        return WaitGivenUp;
      }
      var r := w.Fetch();
      if r.TransportError? {
        return Failed;
      }
      if Limited(r) {
        o := HandleRateLimited(w, start, r.retryAfter);
        return;
      }
      if r.code != 200 {
        return Failed;
      }
      RecordSuccess(w);
      o := Succeeded;
    }
  }

  lemma SleepsBounded(l: Limits, d: Schedule, s: State)
    ensures Await(l, d, s.now, s).state.naps <= s.naps + 17
  {
    AwaitMeans(l, d, s.now, s);
  }
}
