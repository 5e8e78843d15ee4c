/** Passive health of one source, from the 20 newest rows of the event table. */
module Health {
  import opened Seqs
  import opened Sorting
  import opened Suspension
  import opened Telemetry

  datatype Status = Unknown | Down | Degraded | Healthy

  datatype Report = Report(status: Status, state: string, sample: nat, consecutive: nat, suspendedUntil: Option<int>,
                           reason: string, confident: bool)

  // ---- the query ----

  /** A source is named by the provider column for providers and by the tool column otherwise. */
  function OfSource(kind: string, name: string): Event -> bool {
    (e: Event) => e.kind == kind && name == if kind == "tool" then e.tool else e.provider
  }

  function AtOf(): Event -> real {
    (e: Event) => e.at as real
  }

  function Reverse<T>(s: seq<T>): (r: seq<T>)
    ensures |r| == |s| && forall i :: 0 <= i < |s| ==> r[i] == s[|s| - 1 - i]
  {
    if s == [] then [] else [s[|s| - 1]] + Reverse(s[..|s| - 1])
  }

  /** ORDER BY occurred_at DESC, id DESC: a stable sort of the rows from the highest id down. */
  function NewestFirst(table: seq<Event>): seq<Event> {
    SortDesc(Reverse(table), AtOf())
  }

  function Newest(s: seq<Event>, n: nat): seq<Event> {
    if |s| > n then s[..n] else s
  }

  function Window(table: seq<Event>, kind: string, name: string): seq<Event> {
    Newest(NewestFirst(Filter(table, OfSource(kind, name))), WINDOW)
  }

  /** A table in time order is read backwards. */
  lemma NewestFirstIsReverse(table: seq<Event>, clock: int)
    requires InTimeOrder(table, clock)
    ensures NewestFirst(table) == Reverse(table)
  {
    var r := Reverse(table);
    forall i, j | 0 <= i < j < |r| ensures AtOf()(r[i]) >= AtOf()(r[j]) {
      assert table[|r| - 1 - j].at <= table[|r| - 1 - i].at;
    }
    SortDescIdentity(r, AtOf());
  }

  lemma {:induction false} FilterInTimeOrder(log: seq<Event>, p: Event -> bool, clock: int)
    requires InTimeOrder(log, clock)
    ensures InTimeOrder(Filter(log, p), clock)
  {
    if log != [] {
      var i, e := log[..|log| - 1], log[|log| - 1];
      FilterInTimeOrder(i, p, e.at);
      var f := Filter(i, p);
      assert InTimeOrder(f, e.at);
    }
  }

  // ---- the scan ----

  /** Failures before the first success, newest first. */
  function Streak(s: seq<Event>): nat {
    if s == [] || s[0].success then 0 else 1 + Streak(s[1..])
  }

  datatype Anchor = Anchor(at: int, kind: string)

  /** Time and kind the suspension is anchored at: those of the newest failure with an error kind,
      or of the oldest failure in the window when none has one. */
  function AnchorOf(s: seq<Event>): Anchor {
    if s == [] then Anchor(0, "")
    else
      var a, e := AnchorOf(s[..|s| - 1]), s[|s| - 1];
      if !e.success && a.kind == "" then Anchor(e.at, e.errorKind) else a
  }

  predicate FailsOften(window: seq<Event>)
    requires window != []
  {
    |Filter(window, Fails())| as real / |window| as real > 0.20
  }

  function ReportOf(policy: Policy, window: seq<Event>, now: int): Report {
    if window == [] then Report(Unknown, "", 0, 0, None, "", false)
    else
      var streak, a := Streak(window), AnchorOf(window);
      var v := EvaluateSuspension(policy, streak, a.kind, a.at * 1000, now);
      var status :=
        if now - window[0].at * 1000 > DAY_MS then Unknown
        else if streak >= 3 then Down
        else if !window[0].success || FailsOften(window) then Degraded
        else Healthy;
      var state := match status
        case Unknown => "stale" case Down => "suspended" case Degraded => "degraded" case Healthy => "healthy";
      Report(status, state, |window|, streak, if v.suspended then Some(v.until) else None,
             if v.suspended then v.errorKind else "", |window| >= MIN_SAMPLE)
  }

  /** One pass over the window with running counters. */
  method ScanWindow(window: seq<Event>) returns (consecutive: nat, failures: nat, lastAt: int, lastKind: string)
    ensures consecutive == Streak(window) && failures == |Filter(window, Fails())|
    ensures Anchor(lastAt, lastKind) == AnchorOf(window)
  {
    consecutive, failures, lastAt, lastKind := 0, 0, 0, "";
    var seenSuccess := false;
    for i := 0 to |window|
      invariant failures == |Filter(window[..i], Fails())|
      invariant Anchor(lastAt, lastKind) == AnchorOf(window[..i])
      invariant Streak(window) == consecutive + if seenSuccess then 0 else Streak(window[i..])
    {
      var e := window[i];
      assert window[i..][1..] == window[i + 1..];
      FilterSnoc(window[..i], e, Fails());
      AnchorSnoc(window[..i], e);
      assert window[..i + 1] == window[..i] + [e];
      if e.success {
        seenSuccess := true;
      } else {
        if lastKind == "" {
          lastAt, lastKind := e.at, e.errorKind;
        }
        if !seenSuccess {
          consecutive := consecutive + 1;
        }
        failures := failures + 1;
      }
    }
    assert window[..|window|] == window;
  }

  lemma AnchorSnoc(s: seq<Event>, e: Event)
    ensures AnchorOf(s + [e]) == if !e.success && AnchorOf(s).kind == "" then Anchor(e.at, e.errorKind) else AnchorOf(s)
  {
    assert (s + [e])[..|s|] == s;
  }

  /** The report that the counters of the scan add up to. */
  method ScanHealth(policy: Policy, window: seq<Event>, now: int) returns (h: Report)
    ensures h == ReportOf(policy, window, now)
  {
    hide Streak, AnchorOf, Filter, EvaluateSuspension;
    if window == [] {
      return Report(Unknown, "", 0, 0, None, "", false);
    }
    var consecutive, failures, lastAt, lastKind := ScanWindow(window);
    var v := EvaluateSuspension(policy, consecutive, lastKind, lastAt * 1000, now);
    var status, state := Healthy, if v.suspended then "suspended" else "";
    if now - window[0].at * 1000 > DAY_MS {
      status, state := Unknown, "stale";
    } else if consecutive >= 3 {
      status := Down;
      state := if state == "" then "suspended" else state;
    } else if !window[0].success || failures as real / |window| as real > 0.20 {
      status, state := Degraded, "degraded";
    } else {
      status, state := Healthy, "healthy";
    }
    h := Report(status, state, |window|, consecutive, if v.suspended then Some(v.until) else None,
                if v.suspended then v.errorKind else "", |window| >= MIN_SAMPLE);
  }

  // ---- the window decides like the whole history ----

  /** The newest n events of a source's history are all failures (and there are n). */
  ghost predicate LastFail(history: seq<Event>, n: nat) {
    n <= |history| && forall i :: |history| - n <= i < |history| ==> !history[i].success
  }

  lemma {:induction false} StreakAtLeast(s: seq<Event>, n: nat)
    ensures Streak(s) >= n <==> n <= |s| && forall i :: 0 <= i < n ==> !s[i].success
  {
    if n > 0 && s != [] {
      StreakAtLeast(s[1..], n - 1);
      if n <= |s| && forall i :: 0 <= i < n ==> !s[i].success {
        assert forall i :: 0 <= i < n - 1 ==> s[1..][i] == s[i + 1];
      }
      if !s[0].success && n - 1 <= |s[1..]| && forall i :: 0 <= i < n - 1 ==> !s[1..][i].success {
        assert forall i :: 1 <= i < n ==> s[i] == s[1..][i - 1];
      }
    }
  }

  lemma WindowReads(history: seq<Event>, clock: int)
    requires InTimeOrder(history, clock)
    ensures var w := Newest(NewestFirst(history), WINDOW);
            && |w| == Min(20, |history|)
            && (forall i :: 0 <= i < |w| ==> w[i] == history[|history| - 1 - i])
  {
    NewestFirstIsReverse(history, clock);
  }

  /** Three leading failures in the window are three last failures of the source's whole history. */
  lemma WindowStreak(history: seq<Event>, clock: int)
    requires InTimeOrder(history, clock)
    ensures var w := Newest(NewestFirst(history), WINDOW);
            && (Streak(w) >= 3 <==> LastFail(history, 3))
            && |w| == Min(WINDOW, |history|) && (history != [] ==> w[0] == history[|history| - 1])
  {
    WindowReads(history, clock);
    hide NewestFirst, Newest, Streak;
    var w, n := Newest(NewestFirst(history), WINDOW), |history|;
    StreakAtLeast(w, 3);
    if 3 <= n {
      assert w[0] == history[n - 1] && w[1] == history[n - 2] && w[2] == history[n - 3];
    }
  }

  /** A source is reported down exactly when its newest event is at most a day old and its last
      three events, in the unbounded history, are failures. */
  lemma DownIff(policy: Policy, history: seq<Event>, clock: int, now: int)
    requires InTimeOrder(history, clock)
    ensures ReportOf(policy, Newest(NewestFirst(history), WINDOW), now).status == Down
            <==> LastFail(history, 3) && now - history[|history| - 1].at * 1000 <= 86_400_000
  {
    WindowStreak(history, clock);
  }

  /** The verdict on a window, newest event first: stale after a day; else down on three failures in a
      row, degraded when the newest failed or more than a fifth did, healthy otherwise; trusted from
      five events on. */
  lemma ReportMeans(policy: Policy, w: seq<Event>, now: int)
    requires w != []
    ensures var h, failures := ReportOf(policy, w, now), |Filter(w, Fails())|;
            var stale := now - w[0].at * 1000 > 86_400_000;
            var three := |w| >= 3 && !w[0].success && !w[1].success && !w[2].success;
            && h.sample == |w| && (h.confident <==> |w| >= 5)
            && (stale ==> h.status == Unknown && h.state == "stale")
            && (!stale && three ==> h.status == Down && h.state == "suspended")
            && (!stale && !three && (!w[0].success || 5 * failures > |w|)
              ==> h.status == Degraded && h.state == "degraded")
            && (!stale && !three && w[0].success && 5 * failures <= |w| ==> h.status == Healthy && h.state == "healthy")
  {
    StreakAtLeast(w, 3);
    Fifth(|Filter(w, Fails())|, |w|);
    hide Streak, AnchorOf, EvaluateSuspension, Filter, FailsOften;
  }

  lemma Fifth(failures: nat, n: nat)
    requires n > 0
    ensures failures as real / n as real > 0.20 <==> 5 * failures > n
  {
    FifthOf(failures as real, n as real);
    assert 5.0 * failures as real == (5 * failures) as real;
  }

  lemma FifthOf(f: real, n: real)
    requires n > 0.0
    ensures f / n > 0.20 <==> 5.0 * f > n
  {
    var q := f / n;
    assert q * n == f;
    if q > 0.20 {
      assert (q - 0.20) * n > 0.0;
    } else {
      assert (0.20 - q) * n >= 0.0;
    }
  }

  /** Events of other sources do not bear on a source; its own are appended to its history. A source is
      named by the tool for tools and by the provider for all else. */
  lemma OthersIgnored(table: seq<Event>, e: Event, kind: string, name: string)
    ensures Filter(table + [e], OfSource(kind, name))
            == Filter(table, OfSource(kind, name))
               + if e.kind == kind && (if kind == "tool" then e.tool else e.provider) == name then [e] else []
  {
    FilterSnoc(table, e, OfSource(kind, name));
  }

  lemma {:induction false} AnchorIsFirst(s: seq<Event>, k: nat)
    requires 0 < k <= |s| && !s[0].success && s[0].errorKind != ""
    ensures AnchorOf(s[..k]) == Anchor(s[0].at, s[0].errorKind)
  {
    if k > 1 {
      AnchorIsFirst(s, k - 1);
      assert s[..k][..k - 1] == s[..k - 1];
    } else {
      assert s[..1][..0] == [];
    }
  }

  /** A suspension is shown, until `until` and for this reason, exactly when the failures go back
      to the third newest event and the anchor's pause has not run out. */
  ghost predicate SuspendedBy(policy: Policy, a: Anchor, failing: bool, now: int, h: Report) {
    var until := a.at * 1000 + Pause(policy, a.kind);
    && (h.suspendedUntil.Some? <==> failing && a.at * 1000 != ZERO_TIME && now < until)
    && (h.suspendedUntil.Some? ==> h.suspendedUntil == Some(until) && h.reason == a.kind)
  }

  lemma SuspendedWindow(policy: Policy, w: seq<Event>, now: int)
    ensures SuspendedBy(policy, AnchorOf(w), Streak(w) >= 3, now, ReportOf(policy, w, now))
  {
    hide Pause, AnchorOf, Filter;
  }

  /** A suspension is shown exactly when the last three events of the whole history are failures and
      now is before the anchor plus its pause; the anchor is the newest failure if that has an error
      kind (and AnchoredAtNewestIff says when else). */
  lemma SuspendedIff(policy: Policy, history: seq<Event>, clock: int, now: int)
    requires InTimeOrder(history, clock)
    ensures var w := Newest(NewestFirst(history), WINDOW);
            && SuspendedBy(policy, AnchorOf(w), LastFail(history, 3), now, ReportOf(policy, w, now))
            && (LastFail(history, 3) && history[|history| - 1].errorKind != "" ==>
                  AnchorOf(w) == Anchor(history[|history| - 1].at, history[|history| - 1].errorKind))
  {
    var w := Newest(NewestFirst(history), WINDOW);
    hide ReportOf, SuspendedBy, NewestFirst, Newest, Streak, AnchorOf;
    WindowStreak(history, clock);
    SuspendedWindow(policy, w, now);
    if LastFail(history, 3) && history[|history| - 1].errorKind != "" {
      AnchorIsFirst(w, |w|);
      assert w[..|w|] == w;
    }
  }

  /** Where the anchor is taken when the newest failure carries no error kind. */
  lemma {:induction false} AnchorKind(s: seq<Event>)
    ensures AnchorOf(s).kind == "" <==> forall i :: 0 <= i < |s| && !s[i].success ==> s[i].errorKind == ""
    ensures (exists i :: 0 <= i < |s| && !s[i].success) && AnchorOf(s).kind == "" ==>
              exists i :: 0 <= i < |s| && !s[i].success && s[i].at == AnchorOf(s).at
                          && forall j :: i < j < |s| ==> s[j].success
  {
    if s != [] {
      var n := |s| - 1;
      AnchorKind(s[..n]);
      assert forall i :: 0 <= i < n ==> s[..n][i] == s[i];
      if !s[n].success && AnchorOf(s).kind == "" {
        assert AnchorOf(s).at == s[n].at;
      }
    }
  }

  /** The documented anchor, the newest failure, is the one used exactly when that failure has an
      error kind, or no failure of the window has one and the oldest of them is as recent. */
  lemma AnchoredAtNewestIff(w: seq<Event>, oldest: nat)
    requires w != [] && !w[0].success
    requires oldest < |w| && !w[oldest].success && forall j :: oldest < j < |w| ==> w[j].success
    ensures AnchorOf(w) == Anchor(w[0].at, w[0].errorKind)
            <==> w[0].errorKind != "" ||
                 ((forall i :: 0 <= i < |w| && !w[i].success ==> w[i].errorKind == "") && w[oldest].at == w[0].at)
  {
    AnchorKind(w);
    if w[0].errorKind != "" {
      AnchorIsFirst(w, |w|);
      assert w[..|w|] == w;
    } else if AnchorOf(w).kind == "" {
      var i :| 0 <= i < |w| && !w[i].success && w[i].at == AnchorOf(w).at && forall j :: i < j < |w| ==> w[j].success;
      assert i == oldest;
    }
  }

  /** Row k of the window is the anchor: the newest failure with an error kind, or the oldest failure
      when none has one. */
  ghost predicate IsAnchor(w: seq<Event>, k: nat) {
    && k < |w| && !w[k].success
    && if w[k].errorKind != "" then forall i :: 0 <= i < k && !w[i].success ==> w[i].errorKind == ""
       else forall i :: 0 <= i < |w| && i != k && !w[i].success ==> w[i].errorKind == "" && i < k
  }

  lemma {:induction false} AnchorPlace(w: seq<Event>) returns (k: nat)
    requires exists i :: 0 <= i < |w| && !w[i].success
    ensures IsAnchor(w, k) && AnchorOf(w) == Anchor(w[k].at, w[k].errorKind)
  {
    var n := |w| - 1;
    var init := w[..n];
    assert forall i :: 0 <= i < n ==> init[i] == w[i];
    AnchorKind(init);
    if exists i :: 0 <= i < n && !w[i].success {
      var i :| 0 <= i < n && !w[i].success;
      assert !init[i].success;
      k := AnchorPlace(init);
      if !w[n].success && AnchorOf(init).kind == "" {
        k := n;
      }
    } else {
      k := n;
      assert AnchorOf(init).kind == "";
    }
  }

  /** The pause counts from the instant of the newest failure exactly when that failure has an error
      kind, or the row that serves as anchor instead is of the same second. */
  lemma AnchoredAtInstantIff(w: seq<Event>)
    requires w != [] && !w[0].success
    ensures AnchorOf(w).at == w[0].at
            <==> w[0].errorKind != "" || exists k: nat :: IsAnchor(w, k) && w[k].at == w[0].at
  {
    var k := AnchorPlace(w);
    forall j: nat | IsAnchor(w, j) ensures j == k {}
    if w[0].errorKind != "" {
      assert IsAnchor(w, 0);
    }
  }

  function SampleEvent(id: nat, at: int, errorKind: string): Event {
    Event(id, at, "d", "tool", "t", "", false, 0, false, 0, errorKind)
  }

  /** Of three failures the newest, at 20, has no error kind: a suspension lasts until the pause
      after the one at 10 is over, not until that after the newest. */
  lemma AnchoredEarlier(policy: Policy, now: int)
    ensures var w := [SampleEvent(2, 20, ""), SampleEvent(1, 10, "timeout"), SampleEvent(0, 5, "timeout")];
            var until := 10_000 + Pause(policy, "timeout");
            ReportOf(policy, w, now).suspendedUntil == if now < until then Some(until) else None
  {
    var w := [SampleEvent(2, 20, ""), SampleEvent(1, 10, "timeout"), SampleEvent(0, 5, "timeout")];
    assert !w[0].success && w[1].errorKind == w[2].errorKind != "";
    var k := AnchorPlace(w);
    assert k == 1;
    assert Streak(w) >= 3 by { StreakAtLeast(w, 3); }
    hide Pause, AnchorOf, Streak;
    SuspendedWindow(policy, w, now);
  }

  /** A success as the newest event clears both verdicts. */
  lemma SuccessClears(policy: Policy, history: seq<Event>, clock: int, now: int)
    requires InTimeOrder(history, clock) && history != [] && history[|history| - 1].success
    ensures var h := ReportOf(policy, Newest(NewestFirst(history), WINDOW), now);
            h.status != Down && h.suspendedUntil == None && h.consecutive == 0
  {
    WindowStreak(history, clock);
  }

  // ---- the pruned table ----

  lemma {:induction false} FilterBoth(log: seq<Event>, p: Event -> bool, q: Event -> bool)
    ensures Filter(Filter(log, p), q) == Filter(Filter(log, q), p)
  {
    if log != [] {
      var i, e := log[..|log| - 1], log[|log| - 1];
      FilterBoth(i, p, q);
      FilterSnoc(Filter(i, p), e, q);
      FilterSnoc(Filter(i, q), e, p);
    }
  }

  lemma CutPoint(history: seq<Event>, cut: int, clock: int) returns (m: nat)
    requires InTimeOrder(history, clock)
    ensures m <= |history| && forall i :: 0 <= i < |history| ==> (i < m <==> history[i].at < cut)
  {
    m := |history|;
    while m > 0 && history[m - 1].at >= cut
      invariant m <= |history| && forall i :: m <= i < |history| ==> history[i].at >= cut
    {
      m := m - 1;
    }
  }

  /** A cleanup leaves a suffix of a history in time order. */
  lemma SurvivorsSuffix(history: seq<Event>, cut: int, clock: int) returns (m: nat)
    requires InTimeOrder(history, clock)
    ensures m <= |history| && Survivors(history, cut) == history[m..]
    ensures forall i :: 0 <= i < |history| ==> (i < m <==> history[i].at < cut)
  {
    hide Filter;
    m := CutPoint(history, cut, clock);
    assert history == history[..m] + history[m..];
    FilterConcat(history[..m], history[m..], NotBefore(cut));
    FilterAll(history[..m], NotBefore(cut));
    FilterAll(history[m..], NotBefore(cut));
  }

  lemma SuffixFails(history: seq<Event>, m: nat, cut: int)
    requires m <= |history| && forall i :: 0 <= i < |history| ==> (i < m <==> history[i].at < cut)
    ensures LastFail(history[m..], 3) <==> LastFail(history, 3) && history[|history| - 3].at >= cut
  {
    var t := history[m..];
    if LastFail(t, 3) {
      forall i | |history| - 3 <= i < |history| ensures !history[i].success {
        assert t[i - m] == history[i];
      }
    }
  }

  /** The window of the pruned table is that of a suffix of the source's history. */
  lemma PrunedWindow(log: seq<Event>, kind: string, name: string, cut: int, clock: int) returns (m: nat)
    requires InTimeOrder(log, clock)
    ensures var history := Filter(log, OfSource(kind, name));
            && m <= |history| && InTimeOrder(history[m..], clock)
            && Window(Survivors(log, cut), kind, name) == Newest(NewestFirst(history[m..]), WINDOW)
            && (LastFail(history[m..], 3) <==> LastFail(history, 3) && history[|history| - 3].at >= cut)
  {
    var history := Filter(log, OfSource(kind, name));
    FilterBoth(log, NotBefore(cut), OfSource(kind, name));
    FilterInTimeOrder(log, OfSource(kind, name), clock);
    m := SurvivorsSuffix(history, cut, clock);
    FilterInTimeOrder(history, NotBefore(cut), clock);
    SuffixFails(history, m, cut);
  }

  /** The last three events of the history are failures, and no cleanup has dropped them. */
  ghost predicate StillFailing(history: seq<Event>, cut: int) {
    LastFail(history, 3) && history[|history| - 3].at >= cut
  }

  /** On the store's pruned table a source is down exactly when it is on the full log and the third
      newest of its events has survived every cleanup. */
  lemma DownAfterCleanup(policy: Policy, log: seq<Event>, kind: string, name: string, cut: int, clock: int, now: int)
    requires InTimeOrder(log, clock)
    ensures var history := Filter(log, OfSource(kind, name));
            ReportOf(policy, Window(Survivors(log, cut), kind, name), now).status == Down
            <==> StillFailing(history, cut) && now - history[|history| - 1].at * 1000 <= 86_400_000
  {
    hide ReportOf, Window;
    var m := PrunedWindow(log, kind, name, cut, clock);
    DownIff(policy, Filter(log, OfSource(kind, name))[m..], clock, now);
  }

  /** On the pruned table a suspension is shown exactly when it would be on the full log and the third
      newest event has survived. */
  lemma SuspendedAfterCleanup(policy: Policy, log: seq<Event>, kind: string, name: string, cut: int, clock: int,
                              now: int)
    requires InTimeOrder(log, clock)
    ensures var history, w := Filter(log, OfSource(kind, name)), Window(Survivors(log, cut), kind, name);
            && SuspendedBy(policy, AnchorOf(w), StillFailing(history, cut), now, ReportOf(policy, w, now))
            && (StillFailing(history, cut) && history[|history| - 1].errorKind != "" ==>
                  AnchorOf(w) == Anchor(history[|history| - 1].at, history[|history| - 1].errorKind))
  {
    hide ReportOf, Window, AnchorOf, SuspendedBy;
    var m := PrunedWindow(log, kind, name, cut, clock);
    SuspendedIff(policy, Filter(log, OfSource(kind, name))[m..], clock, now);
  }

  /** On the pruned table too a success as the newest event clears both verdicts, dropped or not. */
  lemma SuccessAfterCleanup(policy: Policy, log: seq<Event>, kind: string, name: string, cut: int, clock: int, now: int)
    requires InTimeOrder(log, clock)
    requires var history := Filter(log, OfSource(kind, name)); history != [] && history[|history| - 1].success
    ensures var h := ReportOf(policy, Window(Survivors(log, cut), kind, name), now);
            h.status != Down && h.suspendedUntil == None && h.consecutive == 0
  {
    var history := Filter(log, OfSource(kind, name));
    var m := PrunedWindow(log, kind, name, cut, clock);
    if m < |history| {
      hide ReportOf, Window;
      SuccessClears(policy, history[m..], clock, now);
    } else {
      assert NewestFirst(history[m..]) == [] by { NewestFirstIsReverse(history[m..], clock); }
    }
  }

  /** Three recent failures are all there is of a source: it is down, but no more after a cleanup
      that drops the oldest. */
  lemma CleanupHidesDown(policy: Policy, log: seq<Event>, kind: string, name: string, now: int)
    requires |log| == 3 && InTimeOrder(log, now) && forall e :: e in log ==> !e.success && OfSource(kind, name)(e)
    requires log[0].at < log[1].at && now - log[2].at * 1000 <= 86_400_000
    ensures ReportOf(policy, Window(Survivors(log, log[0].at), kind, name), now).status == Down
    ensures ReportOf(policy, Window(Survivors(log, log[1].at), kind, name), now).status != Down
  {
    FilterAll(log, OfSource(kind, name));
    hide ReportOf, Window, Survivors, InTimeOrder, Filter;
    assert forall i :: 0 <= i < 3 ==> log[i] in log;
    DownAfterCleanup(policy, log, kind, name, log[0].at, now, now);
    DownAfterCleanup(policy, log, kind, name, log[1].at, now, now);
  }

  /** The last 20 events of a history that are not before the cutoff, newest first. */
  function Latest(history: seq<Event>, cut: int): seq<Event> {
    Newest(Reverse(Survivors(history, cut)), WINDOW)
  }

  lemma LatestIsWindow(log: seq<Event>, kind: string, name: string, cut: int, clock: int)
    requires InTimeOrder(log, clock)
    ensures Window(Survivors(log, cut), kind, name) == Latest(Filter(log, OfSource(kind, name)), cut)
  {
    var history := Filter(log, OfSource(kind, name));
    FilterBoth(log, NotBefore(cut), OfSource(kind, name));
    FilterInTimeOrder(log, OfSource(kind, name), clock);
    FilterInTimeOrder(history, NotBefore(cut), clock);
    NewestFirstIsReverse(Survivors(history, cut), clock);
  }

  /** The health of one source, as read from the store: what the whole log says, as far as cleanup
      has left the last three events. */
  method HealthOf(st: Store, policy: Policy, kind: string, name: string, now: int) returns (h: Report)
    requires st.Valid()
    ensures h == ReportOf(policy, Window(st.events, kind, name), now)
    ensures var history := Filter(st.log, OfSource(kind, name));
            && (h.status == Down <==>
              StillFailing(history, st.cut) && now - history[|history| - 1].at * 1000 <= 86_400_000)
            && (history != [] && history[|history| - 1].success ==> h.suspendedUntil == None && h.consecutive == 0)
            && SuspendedBy(policy, AnchorOf(Latest(history, st.cut)), StillFailing(history, st.cut), now, h)
            && (StillFailing(history, st.cut) && history[|history| - 1].errorKind != "" ==>
                  AnchorOf(Latest(history, st.cut)) ==
                    Anchor(history[|history| - 1].at, history[|history| - 1].errorKind))
  {
    LatestIsWindow(st.log, kind, name, st.cut, st.clock);
    hide ReportOf, Window, Filter, AnchorOf;
    h := ScanHealth(policy, Window(st.events, kind, name), now);
    DownAfterCleanup(policy, st.log, kind, name, st.cut, st.clock, now);
    SuspendedAfterCleanup(policy, st.log, kind, name, st.cut, st.clock, now);
    var history := Filter(st.log, OfSource(kind, name));
    if history != [] && history[|history| - 1].success {
      SuccessAfterCleanup(policy, st.log, kind, name, st.cut, st.clock, now);
    }
  }

  // ---- the 95th percentile ----

  function AtMost(p: int): int -> bool {
    (v: int) => v <= p
  }

  function Below(p: int): int -> bool {
    (v: int) => v < p
  }

  /** Nearest rank: an element with at least 95% of the values at or below it, and fewer below. */
  ghost predicate NearestRank95(values: seq<int>, p: int) {
    && p in values && 100 * |Filter(values, AtMost(p))| >= 95 * |values|
    && 100 * |Filter(values, Below(p))| < 95 * |values|
  }

  /** Sorts a copy and takes one index; the two clamps of the index never apply. */
  method CalculateP95(values: seq<int>) returns (p: int)
    ensures values == [] ==> p == 0
    ensures values != [] ==> NearestRank95(values, p)
    ensures 0 < |values| < 20 ==> forall v :: v in values ==> v <= p
  {
    if values == [] {
      return 0;
    }
    hide Filter, SortAscending;
    var sorted := SortAscending(values);
    SortAscendingCorrect(values);
    var idx := (|sorted| * 95 + 99) / 100;
    assert 1 <= idx <= |sorted|;
    p := sorted[idx - 1];
    RankCounts(sorted, idx - 1);
    CountPermuted(values, sorted, AtMost(p));
    CountPermuted(values, sorted, Below(p));
    assert p in sorted;
    if |sorted| < 20 {
      assert idx == |sorted|;
      LastIsGreatest(sorted);
    }
  }

  lemma LastIsGreatest(s: seq<int>)
    requires s != [] && forall i, j :: 0 <= i < j < |s| ==> s[i] <= s[j]
    ensures forall v :: v in s ==> v <= s[|s| - 1]
  {}

  lemma {:induction false} RankCounts(s: seq<int>, k: nat)
    requires k < |s| && forall i, j :: 0 <= i < j < |s| ==> s[i] <= s[j]
    ensures |Filter(s, AtMost(s[k]))| >= k + 1 && |Filter(s, Below(s[k]))| <= k
  {
    hide Filter;
    assert s == s[..k + 1] + s[k + 1..] && s == s[..k] + s[k..];
    FilterConcat(s[..k + 1], s[k + 1..], AtMost(s[k]));
    FilterAll(s[..k + 1], AtMost(s[k]));
    FilterConcat(s[..k], s[k..], Below(s[k]));
    FilterAll(s[k..], Below(s[k]));
    FilterMonotone(s[..k], Below(s[k]), Below(s[k]));
  }

  lemma CountWithout(t: seq<int>, j: nat, p: int -> bool)
    requires j < |t|
    ensures |Filter(t, p)| == |Filter(t[..j] + t[j + 1..], p)| + if p(t[j]) then 1 else 0
  {
    hide Filter;
    assert t == (t[..j] + [t[j]]) + t[j + 1..];
    FilterConcat(t[..j] + [t[j]], t[j + 1..], p);
    FilterSnoc(t[..j], t[j], p);
    FilterConcat(t[..j], t[j + 1..], p);
  }

  lemma {:induction false} CountPermuted(s: seq<int>, t: seq<int>, p: int -> bool)
    requires multiset(s) == multiset(t)
    ensures |Filter(s, p)| == |Filter(t, p)|
    decreases |s|
  {
    assert |multiset(s)| == |multiset(t)|;
    if s != [] {
      var j := MatchLast(s, t);
      CountWithout(t, j, p);
      CountPermuted(s[..|s| - 1], t[..j] + t[j + 1..], p);
    }
  }

  /** The nearest-rank value is unique, so the statistic does not depend on how it is found. */
  lemma NearestRankUnique(values: seq<int>, p: int, q: int)
    requires NearestRank95(values, p) && NearestRank95(values, q)
    ensures p == q
  {
    if p < q {
      FilterMonotone(values, AtMost(p), Below(q));
    } else if q < p {
      FilterMonotone(values, AtMost(q), Below(p));
    }
  }
}
