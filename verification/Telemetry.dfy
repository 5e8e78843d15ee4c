/** The telemetry store and the passive health verdict it derives: an event table that is pruned,
    daily totals that are kept incrementally, and a scan of each source's 20 newest events. */
module Telemetry {
  import opened Seqs

  const WINDOW: nat := 20
  const MIN_SAMPLE: nat := 5
  const DAY_MS: int := 24 * 3_600_000

  /** What a caller records; the error is its message. */
  datatype Observation = Observation(kind: string, tool: string, provider: string, success: bool, durationMs: int,
                                     cacheHit: bool, resultCount: int, error: Option<string>, errorKind: string)

  /** A row of the event table; `at` in Unix seconds. */
  datatype Event = Event(id: nat, at: int, day: string, kind: string, tool: string, provider: string, success: bool,
                         durationMs: int, cacheHit: bool, resultCount: int, errorKind: string)

  datatype Key = Key(day: string, kind: string, tool: string, provider: string)

  datatype Row = Row(requests: int, successes: int, failures: int, cacheHits: int, durationMs: int, resultCount: int)

  const NO_ROW: Row := Row(0, 0, 0, 0, 0, 0)

  function KeyOf(e: Event): Key {
    Key(e.day, e.kind, e.tool, e.provider)
  }

  function BoolInt(b: bool): int {
    if b then 1 else 0
  }

  function Plus(r: Row, e: Event): Row {
    Row(r.requests + 1, r.successes + BoolInt(e.success), r.failures + 1 - BoolInt(e.success),
        r.cacheHits + BoolInt(e.cacheHit), r.durationMs + e.durationMs, r.resultCount + e.resultCount)
  }

  // ---- totals ----

  function Aggregate(s: seq<Event>): Row {
    if s == [] then NO_ROW else Plus(Aggregate(s[..|s| - 1]), s[|s| - 1])
  }

  function Succeeds(): Event -> bool {
    (e: Event) => e.success
  }

  function Fails(): Event -> bool {
    (e: Event) => !e.success
  }

  function Hits(): Event -> bool {
    (e: Event) => e.cacheHit
  }

  function SumOf(s: seq<Event>, f: Event -> int): int {
    if s == [] then 0 else SumOf(s[..|s| - 1], f) + f(s[|s| - 1])
  }

  /** Each column of an aggregate is what its name says, and the two outcomes add up. */
  lemma {:induction false} AggregateMeans(s: seq<Event>)
    ensures var r := Aggregate(s);
            && r.requests == |s| == r.successes + r.failures
            && r.successes == |Filter(s, Succeeds())| && r.failures == |Filter(s, Fails())|
            && r.cacheHits == |Filter(s, Hits())|
            && r.durationMs == SumOf(s, (e: Event) => e.durationMs)
            && r.resultCount == SumOf(s, (e: Event) => e.resultCount)
  {
    if s != [] {
      AggregateMeans(s[..|s| - 1]);
    }
  }

  function OfKey(k: Key): Event -> bool {
    (e: Event) => KeyOf(e) == k
  }

  /** The daily table says, for every key, the aggregate of all events of that key. */
  ghost predicate TotalsOf(daily: map<Key, Row>, log: seq<Event>) {
    forall k :: (k in daily <==> Filter(log, OfKey(k)) != []) &&
      (k in daily ==> daily[k] == Aggregate(Filter(log, OfKey(k))))
  }

  /** The upsert of one event. */
  function Bump(daily: map<Key, Row>, e: Event): map<Key, Row> {
    daily[KeyOf(e) := Plus(if KeyOf(e) in daily then daily[KeyOf(e)] else NO_ROW, e)]
  }

  /** Events add to one row exactly when day, kind, tool and provider agree: two providers have rows of
      their own. */
  lemma SeparateRows(e: Event, f: Event)
    ensures KeyOf(e) == KeyOf(f) <==> e.day == f.day && e.kind == f.kind && e.tool == f.tool && e.provider == f.provider
  {}

  lemma TotalsStep(daily: map<Key, Row>, log: seq<Event>, e: Event)
    requires TotalsOf(daily, log)
    ensures TotalsOf(Bump(daily, e), log + [e])
  {
    var d := Bump(daily, e);
    forall k
      ensures k in d <==> Filter(log + [e], OfKey(k)) != []
      ensures k in d ==> d[k] == Aggregate(Filter(log + [e], OfKey(k)))
    {
      TotalsStepAt(daily, log, e, k);
    }
  }

  lemma TotalsStepAt(daily: map<Key, Row>, log: seq<Event>, e: Event, k: Key)
    requires k in daily <==> Filter(log, OfKey(k)) != []
    requires k in daily ==> daily[k] == Aggregate(Filter(log, OfKey(k)))
    ensures var d := Bump(daily, e);
            && (k in d <==> Filter(log + [e], OfKey(k)) != [])
            && (k in d ==> d[k] == Aggregate(Filter(log + [e], OfKey(k))))
  {
    var f := Filter(log, OfKey(k));
    FilterSnoc(log, e, OfKey(k));
    if k == KeyOf(e) {
      assert (f + [e])[..|f|] == f;
    }
  }

  // ---- the store ----

  function NotBefore(cut: int): Event -> bool {
    (e: Event) => e.at >= cut
  }

  ghost predicate InTimeOrder(log: seq<Event>, clock: int) {
    && (forall i, j :: 0 <= i < j < |log| ==> log[i].at <= log[j].at)
    && (forall i :: 0 <= i < |log| ==> log[i].at <= clock)
  }

  lemma TimeOrderSnoc(log: seq<Event>, clock: int, e: Event)
    requires InTimeOrder(log, clock) && clock <= e.at
    ensures InTimeOrder(log + [e], e.at)
  {}

  class Store {
    const dayOf: int -> string
    const classify: string -> string
    var events: seq<Event>
    var daily: map<Key, Row>
    var nextId: nat

    ghost var log: seq<Event>  // everything ever recorded
    ghost var cut: int         // the highest retention cutoff applied
    ghost var clock: int

    /** The totals cover everything ever recorded; the table has what no cleanup has dropped. */
    ghost predicate Valid()
      reads this
    {
      && TotalsOf(daily, log) && events == Filter(log, NotBefore(cut))
      && InTimeOrder(log, clock) && cut <= clock && nextId == |log|
      && (forall i :: 0 <= i < |log| ==> log[i].id == i)
    }

    constructor (dayOf: int -> string, classify: string -> string, ghost start: int)
      ensures Valid() && log == [] && clock == cut == start
    {
      this.dayOf, this.classify := dayOf, classify;
      events, daily, nextId, log, cut, clock := [], map[], 0, [], start, start;
    }

    ghost function Stored(o: Observation, now: int): Event
      reads this
    {
      var kind := if o.kind == "" then "tool" else o.kind;
      var errorKind :=
        if o.errorKind == "" then (if o.error.Some? then classify(o.error.value) else "") else o.errorKind;
      Event(nextId, now, dayOf(now), kind, o.tool, o.provider, o.success, o.durationMs, o.cacheHit,
            o.resultCount, errorKind)
    }

    /** Appends the event and adds it to its day's row, in one transaction. */
    method Record(o: Observation, now: int)
      requires Valid() && clock <= now
      modifies this
      ensures Valid() && log == old(log) + [old(Stored(o, now))] && clock == now && cut == old(cut)
      ensures events == old(events) + [old(Stored(o, now))]
      ensures var e := events[|events| - 1];
              && e.at == now && e.day == dayOf(now) && e.kind == (if o.kind == "" then "tool" else o.kind)
              && e.tool == o.tool && e.provider == o.provider && e.success == o.success && e.durationMs == o.durationMs
              && e.cacheHit == o.cacheHit && e.resultCount == o.resultCount
              && (o.errorKind != "" ==> e.errorKind == o.errorKind)
              && (o.errorKind == "" && o.error.Some? ==> e.errorKind == classify(o.error.value))
              && (o.errorKind == "" && o.error.None? ==> e.errorKind == "")
    {
      var kind := if o.kind == "" then "tool" else o.kind;
      var errorKind := o.errorKind;
      if errorKind == "" && o.error.Some? {
        errorKind := classify(o.error.value);
      }
      var day := dayOf(now);
      var e := Event(nextId, now, day, kind, o.tool, o.provider, o.success, o.durationMs, o.cacheHit,
                     o.resultCount, errorKind);
      assert e == old(Stored(o, now));
      Insert(e, now);
    }

    method Insert(e: Event, now: int)
      requires Valid() && clock <= now && e.at == now && e.id == nextId
      modifies this
      ensures Valid() && log == old(log) + [e] && clock == now && cut == old(cut) && events == old(events) + [e]
    {
      hide TotalsOf, Bump, Filter, InTimeOrder;
      TimeOrderSnoc(log, clock, e);
      TotalsStep(daily, log, e);
      FilterSnoc(log, e, NotBefore(cut));
      events := events + [e];
      nextId := nextId + 1;
      daily := Bump(daily, e);
      log, clock := log + [e], now;
    }

    /** Drops the events before the cutoff; totals and history stay. */
    method Cleanup(cutoff: int, now: int)
      requires Valid() && clock <= now && cutoff <= now
      modifies `events, `cut, `clock
      ensures Valid() && cut == Max(old(cut), cutoff) && clock == now
      ensures events == Filter(log, NotBefore(cut))
    {
      hide TotalsOf, Filter;
      CutTwice(log, cut, cutoff);
      events, cut, clock := Survivors(events, cutoff), Max(cut, cutoff), now;
    }
  }

  /** DELETE .. WHERE occurred_at < cutoff. */
  function Survivors(table: seq<Event>, cutoff: int): seq<Event> {
    Filter(table, NotBefore(cutoff))
  }

  lemma {:induction false} CutTwice(log: seq<Event>, c: int, d: int)
    ensures Filter(Filter(log, NotBefore(c)), NotBefore(d)) == Filter(log, NotBefore(Max(c, d)))
  {
    if log != [] {
      var i, e := log[..|log| - 1], log[|log| - 1];
      CutTwice(i, c, d);
      if e.at >= c {
        FilterSnoc(Filter(i, NotBefore(c)), e, NotBefore(d));
      }
    }
  }
}
