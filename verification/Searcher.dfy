/** Fan-out over engines. The parallel strategy is a transition system over its goroutines: any
    step of any engine may come next. The serial strategy is the loop. */
module Searcher {
  import opened Seqs

  datatype Response = Response(engine: string, results: seq<string>, error: string)

  /** What an engine's own search returns when it is let run: an error, nothing, or a response. */
  datatype Answer = Failure(message: string) | Nothing | Reply(response: Response)

  datatype Engine = Engine(name: string, answer: Answer, mayTimeOut: bool)

  /** The text of a timed-out engine, without the duration it ends with. */
  const TIMEOUT: string := "timeout after"

  function Answered(e: Engine): Response {
    match e.answer
    case Failure(m) => Response(e.name, [], m)
    case Nothing => Response(e.name, [], "")
    case Reply(r) => r
  }

  function TimedOut(e: Engine): Response {
    Response(e.name, [], TIMEOUT)
  }

  // ---- the parallel strategy ----

  /** Waiting for the semaphore, running execOne, result stored but semaphore held, finished. */
  datatype Phase = Waiting | Running | Stored | Finished

  /** searching[i]: the goroutine that execOne started for engine i is still in the engine's search. */
  datatype State = State(phases: seq<Phase>, searching: seq<bool>, results: seq<Option<Response>>, writes: seq<nat>)

  datatype System = System(engines: seq<Engine>, concurrency: int)

  function Permits(c: System): nat {
    if c.concurrency <= 0 then 5 else c.concurrency
  }

  function Holding(s: State): seq<bool> {
    seq(|s.phases|, i requires 0 <= i < |s.phases| => s.phases[i].Running? || s.phases[i].Stored?)
  }

  function Count(b: seq<bool>): nat {
    if b == [] then 0 else Count(b[..|b| - 1]) + if b[|b| - 1] then 1 else 0
  }

  function Initial(c: System): State {
    var n := |c.engines|;
    State(seq(n, i => Waiting), seq(n, i => false), seq(n, i => None), seq(n, i => 0))
  }

  ghost predicate Shaped(c: System, s: State) {
    |s.phases| == |s.searching| == |s.results| == |s.writes| == |c.engines|
  }

  function Store(s: State, i: nat, r: Response): State
    requires i < |s.phases| && i < |s.results| && i < |s.writes|
  {
    s.(phases := s.phases[i := Stored], results := s.results[i := Some(r)], writes := s.writes[i := s.writes[i] + 1])
  }

  ghost predicate Acquire(c: System, s: State, s': State, i: nat)
    requires Shaped(c, s) && i < |c.engines|
  {
    s.phases[i].Waiting? && Count(Holding(s)) < Permits(c)
    && s' == s.(phases := s.phases[i := Running], searching := s.searching[i := true])
  }

  /** The engine's search returns; its goroutine ends, whether or not anyone still waits for it. */
  ghost predicate SearchEnds(c: System, s: State, s': State, i: nat)
    requires Shaped(c, s) && i < |c.engines|
  {
    s.searching[i] && s' == s.(searching := s.searching[i := false])
  }

  ghost predicate TakeAnswer(c: System, s: State, s': State, i: nat)
    requires Shaped(c, s) && i < |c.engines|
  {
    s.phases[i].Running? && !s.searching[i] && s' == Store(s, i, Answered(c.engines[i]))
  }

  ghost predicate GiveUp(c: System, s: State, s': State, i: nat)
    requires Shaped(c, s) && i < |c.engines|
  {
    s.phases[i].Running? && c.engines[i].mayTimeOut && s' == Store(s, i, TimedOut(c.engines[i]))
  }

  ghost predicate Release(c: System, s: State, s': State, i: nat)
    requires Shaped(c, s) && i < |c.engines|
  {
    s.phases[i].Stored? && s' == s.(phases := s.phases[i := Finished])
  }

  ghost predicate Step(c: System, s: State, s': State, i: nat) {
    && Shaped(c, s) && i < |c.engines|
    && (Acquire(c, s, s', i) || SearchEnds(c, s, s', i) || TakeAnswer(c, s, s', i) ||
        GiveUp(c, s, s', i) || Release(c, s, s', i))
  }

  ghost predicate Next(c: System, s: State, s': State) {
    exists i: nat :: Step(c, s, s', i)
  }

  ghost predicate Stuck(c: System, s: State) {
    forall s' :: !Next(c, s, s')
  }

  /** A run: one state after another, each by some step of some engine. */
  ghost predicate Run(c: System, states: seq<State>) {
    && states != [] && states[0] == Initial(c)
    && forall j, k :: 0 <= j < k < |states| && k == j + 1 ==> Next(c, states[j], states[k])
  }

  lemma RunSnoc(c: System, states: seq<State>, s: State)
    requires Run(c, states) && Next(c, states[|states| - 1], s)
    ensures Run(c, states + [s])
  {}

  lemma RunPrefix(c: System, states: seq<State>)
    requires Run(c, states) && |states| > 1
    ensures Run(c, states[..|states| - 1]) && Next(c, states[|states| - 2], states[|states| - 1])
  {}

  /** Engine i's slot is written once, when its result is stored, with its answer or a timeout. */
  ghost predicate SlotOk(c: System, s: State, i: nat)
    requires Shaped(c, s) && i < |c.engines|
  {
    var e := c.engines[i];
    && (s.phases[i].Waiting? || s.phases[i].Running? ==> s.results[i].None? && s.writes[i] == 0)
    && (s.phases[i].Stored? || s.phases[i].Finished? ==>
          && s.writes[i] == 1
          && (s.results[i] == Some(Answered(e)) || (e.mayTimeOut && s.results[i] == Some(TimedOut(e)))))
    && (s.searching[i] ==> !s.phases[i].Waiting? && (s.phases[i].Running? || e.mayTimeOut))
  }

  ghost predicate Invariant(c: System, s: State) {
    && Shaped(c, s) && Count(Holding(s)) <= Permits(c)
    && forall i :: 0 <= i < |c.engines| ==> SlotOk(c, s, i)
  }

  lemma {:induction false} CountUpdate(b: seq<bool>, i: nat, v: bool)
    requires i < |b|
    ensures Count(b[i := v]) == Count(b) - (if b[i] then 1 else 0) + (if v then 1 else 0)
  {
    var n := |b| - 1;
    if i < n {
      CountUpdate(b[..n], i, v);
      assert b[i := v][..n] == b[..n][i := v];
    } else {
      assert b[i := v][..n] == b[..n];
    }
  }

  lemma {:induction false} CountConstant(b: seq<bool>, v: bool)
    requires forall i :: 0 <= i < |b| ==> b[i] == v
    ensures Count(b) == if v then |b| else 0
  {
    if b != [] {
      CountConstant(b[..|b| - 1], v);
    }
  }

  lemma StepKeepsInvariant(c: System, s: State, s': State, i: nat)
    requires Invariant(c, s) && Step(c, s, s', i)
    ensures Invariant(c, s')
  {
    var held := s'.phases[i].Running? || s'.phases[i].Stored?;
    assert Holding(s') == Holding(s)[i := held];
    CountUpdate(Holding(s), i, held);
    assert SlotOk(c, s, i);
    forall k | 0 <= k < |c.engines| ensures SlotOk(c, s', k) {
      assert SlotOk(c, s, k);
    }
  }

  /** In every state of every interleaving at most `concurrency` execOne calls hold the semaphore
      and every slot is unwritten or written exactly once with its own engine's result. */
  lemma {:induction false} RunInvariant(c: System, states: seq<State>)
    requires Run(c, states)
    ensures Invariant(c, states[|states| - 1])
  {
    if |states| == 1 {
      CountConstant(Holding(Initial(c)), false);
    } else {
      RunPrefix(c, states);
      var before, s := states[..|states| - 1], states[|states| - 1];
      RunInvariant(c, before);
      var i: nat :| Step(c, states[|states| - 2], s, i);
      StepKeepsInvariant(c, states[|states| - 2], s, i);
    }
  }

  // ---- every run finishes ----

  function Work(p: Phase): nat {
    match p case Waiting => 4 case Running => 2 case Stored => 1 case Finished => 0
  }

  function Works(s: State): seq<nat> {
    seq(|s.phases|, i requires 0 <= i < |s.phases| => Work(s.phases[i]))
  }

  function Measure(s: State): nat {
    SumNat(Works(s)) + Count(s.searching)
  }

  /** Every step uses up measure, so no interleaving goes on for ever. */
  lemma StepDecreases(c: System, s: State, s': State, i: nat)
    requires Step(c, s, s', i)
    ensures Measure(s') < Measure(s)
  {
    assert Works(s') == Works(s)[i := Work(s'.phases[i])];
    SumNatUpdate(Works(s), i, Work(s'.phases[i]));
    assert s'.searching == s.searching[i := s'.searching[i]];
    CountUpdate(s.searching, i, s'.searching[i]);
  }

  lemma {:induction false} SumWaiting(ws: seq<nat>, v: nat)
    requires forall i :: 0 <= i < |ws| ==> ws[i] == v
    ensures SumNat(ws) == v * |ws|
  {
    if ws != [] {
      SumWaiting(ws[..|ws| - 1], v);
    }
  }

  /** A run has at most four steps for each engine. */
  lemma {:induction false} RunBounded(c: System, states: seq<State>)
    requires Run(c, states)
    ensures |states| - 1 + Measure(states[|states| - 1]) <= 4 * |c.engines|
  {
    if |states| == 1 {
      SumWaiting(Works(Initial(c)), 4);
      CountConstant(Initial(c).searching, false);
    } else {
      RunPrefix(c, states);
      RunBounded(c, states[..|states| - 1]);
      var i: nat :| Step(c, states[|states| - 2], states[|states| - 1], i);
      StepDecreases(c, states[|states| - 2], states[|states| - 1], i);
    }
  }

  lemma {:induction false} HeldExists(b: seq<bool>) returns (i: nat)
    requires Count(b) > 0
    ensures i < |b| && b[i]
  {
    var n := |b| - 1;
    if b[n] {
      i := n;
    } else {
      i := HeldExists(b[..n]);
    }
  }

  /** While an engine is unfinished some step is possible: a waiting engine only waits for one that
      holds the semaphore, and that one can move. */
  lemma NoDeadlock(c: System, s: State, k: nat) returns (i: nat, s': State)
    requires Invariant(c, s) && k < |c.engines| && !s.phases[k].Finished?
    ensures Step(c, s, s', i)
  {
    i := k;
    if s.phases[k].Waiting? {
      if Count(Holding(s)) < Permits(c) {
        s' := s.(phases := s.phases[k := Running], searching := s.searching[k := true]);
        assert Acquire(c, s, s', k);
        return;
      }
      i := HeldExists(Holding(s));
    }
    if s.phases[i].Stored? {
      s' := s.(phases := s.phases[i := Finished]);
      assert Release(c, s, s', i);
    } else if s.searching[i] {
      s' := s.(searching := s.searching[i := false]);
      assert SearchEnds(c, s, s', i);
    } else {
      s' := Store(s, i, Answered(c.engines[i]));
      assert TakeAnswer(c, s, s', i);
    }
  }

  lemma StuckFinished(c: System, s: State, i: nat)
    requires Invariant(c, s) && Stuck(c, s) && i < |c.engines|
    ensures s.phases[i].Finished?
  {
    if !s.phases[i].Finished? {
      var j, s' := NoDeadlock(c, s, i);
      assert Next(c, s, s');
    }
  }

  /** A run that can go no further has finished every engine; without timeouts its results are the
      engines' answers, slot by slot, whatever the interleaving was. */
  lemma ScheduleIndependent(c: System, states: seq<State>)
    requires Run(c, states)
    requires Stuck(c, states[|states| - 1])
    ensures var last := states[|states| - 1];
            && Shaped(c, last) && Count(Holding(last)) <= (if c.concurrency <= 0 then 5 else c.concurrency)
            && (forall i :: 0 <= i < |c.engines| ==>
                  last.phases[i].Finished? && last.writes[i] == 1 && last.results[i].Some?)
            && (forall i :: 0 <= i < |c.engines| && !c.engines[i].mayTimeOut ==>
                  last.results[i] == Some(Answered(c.engines[i])))
  {
    var last := states[|states| - 1];
    RunInvariant(c, states);
    assert Count(Holding(last)) <= Permits(c);
    hide Run, Step, Count, Answered;
    forall i | 0 <= i < |c.engines|
      ensures last.phases[i].Finished? && last.writes[i] == 1 && last.results[i].Some?
      ensures !c.engines[i].mayTimeOut ==> last.results[i] == Some(Answered(c.engines[i]))
    {
      StuckFinished(c, last, i);
      assert SlotOk(c, last, i);
    }
  }

  /** What an engine's slot holds: an error comes with the engine's name, no response is an empty one,
      and an engine that may time out can leave the timeout error instead. */
  ghost predicate SlotHolds(e: Engine, r: Response) {
    || (e.mayTimeOut && r == Response(e.name, [], "timeout after"))
    || match e.answer
       case Failure(m) => r == Response(e.name, [], m)
       case Nothing => r == Response(e.name, [], "")
       case Reply(own) => r == own
  }

  lemma SlotsHold(c: System, states: seq<State>, i: nat)
    requires Run(c, states) && Stuck(c, states[|states| - 1]) && i < |c.engines|
    ensures var last := states[|states| - 1];
            Shaped(c, last) && last.results[i].Some? && SlotHolds(c.engines[i], last.results[i].value)
  {
    ScheduleIndependent(c, states);
    RunInvariant(c, states);
    assert SlotOk(c, states[|states| - 1], i);
  }

  /** A waiting engine is held back only by a full semaphore: five permits, or as many as configured. */
  lemma WaitsOnlyWhenFull(c: System, s: State, i: nat)
    requires Shaped(c, s) && i < |c.engines| && s.phases[i].Waiting?
    ensures (exists s' :: Acquire(c, s, s', i)) <==> Count(Holding(s)) < if c.concurrency <= 0 then 5 else c.concurrency
  {
    hide Count;
    var s' := s.(phases := s.phases[i := Running], searching := s.searching[i := true]);
    assert Count(Holding(s)) < Permits(c) ==> Acquire(c, s, s', i);
  }

  // ---- engine searches in flight ----

  /** No state of any run has more engine searches in flight than the semaphore has permits. */
  ghost predicate SearchesBounded(c: System) {
    forall states: seq<State> :: Run(c, states) ==> Count(states[|states| - 1].searching) <= Permits(c)
  }

  lemma {:induction false} CountImplies(a: seq<bool>, b: seq<bool>)
    requires |a| == |b| && forall i :: 0 <= i < |a| && a[i] ==> b[i]
    ensures Count(a) <= Count(b) <= |b|
  {
    if a != [] {
      CountImplies(a[..|a| - 1], b[..|b| - 1]);
    }
  }

  /** The state after engine k was given up on and released while its search goes on, and m more
      engines, taken from the others in order, have started. */
  function Overfull(c: System, k: nat, m: nat): State
    requires k < |c.engines|
  {
    var n := |c.engines|;
    State(seq(n, i => if i == k then Finished else if Other(i, k) < m then Running else Waiting),
          seq(n, i => i == k || Other(i, k) < m),
          seq(n, i requires 0 <= i < n => if i == k then Some(TimedOut(c.engines[k])) else None),
          seq(n, i => if i == k then 1 else 0))
  }

  /** Position of engine i != k among the others. */
  function Other(i: int, k: nat): int {
    if i < k then i else i - 1
  }

  lemma OverfullStart(c: System, k: nat) returns (states: seq<State>)
    requires k < |c.engines| && c.engines[k].mayTimeOut
    ensures Run(c, states) && states[|states| - 1] == Overfull(c, k, 0)
  {
    var s0 := Initial(c);
    CountConstant(Holding(s0), false);
    var s1 := s0.(phases := s0.phases[k := Running], searching := s0.searching[k := true]);
    var s2 := Store(s1, k, TimedOut(c.engines[k]));
    var s3 := s2.(phases := s2.phases[k := Finished]);
    assert Acquire(c, s0, s1, k) && GiveUp(c, s1, s2, k) && Release(c, s2, s3, k);
    assert Step(c, s0, s1, k) && Step(c, s1, s2, k) && Step(c, s2, s3, k);
    var t := Overfull(c, k, 0);
    assert s3.phases == t.phases && s3.searching == t.searching && s3.results == t.results && s3.writes == t.writes;
    assert Next(c, s0, s1) && Next(c, s1, s2) && Next(c, s2, s3);
    RunSnoc(c, [s0], s1);
    RunSnoc(c, [s0, s1], s2);
    assert [s0] + [s1] == [s0, s1] && [s0, s1] + [s2] == [s0, s1, s2];
    RunSnoc(c, [s0, s1, s2], s3);
    states := [s0, s1, s2] + [s3];
  }

  /** The m-th engine other than k. */
  function Another(k: nat, m: nat): nat {
    if m < k then m else m + 1
  }

  lemma OverfullNext(c: System, k: nat, m: nat)
    requires k < |c.engines| && m + 1 < |c.engines|
    ensures var r, s, j := Overfull(c, k, m), Overfull(c, k, m + 1), Another(k, m);
            && j < |c.engines| && r.phases[j].Waiting? && !r.searching[j]
            && s == r.(phases := r.phases[j := Running], searching := r.searching[j := true])
  {
    var r, s, j := Overfull(c, k, m), Overfull(c, k, m + 1), Another(k, m);
    assert s.phases == r.phases[j := Running];
    assert s.searching == r.searching[j := true];
  }

  lemma OverfullStartCounts(c: System, k: nat)
    requires k < |c.engines|
    ensures Count(Holding(Overfull(c, k, 0))) == 0 && Count(Overfull(c, k, 0).searching) == 1
  {
    hide Count;
    var s := Overfull(c, k, 0);
    CountConstant(Holding(s), false);
    var none := seq(|c.engines|, i => false);
    CountConstant(none, false);
    CountUpdate(none, k, true);
    assert s.searching == none[k := true];
  }

  lemma StartOne(s: State, j: nat)
    requires j < |s.phases| == |s.searching| && s.phases[j].Waiting? && !s.searching[j]
    ensures var t := s.(phases := s.phases[j := Running], searching := s.searching[j := true]);
            Count(Holding(t)) == Count(Holding(s)) + 1 && Count(t.searching) == Count(s.searching) + 1
  {
    hide Count;
    var t := s.(phases := s.phases[j := Running], searching := s.searching[j := true]);
    assert Holding(t) == Holding(s)[j := true];
    CountUpdate(Holding(s), j, true);
    CountUpdate(s.searching, j, true);
  }

  lemma {:induction false} OverfullCounts(c: System, k: nat, m: nat)
    requires k < |c.engines| && m < |c.engines|
    ensures Count(Holding(Overfull(c, k, m))) == m && Count(Overfull(c, k, m).searching) == m + 1
  {
    hide Count, Holding;
    if m == 0 {
      OverfullStartCounts(c, k);
    } else {
      OverfullCounts(c, k, m - 1);
      OverfullNext(c, k, m - 1);
      StartOne(Overfull(c, k, m - 1), Another(k, m - 1));
    }
  }

  lemma {:induction false} OverfullReached(c: System, k: nat, m: nat) returns (states: seq<State>)
    requires k < |c.engines| && c.engines[k].mayTimeOut && m < |c.engines| && m <= Permits(c)
    ensures Run(c, states) && states[|states| - 1] == Overfull(c, k, m)
  {
    if m == 0 {
      states := OverfullStart(c, k);
    } else {
      var before := OverfullReached(c, k, m - 1);
      var r, s, j := Overfull(c, k, m - 1), Overfull(c, k, m), Another(k, m - 1);
      OverfullCounts(c, k, m - 1);
      OverfullNext(c, k, m - 1);
      assert Acquire(c, r, s, j);
      assert Step(c, r, s, j);
      hide Overfull, Run, Count, Step;
      RunSnoc(c, before, s);
      states := before + [s];
    }
  }

  /** The semaphore bounds the engine searches actually in flight exactly when there are no more
      engines than permits or no engine can time out: a timed-out engine gives its permit back
      while its search goes on. */
  lemma SearchesBoundedIff(c: System)
    ensures SearchesBounded(c) <==> |c.engines| <= Permits(c) || forall e :: e in c.engines ==> !e.mayTimeOut
  {
    if |c.engines| <= Permits(c) || forall e :: e in c.engines ==> !e.mayTimeOut {
      forall states: seq<State> | Run(c, states) ensures Count(states[|states| - 1].searching) <= Permits(c) {
        var s := states[|states| - 1];
        RunInvariant(c, states);
        if forall e :: e in c.engines ==> !e.mayTimeOut {
          forall i | 0 <= i < |c.engines| && s.searching[i] ensures Holding(s)[i] {
            assert SlotOk(c, s, i) && c.engines[i] in c.engines;
          }
          CountImplies(s.searching, Holding(s));
        } else {
          CountImplies(s.searching, s.searching);
        }
      }
    } else {
      var e :| e in c.engines && e.mayTimeOut;
      var k :| 0 <= k < |c.engines| && c.engines[k] == e;
      var states := OverfullReached(c, k, Permits(c));
      OverfullCounts(c, k, Permits(c));
      assert Run(c, states) && Count(states[|states| - 1].searching) > Permits(c);
    }
  }

  /** Two engines, one permit: when the first is given up on, both may be searching at once. */
  lemma TwoInFlight()
    ensures !SearchesBounded(System([Engine("a", Nothing, true), Engine("b", Nothing, true)], 1))
  {
    var c := System([Engine("a", Nothing, true), Engine("b", Nothing, true)], 1);
    assert c.engines[0] in c.engines;
    SearchesBoundedIff(c);
  }

  // ---- the serial strategy ----

  predicate HasResults(r: Response) {
    r.error == "" && |r.results| > 0
  }

  function Truncated(r: Response, maxResults: int): Response {
    r.(results := Cap(r.results, maxResults))
  }

  /** Asks the engines in order; stops at the first with results, or when cancelled. `timesOut` and
      `cancelled` are what the context does at each engine. */
  method SearchSerial(engines: seq<Engine>, maxResults: int, timesOut: nat -> bool, cancelled: nat -> bool)
    returns (results: seq<Response>)
    ensures |results| <= |engines|
    ensures forall k :: 0 <= k < |results| ==>
              && !cancelled(k)
              && results[k] == Truncated(if timesOut(k) then TimedOut(engines[k]) else Answered(engines[k]), maxResults)
              && (HasResults(results[k]) ==> k == |results| - 1)
    ensures |results| < |engines| ==> cancelled(|results|) || (results != [] && HasResults(results[|results| - 1]))
  {
    results := [];
    for i := 0 to |engines|
      invariant |results| == i
      invariant forall k :: 0 <= k < i ==>
                  && !cancelled(k) && !HasResults(results[k])
                  && results[k] ==
                       Truncated(if timesOut(k) then TimedOut(engines[k]) else Answered(engines[k]), maxResults)
    {
      if cancelled(i) {
        break;
      }
      var resp := if timesOut(i) then TimedOut(engines[i]) else Answered(engines[i]);
      resp := Truncated(resp, maxResults);
      results := results + [resp];
      if HasResults(resp) {
        break;
      }
    }
  }
}
