/** Replay runs: the state record and its transition check, the step result record and its own
    transition matrix, and what the two say together about whole runs. */
module ReplayRun {
  import opened Wrappers

  datatype Status = CREATED | RUNNING | PAUSED | COMPLETED | FAILED | INVALIDATED

  datatype Binding = Binding(manifest: string, plan: string, timeline: string, fingerprint: string, dispatcher: string)

  datatype State = State(run: string, binding: Binding, createdAt: int, updatedAt: int,
                         startedAt: Option<int>, pausedAt: Option<int>, completedAt: Option<int>,
                         status: Status, revision: int, total: int, next: int, processed: int,
                         last: Option<string>)

  datatype Event = Event(id: string, time: int, kind: string)

  /** The receipt id is a digest of run, index and event: kept as the three values themselves. */
  datatype ReceiptId = ReceiptId(run: string, index: int, event: string)

  datatype Receipt = Receipt(run: string, binding: Binding, event: Event, index: int)

  datatype StepResult = StepResult(run: string, before: Status, after: Status, revisionBefore: int, revisionAfter: int,
                                   nextBefore: int, processedBefore: int, receipts: seq<Receipt>,
                                   next: int, processed: int, total: int, completed: bool)

  // ---- The state record ----

  predicate TemporalOrder(s: State) {
    && s.updatedAt >= s.createdAt
    && (s.startedAt.Some? ==> s.createdAt <= s.startedAt.value <= s.updatedAt)
    && (s.pausedAt.Some? ==> s.createdAt <= s.pausedAt.value <= s.updatedAt)
    && (s.completedAt.Some? ==> s.createdAt <= s.completedAt.value <= s.updatedAt)
    && (s.startedAt.Some? && s.pausedAt.Some? ==> s.pausedAt.value >= s.startedAt.value)
    && (s.startedAt.Some? && s.completedAt.Some? ==> s.completedAt.value >= s.startedAt.value)
  }

  /** FAILED and INVALIDATED carry no rule of their own. */
  predicate StatusRules(s: State) {
    match s.status
    case CREATED =>
      && s.revision == 0 && s.startedAt.None? && s.pausedAt.None? && s.completedAt.None?
      && s.updatedAt == s.createdAt && s.next == 0 && s.processed == 0
    case RUNNING =>
      && s.startedAt.Some? && s.pausedAt.None? && s.completedAt.None?
      && s.updatedAt >= s.startedAt.value && s.next < s.total
    case PAUSED =>
      && s.startedAt.Some? && s.pausedAt == Some(s.updatedAt) && s.completedAt.None? && s.next < s.total
    case COMPLETED =>
      && s.startedAt.Some? && s.completedAt == Some(s.updatedAt) && s.pausedAt.None?
      && s.next == s.total && s.processed == s.total
    case FAILED => true
    case INVALIDATED => true
  }

  predicate ValidState(s: State) {
    && s.revision >= 0 && s.total >= 0 && s.next >= 0 && s.processed >= 0
    && s.next <= s.total && s.processed <= s.total && s.processed == s.next
    && TemporalOrder(s)
    && (s.processed == 0 <==> s.last.None?)
    && StatusRules(s)
  }

  predicate NoProgress(s: State, t: State) {
    t.next == s.next && t.processed == s.processed && t.last == s.last
  }

  predicate PositiveProgress(s: State, t: State) {
    && t.next > s.next && t.processed - s.processed == t.next - s.next
    && t.last.Some? && t.last != s.last
  }

  predicate StatusTransition(s: State, t: State) {
    match (s.status, t.status)
    case (CREATED, RUNNING) => NoProgress(s, t) && t.total > 0
    case (CREATED, COMPLETED) => NoProgress(s, t) && t.total == 0
    case (RUNNING, PAUSED) => NoProgress(s, t)
    case (PAUSED, RUNNING) => NoProgress(s, t)
    case (RUNNING, RUNNING) => PositiveProgress(s, t) && t.next < t.total
    case (RUNNING, COMPLETED) => PositiveProgress(s, t) && t.next == t.total
    case _ => false
  }

  predicate TimestampTransition(s: State, t: State) {
    && (if s.startedAt.None? then
          if t.status in {RUNNING, COMPLETED} then t.startedAt == Some(t.updatedAt) else t.startedAt.None?
        else t.startedAt == s.startedAt)
    && (if s.completedAt.None? then
          if t.status == COMPLETED then t.completedAt == Some(t.updatedAt) else t.completedAt.None?
        else t.completedAt == s.completedAt)
    && (if s.status == RUNNING && t.status == PAUSED then t.pausedAt == Some(t.updatedAt)
        else if s.status == PAUSED && t.status == RUNNING then t.pausedAt.None?
        else t.pausedAt == s.pausedAt)
  }

  predicate SameIdentity(s: State, t: State) {
    s.run == t.run && s.binding == t.binding && s.createdAt == t.createdAt && s.total == t.total
  }

  /** validate_replay_run_state_transition. */
  predicate Transition(s: State, t: State) {
    && SameIdentity(s, t)
    && t.revision == s.revision + 1
    && t.updatedAt >= s.updatedAt
    && StatusTransition(s, t)
    && TimestampTransition(s, t)
  }

  // ---- The step result record ----

  function IdOf(r: Receipt): ReceiptId {
    ReceiptId(r.run, r.index, r.event.id)
  }

  /** _validate_replay_run_step_transition. */
  predicate ResultMatrix(r: StepResult) {
    var delta := r.next - r.nextBefore;
    && (r.before == CREATED ==> r.revisionBefore == 0 && r.nextBefore == 0 && r.processedBefore == 0)
    && (r.before in {RUNNING, PAUSED} ==> r.nextBefore < r.total && r.processedBefore < r.total)
    && (r.after == PAUSED ==> r.next < r.total && r.processed < r.total)
    && match (r.before, r.after)
       case (CREATED, RUNNING) => r.total > 0 && r.next == 0 && r.processed == 0 && r.receipts == [] && delta == 0
       case (CREATED, COMPLETED) => r.total == 0 && r.nextBefore == 0 && r.next == 0 && r.receipts == [] && delta == 0
       case (RUNNING, PAUSED) => r.receipts == [] && delta == 0
       case (PAUSED, RUNNING) => r.receipts == [] && delta == 0
       case (RUNNING, RUNNING) => delta > 0 && r.receipts != []
       case (RUNNING, COMPLETED) => delta > 0 && r.receipts != []
       case _ => false
  }

  predicate ValidResult(r: StepResult) {
    && r.revisionBefore >= 0 && r.revisionAfter == r.revisionBefore + 1
    && r.nextBefore >= 0 && r.processedBefore >= 0 && r.next >= 0 && r.processed >= 0 && r.total >= 0
    && r.next <= r.total && r.processed <= r.total && r.nextBefore <= r.total && r.processedBefore <= r.total
    && r.processedBefore == r.nextBefore && r.processed == r.next
    && r.next >= r.nextBefore && r.processed >= r.processedBefore
    && r.next - r.nextBefore == |r.receipts|
    && (forall i :: 0 <= i < |r.receipts| ==> r.receipts[i].index == r.nextBefore + i)
    && (forall i, j :: 0 <= i < j < |r.receipts| ==> IdOf(r.receipts[i]) != IdOf(r.receipts[j]))
    && (forall i :: 0 <= i < |r.receipts| ==> r.receipts[i].run == r.run)
    && (forall i :: 0 <= i < |r.receipts| ==> r.receipts[i].binding == r.receipts[0].binding)
    && ResultMatrix(r)
    && (r.after == COMPLETED ==> r.next == r.total && r.processed == r.total)
    && (r.after == RUNNING ==> r.next < r.total)
    && (r.completed <==> r.after == COMPLETED)
  }

  // ---- The two matrices agree ----

  ghost predicate UniqueIds(events: seq<Event>) {
    forall i, j :: 0 <= i < j < |events| ==> events[i].id != events[j].id
  }

  /** The state counts events of this timeline. */
  ghost predicate OnTimeline(s: State, events: seq<Event>) {
    && |events| == s.total
    && 0 <= s.next <= |events|
    && s.last == if s.next == 0 then None else Some(events[s.next - 1].id)
  }

  function ReceiptsFor(s: State, events: seq<Event>, from: nat, to: nat): (r: seq<Receipt>)
    requires from <= to <= |events|
    ensures |r| == to - from
  {
    seq(to - from, i requires 0 <= i < to - from => Receipt(s.run, s.binding, events[from + i], from + i))
  }

  /** The step result that goes with a pair of states. */
  function StepOf(s: State, t: State, events: seq<Event>): StepResult {
    StepResult(s.run, s.status, t.status, s.revision, t.revision, s.next, s.processed,
               if 0 <= s.next <= t.next <= |events| then ReceiptsFor(s, events, s.next, t.next) else [],
               t.next, t.processed, t.total, t.status == COMPLETED)
  }

  /** For valid states over one timeline, the state check's status rule and the result record's
      matrix accept the same pairs. */
  lemma MatricesAgree(s: State, t: State, events: seq<Event>)
    requires ValidState(s) && ValidState(t) && SameIdentity(s, t)
    requires UniqueIds(events) && OnTimeline(s, events) && OnTimeline(t, events)
    ensures t.revision == s.revision + 1 && StatusTransition(s, t) <==> ValidResult(StepOf(s, t, events))
  {
    assert s.next < t.next && s.next > 0 ==> events[s.next - 1].id != events[t.next - 1].id;
  }

  ghost predicate DistinctEvents(receipts: seq<Receipt>) {
    forall i, j :: 0 <= i < j < |receipts| ==> receipts[i].event.id != receipts[j].event.id
  }

  ghost predicate Realises(s: State, t: State, events: seq<Event>, r: StepResult) {
    && ValidState(s) && ValidState(t) && UniqueIds(events) && OnTimeline(s, events) && OnTimeline(t, events)
    && Transition(s, t) && StepOf(s, t, events) == r
  }

  ghost predicate Realisable(r: StepResult) {
    exists s, t, events :: Realises(s, t, events, r)
  }

  function Longest(receipts: seq<Receipt>): nat {
    if receipts == [] then 0
    else
      var rest := Longest(receipts[1..]);
      if |receipts[0].event.id| > rest then |receipts[0].event.id| else rest
  }

  lemma {:induction false} LongestBounds(receipts: seq<Receipt>)
    ensures forall i :: 0 <= i < |receipts| ==> |receipts[i].event.id| <= Longest(receipts)
  {
    if receipts != [] {
      LongestBounds(receipts[1..]);
      assert forall i :: 0 < i < |receipts| ==> receipts[i] == receipts[1..][i - 1];
    }
  }

  /** A timeline that carries the receipts' events at their indexes and new ids elsewhere. */
  function TimelineFor(r: StepResult): (events: seq<Event>)
    requires ValidResult(r)
    ensures |events| == r.total
  {
    var n := Longest(r.receipts) + 1;
    seq(r.total, i requires 0 <= i < r.total =>
          if r.nextBefore <= i < r.next then r.receipts[i - r.nextBefore].event
          else Event(seq(n + i, _ => 'e'), 0, ""))
  }

  lemma TimelineForIsUnique(r: StepResult)
    requires ValidResult(r) && DistinctEvents(r.receipts)
    ensures UniqueIds(TimelineFor(r))
  {
    LongestBounds(r.receipts);
    var events, n := TimelineFor(r), Longest(r.receipts) + 1;
    forall i | 0 <= i < r.total
      ensures if r.nextBefore <= i < r.next then |events[i].id| < n else |events[i].id| == n + i
    {}
  }

  /** The state at one end of a step, every moment at time 0. */
  function EndState(r: StepResult, status: Status, revision: int, next: int): State
    requires ValidResult(r) && 0 <= next <= r.total
  {
    var events := TimelineFor(r);
    State(r.run, if r.receipts == [] then Binding("", "", "", "", "") else r.receipts[0].binding, 0, 0,
          if status == CREATED then None else Some(0),
          if status == PAUSED then Some(0) else None,
          if status == COMPLETED then Some(0) else None,
          status, revision, r.total, next, next,
          if next == 0 then None else Some(events[next - 1].id))
  }

  lemma EndStatesRealise(r: StepResult)
    requires ValidResult(r) && DistinctEvents(r.receipts)
    ensures var s := EndState(r, r.before, r.revisionBefore, r.nextBefore);
            var t := EndState(r, r.after, r.revisionAfter, r.next);
            Realises(s, t, TimelineFor(r), r)
  {
    var events := TimelineFor(r);
    TimelineForIsUnique(r);
    var s, t := EndState(r, r.before, r.revisionBefore, r.nextBefore), EndState(r, r.after, r.revisionAfter, r.next);
    EndStatesValid(r);
    EndStatesStep(r, s, t);
    MatricesAgree(s, t, events);
  }

  lemma EndStatesStep(r: StepResult, s: State, t: State)
    requires ValidResult(r)
    requires s == EndState(r, r.before, r.revisionBefore, r.nextBefore)
    requires t == EndState(r, r.after, r.revisionAfter, r.next)
    ensures StepOf(s, t, TimelineFor(r)) == r
    ensures OnTimeline(s, TimelineFor(r)) && OnTimeline(t, TimelineFor(r))
  {
    ReceiptsOfTimelineFor(r, s);
    EndStateIsOnTimeline(r, r.before, r.revisionBefore, r.nextBefore);
    EndStateIsOnTimeline(r, r.after, r.revisionAfter, r.next);
  }

  lemma EndStateIsOnTimeline(r: StepResult, status: Status, revision: int, next: int)
    requires ValidResult(r) && 0 <= next <= r.total
    ensures OnTimeline(EndState(r, status, revision, next), TimelineFor(r))
  {}

  lemma ReceiptsOfTimelineFor(r: StepResult, s: State)
    requires ValidResult(r) && s == EndState(r, r.before, r.revisionBefore, r.nextBefore)
    ensures ReceiptsFor(s, TimelineFor(r), r.nextBefore, r.next) == r.receipts
  {
    var made := ReceiptsFor(s, TimelineFor(r), r.nextBefore, r.next);
    forall i | 0 <= i < |r.receipts| ensures made[i] == r.receipts[i] {
      assert TimelineFor(r)[r.nextBefore + i] == r.receipts[i].event;
    }
  }

  lemma EndStatesValid(r: StepResult)
    requires ValidResult(r)
    ensures var s := EndState(r, r.before, r.revisionBefore, r.nextBefore);
            var t := EndState(r, r.after, r.revisionAfter, r.next);
            ValidState(s) && ValidState(t) && SameIdentity(s, t) && TimestampTransition(s, t)
  {}

  lemma RealisedIsDistinct(s: State, t: State, events: seq<Event>, r: StepResult)
    requires Realises(s, t, events, r)
    ensures DistinctEvents(r.receipts)
  {
    assert r.receipts == ReceiptsFor(s, events, s.next, t.next);
  }

  /** An accepted step result comes from an accepted pair of states over a timeline with unique
      event ids exactly when its receipts name distinct events: the result record itself only
      compares receipt ids, which differ with the index. */
  lemma RealisableExactly(r: StepResult)
    requires ValidResult(r)
    ensures Realisable(r) <==> DistinctEvents(r.receipts)
  {
    if DistinctEvents(r.receipts) {
      EndStatesRealise(r);
    }
    if Realisable(r) {
      var s, t, events :| Realises(s, t, events, r);
      RealisedIsDistinct(s, t, events, r);
    }
  }

  /** The result record accepts a step that reports one event twice. */
  lemma AResultCanRepeatAnEvent()
    ensures var b := Binding("m", "p", "t", "f", "d");
            var one, two := Receipt("run", b, Event("e", 0, ""), 0), Receipt("run", b, Event("e", 0, ""), 1);
            var r := StepResult("run", RUNNING, COMPLETED, 1, 2, 0, 0, [one, two], 2, 2, 2, true);
            ValidResult(r) && !Realisable(r)
  {
    var b := Binding("m", "p", "t", "f", "d");
    var one, two := Receipt("run", b, Event("e", 0, ""), 0), Receipt("run", b, Event("e", 0, ""), 1);
    var r := StepResult("run", RUNNING, COMPLETED, 1, 2, 0, 0, [one, two], 2, 2, 2, true);
    assert r.receipts[0].event.id == r.receipts[1].event.id;
    RealisableExactly(r);
  }

  // ---- Whole runs of step results ----

  ghost predicate Linked(a: StepResult, b: StepResult) {
    && b.run == a.run && b.total == a.total
    && b.before == a.after && b.revisionBefore == a.revisionAfter
    && b.nextBefore == a.next && b.processedBefore == a.processed
  }

  ghost predicate ResultChain(rs: seq<StepResult>) {
    && rs != [] && rs[0].before == CREATED
    && (forall i :: 0 <= i < |rs| ==> ValidResult(rs[i]))
    && (forall i :: 0 < i < |rs| ==> Linked(rs[i - 1], rs[i]))
  }

  function AllReceipts(rs: seq<StepResult>): seq<Receipt> {
    if rs == [] then [] else AllReceipts(rs[..|rs| - 1]) + rs[|rs| - 1].receipts
  }

  /** Over a whole run of accepted results no event index is skipped or dispatched twice, and the run
      is COMPLETED exactly when every index has been dispatched. */
  lemma {:induction false} EachIndexOnce(rs: seq<StepResult>)
    requires ResultChain(rs)
    ensures var last := rs[|rs| - 1];
            && |AllReceipts(rs)| == last.next
            && (forall i :: 0 <= i < |AllReceipts(rs)| ==>
                  AllReceipts(rs)[i].index == i && AllReceipts(rs)[i].run == rs[0].run)
            && (last.completed <==> |AllReceipts(rs)| == last.total)
            && last.revisionAfter == |rs|
  {
    var n := |rs| - 1;
    if n > 0 {
      EachIndexOnce(rs[..n]);
      assert Linked(rs[n - 1], rs[n]);
      RunIsConstant(rs, n);
    } else {
      assert AllReceipts(rs[..0]) == [];
    }
  }

  lemma {:induction false} RunIsConstant(rs: seq<StepResult>, i: nat)
    requires ResultChain(rs) && i < |rs|
    ensures rs[i].run == rs[0].run
  {
    if i > 0 {
      RunIsConstant(rs, i - 1);
      assert Linked(rs[i - 1], rs[i]);
    }
  }

  // ---- Whole runs of states ----

  ghost predicate StateChain(ss: seq<State>) {
    && ss != [] && ss[0].status == CREATED
    && (forall i :: 0 <= i < |ss| ==> ValidState(ss[i]))
    && (forall i :: 0 < i < |ss| ==> Transition(ss[i - 1], ss[i]))
  }

  /** Everywhere in a run: the revision counts the steps, progress never goes back, the run never fails
      or is invalidated, nothing follows COMPLETED, and the start time once written stays. */
  lemma {:induction false} RunSafety(ss: seq<State>, i: nat, j: nat)
    requires StateChain(ss) && i <= j < |ss|
    ensures ss[j].revision == j && SameIdentity(ss[i], ss[j])
    ensures ss[i].next <= ss[j].next <= ss[j].total
    ensures ss[j].status in {CREATED, RUNNING, PAUSED, COMPLETED}
    ensures ss[i].status == COMPLETED ==> i == j
    ensures ss[j].startedAt.None? <==> j == 0
    ensures ss[i].startedAt.Some? ==> ss[j].startedAt == ss[i].startedAt
    ensures ss[j].completedAt.Some? <==> ss[j].status == COMPLETED
    decreases j
  {
    if j > 0 {
      assert Transition(ss[j - 1], ss[j]);
      RunSafety(ss, if i < j then i else j - 1, j - 1);
      RunSafety(ss, j - 1, j - 1);
    }
  }

  /** The number of steps that dispatched something. */
  function ProgressSteps(ss: seq<State>): nat {
    if |ss| <= 1 then 0
    else ProgressSteps(ss[..|ss| - 1]) + if ss[|ss| - 1].next > ss[|ss| - 2].next then 1 else 0
  }

  /** Dispatching steps use up the timeline: no run has more of them than events. */
  lemma {:induction false} ProgressIsBounded(ss: seq<State>)
    requires StateChain(ss)
    ensures ProgressSteps(ss) <= ss[|ss| - 1].next <= ss[0].total
    ensures forall k :: 0 < k < |ss| && ss[k - 1].status == RUNNING && ss[k].status != PAUSED ==>
              ss[k].total - ss[k].next < ss[k - 1].total - ss[k - 1].next
  {
    var n := |ss| - 1;
    RunSafety(ss, 0, n);
    forall k | 0 < k < |ss| && ss[k - 1].status == RUNNING && ss[k].status != PAUSED
      ensures ss[k].total - ss[k].next < ss[k - 1].total - ss[k - 1].next
    {
      assert Transition(ss[k - 1], ss[k]);
    }
    if n > 0 {
      assert ss[..n][|ss[..n]| - 1] == ss[n - 1];
      ProgressIsBounded(ss[..n]);
      RunSafety(ss, n - 1, n);
    }
  }

  /** What the step results of a run of states dispatch, in order. */
  function Dispatched(ss: seq<State>, events: seq<Event>): seq<Receipt> {
    if |ss| <= 1 then []
    else Dispatched(ss[..|ss| - 1], events) + StepOf(ss[|ss| - 2], ss[|ss| - 1], events).receipts
  }

  /** The step results of a run of states are all accepted. */
  lemma RunMakesAcceptedResults(ss: seq<State>, events: seq<Event>, i: nat)
    requires StateChain(ss) && UniqueIds(events) && 0 < i < |ss|
    requires forall k :: 0 <= k < |ss| ==> OnTimeline(ss[k], events)
    ensures ValidResult(StepOf(ss[i - 1], ss[i], events))
    ensures i > 1 ==> Linked(StepOf(ss[i - 2], ss[i - 1], events), StepOf(ss[i - 1], ss[i], events))
  {
    assert Transition(ss[i - 1], ss[i]);
    if i > 1 {
      assert Transition(ss[i - 2], ss[i - 1]);
    }
    MatricesAgree(ss[i - 1], ss[i], events);
  }

  /** From states to effects: what a run dispatches is exactly the timeline's prefix up to the run's
      progress, each event once, in order. */
  lemma {:induction false} RunDispatchesTimelinePrefix(ss: seq<State>, events: seq<Event>)
    requires StateChain(ss) && UniqueIds(events)
    requires forall i :: 0 <= i < |ss| ==> OnTimeline(ss[i], events)
    ensures var d := Dispatched(ss, events);
            && |d| == ss[|ss| - 1].next <= |events|
            && (forall k :: 0 <= k < |d| ==> d[k] == Receipt(ss[0].run, ss[0].binding, events[k], k))
  {
    var n := |ss| - 1;
    assert OnTimeline(ss[n], events);
    if n > 0 {
      var before := ss[..n];
      ChainPrefix(ss);
      RunDispatchesTimelinePrefix(before, events);
      RunSafety(ss, 0, n - 1);
      NextReceipts(ss[0], ss[n - 1], ss[n], events, Dispatched(before, events));
    }
  }

  lemma ChainPrefix(ss: seq<State>)
    requires StateChain(ss) && |ss| > 1
    ensures var n := |ss| - 1;
            && StateChain(ss[..n]) && ss[..n][0] == ss[0] && ss[..n][n - 1] == ss[n - 1]
            && Transition(ss[n - 1], ss[n]) && ss[n - 1].next <= ss[n].next
  {
    var n := |ss| - 1;
    assert Transition(ss[n - 1], ss[n]);
  }

  lemma NextReceipts(first: State, s: State, t: State, events: seq<Event>, before: seq<Receipt>)
    requires first.run == s.run && first.binding == s.binding && |before| == s.next <= t.next <= |events|
    requires forall k :: 0 <= k < |before| ==> before[k] == Receipt(first.run, first.binding, events[k], k)
    ensures var d := before + StepOf(s, t, events).receipts;
            && |d| == t.next
            && forall k :: 0 <= k < |d| ==> d[k] == Receipt(first.run, first.binding, events[k], k)
  {}

  /** A run is COMPLETED exactly when it took a step and dispatched the whole timeline. */
  lemma CompletedMeansAllDispatched(ss: seq<State>, events: seq<Event>)
    requires StateChain(ss) && UniqueIds(events)
    requires forall i :: 0 <= i < |ss| ==> OnTimeline(ss[i], events)
    ensures ss[|ss| - 1].status == COMPLETED <==> |ss| > 1 && |Dispatched(ss, events)| == |events|
  {
    RunDispatchesTimelinePrefix(ss, events);
    RunSafety(ss, 0, |ss| - 1);
    assert OnTimeline(ss[|ss| - 1], events);
  }
}
