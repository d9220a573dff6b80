/** The order lifecycle: the transition table as the module builds it, and what every run obeys. */
module OrderLifecycle {
  import opened Wrappers

  datatype State =
    | CREATED
    | ACCEPTED_BY_EXECUTION
    | REJECTED_BY_PERMISSION
    | REJECTED_BY_VALIDATION
    | SUBMISSION_REQUESTED
    | SUBMITTED_TO_VENUE
    | ACKNOWLEDGED_BY_VENUE
    | PARTIALLY_FILLED
    | FILLED
    | CANCEL_REQUESTED
    | CANCEL_ACKNOWLEDGED
    | CANCELED
    | REPLACE_REQUESTED
    | REPLACED
    | EXPIRED
    | VENUE_REJECTED
    | UNKNOWN_ON_VENUE
    | RECONCILIATION_REQUIRED
    | CLOSED

  type Table = map<State, set<State>>

  const ACTIVE_VENUE_STATES: set<State> :=
    {SUBMISSION_REQUESTED, SUBMITTED_TO_VENUE, ACKNOWLEDGED_BY_VENUE, PARTIALLY_FILLED, CANCEL_REQUESTED,
     REPLACE_REQUESTED}

  /** The rows of the dictionary as first written; CLOSED has none. */
  function WrittenRow(s: State): set<State> {
    match s
    case CREATED => {ACCEPTED_BY_EXECUTION, REJECTED_BY_PERMISSION, REJECTED_BY_VALIDATION}
    case ACCEPTED_BY_EXECUTION => {SUBMISSION_REQUESTED, CANCEL_REQUESTED, REPLACE_REQUESTED}
    case SUBMISSION_REQUESTED => {SUBMITTED_TO_VENUE, UNKNOWN_ON_VENUE}
    case SUBMITTED_TO_VENUE => {ACKNOWLEDGED_BY_VENUE, UNKNOWN_ON_VENUE, VENUE_REJECTED}
    case ACKNOWLEDGED_BY_VENUE => {PARTIALLY_FILLED, FILLED, CANCEL_REQUESTED, REPLACE_REQUESTED, EXPIRED,
                                   UNKNOWN_ON_VENUE, VENUE_REJECTED}
    case PARTIALLY_FILLED => {PARTIALLY_FILLED, FILLED, CANCEL_REQUESTED, REPLACE_REQUESTED, UNKNOWN_ON_VENUE}
    case CANCEL_REQUESTED => {CANCEL_ACKNOWLEDGED, UNKNOWN_ON_VENUE}
    case CANCEL_ACKNOWLEDGED => {CANCELED}
    case REPLACE_REQUESTED => {REPLACED, UNKNOWN_ON_VENUE}
    case UNKNOWN_ON_VENUE => {RECONCILIATION_REQUIRED}
    case RECONCILIATION_REQUIRED => {CLOSED}
    case FILLED => {CLOSED}
    case CANCELED => {CLOSED}
    case EXPIRED => {CLOSED}
    case VENUE_REJECTED => {CLOSED}
    case REJECTED_BY_PERMISSION => {CLOSED}
    case REJECTED_BY_VALIDATION => {CLOSED}
    case REPLACED => {CLOSED}
    case CLOSED => {}
  }

  const WRITTEN: Table := map s: State | s != CLOSED :: WrittenRow(s)

  function Row(table: Table, s: State): set<State> {
    if s in table then table[s] else {}
  }

  /** The module's closing loop: every active state's row gains UNKNOWN_ON_VENUE. */
  method CloseTable(table: Table, active: set<State>) returns (closed: Table)
    ensures IsClosing(table, active, closed)
  {
    closed := table;
    var rest := active;
    assert active - rest == {};
    while rest != {}
      invariant rest <= active
      invariant IsClosing(table, active - rest, closed)
      decreases rest
    {
      var s :| s in rest;
      closed := closed[s := Row(closed, s) + {UNKNOWN_ON_VENUE}];
      rest := rest - {s};
    }
    assert active - rest == active;
  }

  ghost predicate IsClosing(table: Table, active: set<State>, closed: Table) {
    && closed.Keys == table.Keys + active
    && forall s :: s in closed ==> closed[s] == Row(table, s) + if s in active then {UNKNOWN_ON_VENUE} else {}
  }

  /** The rows as written have it already: the loop leaves the table as it was. */
  lemma ClosingChangesNothing(closed: Table)
    requires IsClosing(WRITTEN, ACTIVE_VENUE_STATES, closed)
    ensures closed == WRITTEN
  {
    forall s ensures s in closed <==> s in WRITTEN {
      if s in ACTIVE_VENUE_STATES {
        ActiveRowsAreClosed(s);
      }
    }
    forall s | s in closed ensures closed[s] == WRITTEN[s] {
      ActiveRowsAreClosed(s);
    }
  }

  lemma ActiveRowsAreClosed(s: State)
    requires s in ACTIVE_VENUE_STATES || s in WRITTEN
    ensures s in WRITTEN
    ensures s in ACTIVE_VENUE_STATES ==> UNKNOWN_ON_VENUE in WRITTEN[s]
  {}

  datatype Error = MustStartCreated | ClosedIsFinal | NotAllowed

  /** validate_order_lifecycle_transition. */
  function TransitionError(previous: Option<State>, next: State): Option<Error> {
    match previous
    case None => if next == CREATED then None else Some(MustStartCreated)
    case Some(p) =>
      if p == CLOSED then Some(ClosedIsFinal)
      else if next !in Row(WRITTEN, p) then Some(NotAllowed)
      else None
  }

  /** The check passes. */
  predicate Follows(previous: State, next: State) {
    TransitionError(Some(previous), next).None?
  }

  /** The next state is listed in the row. */
  predicate Allowed(previous: State, next: State) {
    next in WrittenRow(previous)
  }

  /** The check accepts exactly the listed transitions; CLOSED needs no separate rule. */
  lemma AcceptedExactlyListed(previous: State, next: State)
    ensures Follows(previous, next) <==> Allowed(previous, next)
  {}

  ghost predicate Linked<T>(step: (T, T) -> bool, states: seq<T>) {
    forall i :: 0 < i < |states| ==> step(states[i - 1], states[i])
  }

  /** The states of an order's events, each accepted after the one before. */
  ghost predicate Run(states: seq<State>) {
    (states != [] ==> TransitionError(None, states[0]).None?) && Linked(Follows, states)
  }

  /** A run goes from row to listed state, and nothing else makes a run. */
  lemma RunIsListed(states: seq<State>)
    ensures Run(states) <==> (states != [] ==> states[0] == CREATED) && Linked(Allowed, states)
  {
    forall i | 0 < i < |states| ensures Follows(states[i - 1], states[i]) <==> Allowed(states[i - 1], states[i]) {
      AcceptedExactlyListed(states[i - 1], states[i]);
    }
  }

  lemma LinkedJoins<T>(step: (T, T) -> bool, a: seq<T>, b: seq<T>)
    requires Linked(step, a) && Linked(step, b) && (a != [] && b != [] ==> step(a[|a| - 1], b[0]))
    ensures Linked(step, a + b)
  {
    var c := a + b;
    forall i | 0 < i < |c| ensures step(c[i - 1], c[i]) {
      if i > |a| {
        assert c[i] == b[i - |a|] && c[i - 1] == b[i - |a| - 1];
      }
    }
  }

  // ---- Length ----

  /** How many more events, repeated partial fills aside, can still follow. */
  function Rank(s: State): nat {
    match s
    case CREATED => 9
    case ACCEPTED_BY_EXECUTION => 8
    case SUBMISSION_REQUESTED => 7
    case SUBMITTED_TO_VENUE => 6
    case ACKNOWLEDGED_BY_VENUE => 5
    case PARTIALLY_FILLED => 4
    case CANCEL_REQUESTED => 3
    case REPLACE_REQUESTED => 3
    case UNKNOWN_ON_VENUE => 2
    case CANCEL_ACKNOWLEDGED => 2
    case CLOSED => 0
    case _ => 1
  }

  lemma RankFalls(p: State, n: State)
    requires Allowed(p, n)
    ensures Rank(n) < Rank(p) || (p == n == PARTIALLY_FILLED)
  {}

  /** Events that are not a repeated PARTIALLY_FILLED. */
  function Advances(states: seq<State>): nat {
    if states == [] then 0
    else
      var n := |states| - 1;
      Advances(states[..n]) + if n > 0 && states[n] == states[n - 1] == PARTIALLY_FILLED then 0 else 1
  }

  lemma {:induction false} AdvancesAreRanked(states: seq<State>)
    requires Run(states) && states != []
    ensures Advances(states) + Rank(states[|states| - 1]) <= 10
  {
    RunIsListed(states);
    var n := |states| - 1;
    if n > 0 {
      AdvancesAreRanked(states[..n]);
      RankFalls(states[n - 1], states[n]);
    } else {
      assert Advances(states[..0]) == 0;
    }
  }

  /** No run has more than ten events apart from repeated partial fills. */
  lemma TenEventsAtMost(states: seq<State>)
    requires Run(states)
    ensures Advances(states) <= 10
  {
    if states != [] {
      AdvancesAreRanked(states);
    }
  }

  /** A partly filled order that gets lost while being cancelled. */
  function LostAt(i: nat): State {
    match i
    case 0 => CREATED
    case 1 => ACCEPTED_BY_EXECUTION
    case 2 => SUBMISSION_REQUESTED
    case 3 => SUBMITTED_TO_VENUE
    case 4 => ACKNOWLEDGED_BY_VENUE
    case 5 => PARTIALLY_FILLED
    case 6 => CANCEL_REQUESTED
    case 7 => UNKNOWN_ON_VENUE
    case 8 => RECONCILIATION_REQUIRED
    case _ => CLOSED
  }

  function Lost(n: nat): (states: seq<State>)
    ensures |states| == n && forall i :: 0 <= i < n ==> states[i] == LostAt(i)
  {
    seq(n, (i: nat) => LostAt(i))
  }

  lemma LostSteps(i: nat)
    requires i < 9
    ensures Allowed(LostAt(i), LostAt(i + 1)) && LostAt(i) != LostAt(i + 1)
  {}

  lemma LostIsListed(n: nat)
    requires n <= 10
    ensures Linked(Allowed, Lost(n))
  {
    forall i | 0 < i < n ensures Allowed(Lost(n)[i - 1], Lost(n)[i]) {
      LostSteps(i - 1);
    }
  }

  lemma {:induction false} LostAdvances(n: nat)
    requires n <= 10
    ensures Advances(Lost(n)) == n
  {
    if n > 0 {
      LostAdvances(n - 1);
      assert Lost(n)[..n - 1] == Lost(n - 1);
      if n > 1 {
        LostSteps(n - 2);
      }
    }
  }

  /** Ten is reached. */
  lemma TenEventsHappen() returns (states: seq<State>)
    ensures Run(states) && Advances(states) == 10
  {
    states := Lost(10);
    LostIsListed(10);
    LostAdvances(10);
    RunIsListed(states);
  }

  // ---- What must and cannot happen ----

  /** Once inside a set that no transition leaves, a run stays inside. */
  lemma {:induction false} StaysInside(states: seq<State>, inside: set<State>, i: nat, j: nat)
    requires Run(states) && i <= j < |states| && states[i] in inside
    requires forall p, n :: p in inside && Allowed(p, n) ==> n in inside
    ensures states[j] in inside
    decreases j
  {
    RunIsListed(states);
    if i < j {
      StaysInside(states, inside, i, j - 1);
    }
  }

  lemma NothingListedAfterClosed(p: State, n: State)
    ensures Allowed(p, n) ==> p != CLOSED
  {}

  /** CLOSED is final. */
  lemma NothingFollowsClosed(states: seq<State>, i: nat)
    requires Run(states) && i < |states| && states[i] == CLOSED
    ensures i == |states| - 1
  {
    RunIsListed(states);
    if i < |states| - 1 {
      NothingListedAfterClosed(states[i], states[i + 1]);
    }
  }

  /** A way to CLOSED from each state. */
  function WayOut(s: State): (path: seq<State>)
    decreases Rank(s)
  {
    match s
    case CLOSED => []
    case CREATED => [REJECTED_BY_VALIDATION] + WayOut(REJECTED_BY_VALIDATION)
    case ACCEPTED_BY_EXECUTION => [REPLACE_REQUESTED] + WayOut(REPLACE_REQUESTED)
    case SUBMISSION_REQUESTED => [UNKNOWN_ON_VENUE] + WayOut(UNKNOWN_ON_VENUE)
    case SUBMITTED_TO_VENUE => [VENUE_REJECTED] + WayOut(VENUE_REJECTED)
    case ACKNOWLEDGED_BY_VENUE => [FILLED] + WayOut(FILLED)
    case PARTIALLY_FILLED => [FILLED] + WayOut(FILLED)
    case CANCEL_REQUESTED => [CANCEL_ACKNOWLEDGED] + WayOut(CANCEL_ACKNOWLEDGED)
    case CANCEL_ACKNOWLEDGED => [CANCELED] + WayOut(CANCELED)
    case REPLACE_REQUESTED => [REPLACED] + WayOut(REPLACED)
    case UNKNOWN_ON_VENUE => [RECONCILIATION_REQUIRED] + WayOut(RECONCILIATION_REQUIRED)
    case _ => [CLOSED]
  }

  lemma WayOutSteps(s: State)
    requires s != CLOSED
    ensures WayOut(s) != [] && Allowed(s, WayOut(s)[0]) && Rank(WayOut(s)[0]) < Rank(s)
    ensures WayOut(s) == [WayOut(s)[0]] + WayOut(WayOut(s)[0])
  {}

  /** From every state the order can still be closed. */
  lemma {:induction false} ClosedIsReachable(s: State)
    ensures Linked(Allowed, [s] + WayOut(s))
    ensures ([s] + WayOut(s))[|WayOut(s)|] == CLOSED
    decreases Rank(s)
  {
    if s != CLOSED {
      WayOutSteps(s);
      var next := WayOut(s)[0];
      ClosedIsReachable(next);
      LinkedJoins(Allowed, [s], [next] + WayOut(next));
    }
  }

  /** Every run can be continued to CLOSED. */
  lemma EveryRunCanClose(states: seq<State>)
    requires Run(states) && states != []
    ensures exists path :: Run(states + path) && (states + path)[|states + path| - 1] == CLOSED
  {
    RunIsListed(states);
    var n, last := |states| - 1, states[|states| - 1];
    var path := WayOut(last);
    ClosedIsReachable(last);
    assert states + path == states[..n] + ([last] + path);
    LinkedJoins(Allowed, states[..n], [last] + path);
    RunIsListed(states + path);
    assert Run(states + path);
  }

  /** An order is filled only after the venue acknowledged it. */
  lemma {:induction false} FilledNeedsAcknowledgement(states: seq<State>, i: nat)
    requires Run(states) && i < |states| && states[i] in {FILLED, PARTIALLY_FILLED}
    ensures exists j :: 0 <= j < i && states[j] == ACKNOWLEDGED_BY_VENUE
  {
    FillHasOrigin(states, i);
    if states[i - 1] == PARTIALLY_FILLED {
      FilledNeedsAcknowledgement(states, i - 1);
    }
  }

  lemma FillHasOrigin(states: seq<State>, i: nat)
    requires Run(states) && i < |states| && states[i] in {FILLED, PARTIALLY_FILLED}
    ensures i > 0 && states[i - 1] in {ACKNOWLEDGED_BY_VENUE, PARTIALLY_FILLED}
  {
    RunIsListed(states);
    if i > 0 {
      FillComesFrom(states[i - 1], states[i]);
    }
  }

  lemma FillComesFrom(p: State, n: State)
    requires Allowed(p, n) && n in {FILLED, PARTIALLY_FILLED}
    ensures p in {ACKNOWLEDGED_BY_VENUE, PARTIALLY_FILLED}
  {}

  const AFTER_CANCEL: set<State> :=
    {CANCEL_REQUESTED, CANCEL_ACKNOWLEDGED, CANCELED, UNKNOWN_ON_VENUE, RECONCILIATION_REQUIRED, CLOSED}

  /** Nothing is filled after a cancel was requested. */
  lemma NoFillAfterCancel(states: seq<State>, i: nat, j: nat)
    requires Run(states) && i <= j < |states| && states[i] == CANCEL_REQUESTED
    ensures states[j] in AFTER_CANCEL && states[j] !in {FILLED, PARTIALLY_FILLED}
  {
    StaysInside(states, AFTER_CANCEL, i, j);
  }

  lemma StepIsListed(states: seq<State>, i: nat)
    requires Run(states) && i + 1 < |states|
    ensures Allowed(states[i], states[i + 1])
  {
    RunIsListed(states);
  }

  /** An order lost on the venue is closed only by way of reconciliation, in two steps. */
  lemma UnknownClosesThroughReconciliation(states: seq<State>, i: nat, j: nat)
    requires Run(states) && i <= j < |states| && states[i] == UNKNOWN_ON_VENUE
    ensures j <= i + 2
    ensures j >= i + 1 ==> states[i + 1] == RECONCILIATION_REQUIRED
    ensures states[j] == CLOSED <==> j == i + 2
  {
    if i + 1 < |states| {
      StepIsListed(states, i);
    }
    if i + 2 < |states| {
      StepIsListed(states, i + 1);
      NothingFollowsClosed(states, i + 2);
    }
  }
}
