/** A replay run over an accepted timeline: what it dispatches is in event-time order. */
module ReplayOrder {
  import T = Timeline
  import R = ReplayRun

  /** What a receipt keeps of a timeline event. */
  function Dispatchable(e: T.Event): R.Event {
    R.Event(e.id, e.time, e.kind)
  }

  function EventsOf(t: T.Record): seq<R.Event> {
    seq(|t.events|, i requires 0 <= i < |t.events| => Dispatchable(t.events[i]))
  }

  lemma EventsAreUnique(t: T.Record)
    requires T.Accepted(t)
    ensures R.UniqueIds(EventsOf(t))
    ensures forall i :: 0 <= i < |t.events| ==> t.events[i].order == i
  {
    var events := EventsOf(t);
    forall i, j | 0 <= i < j < |events| ensures events[i].id != events[j].id {
      assert t.events[i].id != t.events[j].id;
    }
  }

  /** Whole runs over a timeline that a sorting policy accepted: the receipts name the timeline's events
      by order index, each once, and their times never go back. */
  lemma DispatchFollowsTime(t: T.Record, ss: seq<R.State>)
    requires T.Accepted(t) && T.Sorting(t.policy)
    requires R.StateChain(ss) && forall k :: 0 <= k < |ss| ==> R.OnTimeline(ss[k], EventsOf(t))
    ensures var d := R.Dispatched(ss, EventsOf(t));
            && |d| <= |t.events|
            && (forall i :: 0 <= i < |d| ==>
                  d[i].index == i == t.events[i].order && d[i].event == Dispatchable(t.events[i]))
            && (forall i, j :: 0 <= i < j < |d| ==>
                  d[i].event.id != d[j].event.id && d[i].event.time <= d[j].event.time)
  {
    var d := R.Dispatched(ss, EventsOf(t));
    EventsAreUnique(t);
    R.RunDispatchesTimelinePrefix(ss, EventsOf(t));
    forall i, j | 0 <= i < j < |d|
      ensures d[i].event.id != d[j].event.id && d[i].event.time <= d[j].event.time
    {
      T.TimeNeverGoesBack(t, i, j);
    }
  }

  /** So the order of what a completed run dispatches is decided by the events, not by how the timeline
      was put together: two completed runs over accepted timelines of the same events dispatch the same
      events in the same order. */
  lemma CompletedRunsAgree(one: T.Record, two: T.Record, ss: seq<R.State>, rs: seq<R.State>)
    requires T.Accepted(one) && T.Accepted(two) && one.policy == two.policy && T.Sorting(one.policy)
    requires forall c :: c in T.Contents(one.events) <==> c in T.Contents(two.events)
    requires R.StateChain(ss) && forall k :: 0 <= k < |ss| ==> R.OnTimeline(ss[k], EventsOf(one))
    requires R.StateChain(rs) && forall k :: 0 <= k < |rs| ==> R.OnTimeline(rs[k], EventsOf(two))
    requires ss[|ss| - 1].status == rs[|rs| - 1].status == R.COMPLETED
    ensures var d, e := R.Dispatched(ss, EventsOf(one)), R.Dispatched(rs, EventsOf(two));
            |d| == |e| == |one.events| && forall i :: 0 <= i < |d| ==> d[i].event == e[i].event
  {
    T.OrderIsDeterminedByContent(one, two);
    EventsAreUnique(one);
    CompletedDispatchesAll(one, ss);
    CompletedDispatchesAll(one, rs);
  }

  lemma CompletedDispatchesAll(t: T.Record, ss: seq<R.State>)
    requires R.UniqueIds(EventsOf(t)) && R.StateChain(ss) && ss[|ss| - 1].status == R.COMPLETED
    requires forall k :: 0 <= k < |ss| ==> R.OnTimeline(ss[k], EventsOf(t))
    ensures var d := R.Dispatched(ss, EventsOf(t));
            |d| == |t.events| && forall i :: 0 <= i < |d| ==> d[i].event == EventsOf(t)[i]
  {
    R.CompletedMeansAllDispatched(ss, EventsOf(t));
    R.RunDispatchesTimelinePrefix(ss, EventsOf(t));
  }
}
