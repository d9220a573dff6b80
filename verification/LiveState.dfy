/** Stream slices, live snapshots, and stitching a live tail onto history. */
module LiveState {
  import opened Wrappers

  datatype Position = Position(stream: string, partition: string, offset: nat, sequence: nat, time: int)

  /** The event id is a digest of position, kind and payload hash: kept as those values. */
  datatype EventId = EventId(position: Position, kind: string, hash: string)

  datatype Event = Event(position: Position, kind: string, hash: string, durability: Durability) {
    function Id(): EventId {
      EventId(position, kind, hash)
    }
  }

  datatype Durability = LIVE_ACCEPTED | DURABLE_COMMITTED | PROJECTED_TO_LIVE_STATE | PERSISTED_TO_DB | RECONCILED

  function Rank(d: Durability): nat {
    match d
    case LIVE_ACCEPTED => 0
    case DURABLE_COMMITTED => 1
    case PROJECTED_TO_LIVE_STATE => 2
    case PERSISTED_TO_DB => 3
    case RECONCILED => 4
  }

  // ---- Positions ----

  predicate SamePartition(a: Position, b: Position) {
    a.stream == b.stream && a.partition == b.partition
  }

  predicate IsAfter(a: Position, b: Position) {
    a.offset > b.offset || (a.offset == b.offset && a.sequence > b.sequence)
  }

  predicate IsContiguousAfter(a: Position, b: Position) {
    a.offset == b.offset + 1 && a.sequence == b.sequence + 1
  }

  /** The pairwise checks; each comparison first insists on one stream and partition. */
  predicate Ordered(events: seq<Event>) {
    forall i :: 0 < i < |events| ==>
      SamePartition(events[i].position, events[i - 1].position) && IsAfter(events[i].position, events[i - 1].position)
  }

  predicate Contiguous(events: seq<Event>) {
    forall i :: 0 < i < |events| ==>
      && SamePartition(events[i].position, events[i - 1].position)
      && IsContiguousAfter(events[i].position, events[i - 1].position)
  }

  predicate InPartition(events: seq<Event>, stream: string, partition: string) {
    forall i :: 0 <= i < |events| ==> events[i].position.stream == stream && events[i].position.partition == partition
  }

  /** Contiguous events are an arithmetic progression in offset and sequence at once. */
  lemma {:induction false} ContiguousIsProgression(events: seq<Event>, i: nat)
    requires Contiguous(events) && i < |events|
    ensures events[i].position.offset == events[0].position.offset + i
    ensures events[i].position.sequence == events[0].position.sequence + i
    ensures SamePartition(events[i].position, events[0].position)
  {
    if i > 0 {
      ContiguousIsProgression(events, i - 1);
    }
  }

  // ---- Slices ----

  datatype History = History(stream: string, partition: string, from: nat, to: nat, events: seq<Event>,
                             persistedUntil: Position, gapFree: bool)

  datatype Freshness = Freshness(latest: Position, stalenessMs: nat, gapFree: bool, complete: bool, speculative: bool,
                                 durability: Durability)

  datatype Tail = Tail(stream: string, partition: string, from: nat, to: nat, events: seq<Event>,
                       latest: Position, freshness: Freshness)

  predicate ValidFreshness(f: Freshness) {
    f.speculative || Rank(f.durability) >= Rank(DURABLE_COMMITTED)
  }

  predicate Spans(events: seq<Event>, from: nat, to: nat)
    requires events != []
  {
    events[0].position.offset == from && events[|events| - 1].position.offset == to
  }

  predicate ValidHistory(h: History) {
    && h.persistedUntil.stream == h.stream && h.persistedUntil.partition == h.partition
    && (h.events != [] ==>
          && h.from <= h.to && Ordered(h.events) && InPartition(h.events, h.stream, h.partition)
          && Spans(h.events, h.from, h.to)
          && (h.gapFree ==> Contiguous(h.events))
          && h.persistedUntil.offset >= h.to)
  }

  predicate ValidTail(t: Tail) {
    && t.latest.stream == t.stream && t.latest.partition == t.partition
    && ValidFreshness(t.freshness) && t.freshness.latest == t.latest
    && (t.events != [] ==>
          && t.from <= t.to && Ordered(t.events) && Contiguous(t.events) && InPartition(t.events, t.stream, t.partition)
          && Spans(t.events, t.from, t.to)
          && t.latest.offset >= t.to)
  }

  /** A non-empty gap-free slice holds exactly one event per offset, in step with the sequence. */
  lemma GapFreeSliceIsDense(h: History, i: nat)
    requires ValidHistory(h) && h.gapFree && i < |h.events|
    ensures |h.events| == h.to - h.from + 1
    ensures h.events[i].position.offset == h.from + i
    ensures h.events[i].position.sequence == h.events[0].position.sequence + i
  {
    ContiguousIsProgression(h.events, i);
    ContiguousIsProgression(h.events, |h.events| - 1);
  }

  lemma ContiguousIsOrdered(events: seq<Event>)
    requires Contiguous(events)
    ensures Ordered(events)
  {}

  // ---- Live snapshots ----

  datatype Snapshot = Snapshot(id: string, latest: Position, hash: string, content: string)

  /** validate_can_replace. */
  predicate CanReplace(next: Snapshot, previous: Snapshot) {
    && next.id == previous.id
    && SamePartition(next.latest, previous.latest)
    && next.latest.offset >= previous.latest.offset
    && (next.latest.offset == previous.latest.offset ==> next.hash == previous.hash)
  }

  ghost predicate ReplaceChain(chain: seq<Snapshot>) {
    forall i :: 0 < i < |chain| ==> CanReplace(chain[i], chain[i - 1])
  }

  /** Along a chain of replacements offsets never go back, and two snapshots at one offset carry the
      same payload, however far apart: replaceability is transitive over histories. */
  lemma {:induction false} ChainsNeverRewrite(chain: seq<Snapshot>, i: nat, j: nat)
    requires ReplaceChain(chain) && i <= j < |chain|
    ensures CanReplace(chain[j], chain[i])
    decreases j
  {
    if i < j {
      ChainsNeverRewrite(chain, i, j - 1);
      assert CanReplace(chain[j], chain[j - 1]);
    }
  }

  class LiveStateGateway {
    var snapshots: map<string, Snapshot>
    /** Everything ever accepted, per snapshot id. */
    ghost var history: map<string, seq<Snapshot>>

    ghost predicate Valid()
      reads this
    {
      && snapshots.Keys == history.Keys
      && forall k :: k in history ==>
           && history[k] != [] && ReplaceChain(history[k])
           && snapshots[k] == history[k][|history[k]| - 1] && snapshots[k].id == k
    }

    constructor ()
      ensures Valid() && snapshots == map[]
    {
      snapshots := map[];
      history := map[];
    }

    /** A put either extends the accepted history of its id or changes nothing. */
    method PutSnapshot(s: Snapshot) returns (ok: bool)
      requires Valid()
      modifies this
      ensures Valid()
      ensures ok <==> (s.id in old(snapshots) ==> CanReplace(s, old(snapshots)[s.id]))
      ensures ok ==> snapshots == old(snapshots)[s.id := s]
      ensures !ok ==> snapshots == old(snapshots) && history == old(history)
      ensures forall k :: k in old(history) ==> k in history && old(history)[k] <= history[k]
    {
      if s.id in snapshots {
        if !CanReplace(s, snapshots[s.id]) {
          return false;
        }
        if s == snapshots[s.id] {
          assert snapshots == snapshots[s.id := s];
          return true;
        }
      }
      ghost var before := if s.id in history then history[s.id] else [];
      assert forall i :: 0 < i < |before + [s]| ==> CanReplace((before + [s])[i], (before + [s])[i - 1]);
      history := history[s.id := before + [s]];
      snapshots := snapshots[s.id := s];
      ok := true;
    }
  }

  // ---- Persisted-until markers ----

  /** validate_advances_from, on the positions two database checkpoints stand for: the pair of offset
      and sequence does not fall. */
  predicate AdvancesFrom(next: Position, previous: Position) {
    && SamePartition(next, previous)
    && !(next.offset < previous.offset || (next.offset == previous.offset && next.sequence < previous.sequence))
  }

  /** Along a chain of saved checkpoints every later one is after every earlier one, or stands at the
      same place: history once persisted never becomes unpersisted. */
  lemma {:induction false} PersistedNeverGoesBack(chain: seq<Position>, i: nat, j: nat)
    requires forall k :: 0 < k < |chain| ==> AdvancesFrom(chain[k], chain[k - 1])
    requires i <= j < |chain|
    ensures SamePartition(chain[j], chain[i])
    ensures || IsAfter(chain[j], chain[i])
            || (chain[j].offset == chain[i].offset && chain[j].sequence == chain[i].sequence)
    decreases j
  {
    if i < j {
      PersistedNeverGoesBack(chain, i, j - 1);
      assert AdvancesFrom(chain[j], chain[j - 1]);
    }
  }

  // ---- Stitching ----

  datatype Policy = Policy(maxStalenessMs: nat, allowSpeculative: bool, requireGapFree: bool, requireComplete: bool,
                           minimum: Durability)

  datatype Failure = LIVE_HISTORY_GAP | INVALID_OVERLAP | STALE_LIVE_STATE | SPECULATIVE_NOT_ALLOWED
                   | INCOMPLETE_HISTORY | STREAM_PARTITION_MISMATCH

  datatype Stitched = Stitched(stream: string, partition: string, history: History, tail: Option<Tail>,
                               events: seq<Event>, from: nat, to: nat, complete: bool, gapFree: bool,
                               tradable: bool, reason: Option<Failure>)

  datatype StitchError = Mismatch | BadOverlap | BadRecord

  function Boundary(h: History): nat {
    if h.events != [] then h.to else h.persistedUntil.offset
  }

  /** The history's event at an offset; the last one if several share it. */
  function EventAt(events: seq<Event>, offset: nat): Option<Event> {
    if events == [] then None
    else if events[|events| - 1].position.offset == offset then Some(events[|events| - 1])
    else EventAt(events[..|events| - 1], offset)
  }

  predicate Matches(h: History, e: Event) {
    var kept := EventAt(h.events, e.position.offset);
    kept.Some? && kept.value.Id() == e.Id() && kept.value.hash == e.hash
  }

  /** The merge loop over the tail: at or before the boundary an event must repeat history, after it
      the event is appended. */
  function MergeFrom(h: History, tail: seq<Event>, i: nat, merged: seq<Event>): Option<seq<Event>>
    requires i <= |tail|
    decreases |tail| - i
  {
    if i == |tail| then Some(merged)
    else if tail[i].position.offset <= Boundary(h) then
      if Matches(h, tail[i]) then MergeFrom(h, tail, i + 1, merged) else None
    else MergeFrom(h, tail, i + 1, merged + [tail[i]])
  }

  method MergeEvents(h: History, tail: seq<Event>) returns (r: Option<seq<Event>>)
    ensures r == MergeFrom(h, tail, 0, h.events)
  {
    var merged := h.events;
    var i := 0;
    while i < |tail|
      invariant 0 <= i <= |tail|
      invariant MergeFrom(h, tail, 0, h.events) == MergeFrom(h, tail, i, merged)
    {
      if tail[i].position.offset <= Boundary(h) {
        if !Matches(h, tail[i]) {
          return None;
        }
      } else {
        merged := merged + [tail[i]];
      }
      i := i + 1;
    }
    r := Some(merged);
  }

  predicate HasGap(h: History, tail: Option<Tail>) {
    tail.Some? && tail.value.events != [] && tail.value.from > Boundary(h) + 1
  }

  predicate Tradable(f: Freshness, p: Policy) {
    && f.stalenessMs <= p.maxStalenessMs
    && (p.requireGapFree ==> f.gapFree)
    && (p.requireComplete ==> f.complete)
    && (f.speculative ==> p.allowSpeculative)
    && Rank(f.durability) >= Rank(p.minimum)
  }

  function ReasonFor(h: History, tail: Option<Tail>, p: Policy): Option<Failure> {
    if !h.gapFree then Some(INCOMPLETE_HISTORY)
    else if HasGap(h, tail) then Some(LIVE_HISTORY_GAP)
    else if h.events == [] && tail.None? then Some(INCOMPLETE_HISTORY)
    else if tail.None? then None
    else if tail.value.freshness.stalenessMs > p.maxStalenessMs then Some(STALE_LIVE_STATE)
    else if tail.value.freshness.speculative && !p.allowSpeculative then Some(SPECULATIVE_NOT_ALLOWED)
    else if !Tradable(tail.value.freshness, p) then Some(INCOMPLETE_HISTORY)
    else None
  }

  /** What the stitched record checks at construction. */
  predicate ValidStitched(s: Stitched) {
    && s.history.stream == s.stream && s.history.partition == s.partition
    && (s.tail.Some? ==> s.tail.value.stream == s.stream && s.tail.value.partition == s.partition)
    && (s.events != [] ==>
          && Ordered(s.events) && InPartition(s.events, s.stream, s.partition) && Spans(s.events, s.from, s.to)
          && (s.gapFree ==> Contiguous(s.events)))
    && (if s.tradable then s.complete && s.gapFree && s.reason.None? else s.reason.Some?)
  }

  function Record(h: History, tail: Option<Tail>, p: Policy, events: seq<Event>): Stitched {
    var reason := ReasonFor(h, tail, p);
    var gapFree := h.gapFree && !HasGap(h, tail) && (tail.Some? ==> tail.value.freshness.gapFree);
    var complete := reason.None? || reason.value !in {LIVE_HISTORY_GAP, INCOMPLETE_HISTORY};
    var fallback := tail.Some? && tail.value.events != [];
    Stitched(h.stream, h.partition, h, tail, events,
             if events != [] then events[0].position.offset else if fallback then tail.value.from else h.from,
             if events != [] then events[|events| - 1].position.offset else if fallback then tail.value.to else h.to,
             complete && gapFree, gapFree, reason.None?, reason)
  }

  function TailEvents(tail: Option<Tail>): seq<Event> {
    if tail.Some? then tail.value.events else []
  }

  function Stitch(h: History, tail: Option<Tail>, p: Policy): Result<Stitched, StitchError> {
    if tail.Some? && (tail.value.stream != h.stream || tail.value.partition != h.partition) then Err(Mismatch)
    else
      var merged := MergeFrom(h, TailEvents(tail), 0, h.events);
      if merged.None? then Err(BadOverlap)
      else if !ValidStitched(Record(h, tail, p, merged.value)) then Err(BadRecord)
      else Ok(Record(h, tail, p, merged.value))
  }

  // ---- What the merge makes ----

  /** Every tail event inside history repeats it. */
  ghost predicate OverlapMatches(h: History, tail: seq<Event>) {
    forall i :: 0 <= i < |tail| && tail[i].position.offset <= Boundary(h) ==> Matches(h, tail[i])
  }

  /** The number of leading tail events inside history. */
  function Overlap(h: History, t: Tail): nat {
    if t.events == [] || t.from > Boundary(h) then 0
    else if Boundary(h) + 1 - t.from < |t.events| then Boundary(h) + 1 - t.from
    else |t.events|
  }

  lemma OverlapIsPrefix(h: History, t: Tail, i: nat)
    requires ValidTail(t) && i < |t.events|
    ensures Overlap(h, t) <= |t.events|
    ensures t.events[i].position.offset <= Boundary(h) <==> i < Overlap(h, t)
  {
    ContiguousIsProgression(t.events, i);
  }

  lemma {:induction false} MergeMeaning(h: History, t: Tail, i: nat, merged: seq<Event>)
    requires ValidTail(t) && i <= |t.events|
    ensures var r := MergeFrom(h, t.events, i, merged);
            && (r.Some? <==> forall j :: i <= j < Overlap(h, t) ==> Matches(h, t.events[j]))
            && (r.Some? ==> r.value == merged + t.events[if i < Overlap(h, t) then Overlap(h, t) else i..])
    ensures Overlap(h, t) <= |t.events|
    decreases |t.events| - i
  {
    if i < |t.events| {
      OverlapIsPrefix(h, t, i);
      if i < Overlap(h, t) {
        MergeMeaning(h, t, i + 1, merged);
      } else {
        MergeMeaning(h, t, i + 1, merged + [t.events[i]]);
        assert t.events[i..] == [t.events[i]] + t.events[i + 1..];
      }
    }
  }

  /** Past the boundary, the merged events are in order whatever the sequences say. */
  lemma MergedIsOrdered(h: History, t: Tail)
    requires ValidHistory(h) && ValidTail(t) && t.stream == h.stream && t.partition == h.partition
    requires Overlap(h, t) <= |t.events|
    ensures var merged := h.events + t.events[Overlap(h, t)..];
            Ordered(merged) && InPartition(merged, h.stream, h.partition)
  {
    var k, n := Overlap(h, t), |h.events|;
    var merged := h.events + t.events[k..];
    forall i | 0 < i < |merged|
      ensures SamePartition(merged[i].position, merged[i - 1].position)
      ensures IsAfter(merged[i].position, merged[i - 1].position)
    {
      if i > n {
        assert merged[i] == t.events[k + i - n] && merged[i - 1] == t.events[k + i - n - 1];
      } else if i == n {
        assert merged[i] == t.events[k];
        OverlapIsPrefix(h, t, k);
      }
    }
  }

  /** The tail starts right at the end of the history, with the wrong sequence number. */
  predicate SequenceBreak(h: History, t: Tail) {
    && h.events != [] && t.events != [] && t.from == h.to + 1
    && t.events[0].position.sequence != h.events[|h.events| - 1].position.sequence + 1
  }

  /** Where history and tail meet: an overlap carries the sequence over by itself, so only a tail
      that starts exactly at the boundary can break it. */
  lemma MergedIsContiguous(h: History, t: Tail)
    requires ValidHistory(h) && ValidTail(t) && t.stream == h.stream && t.partition == h.partition
    requires h.gapFree && !HasGap(h, Some(t)) && OverlapMatches(h, t.events) && Overlap(h, t) <= |t.events|
    ensures Contiguous(h.events + t.events[Overlap(h, t)..]) <==> !SequenceBreak(h, t)
  {
    var k := Overlap(h, t);
    if h.events != [] && k < |t.events| {
      SeamSequence(h, t);
      ContiguousSuffix(t.events, k);
      SeamDecides(h.events, t.events[k..]);
    } else if h.events == [] {
      ContiguousSuffix(t.events, k);
      assert h.events + t.events[k..] == t.events[k..];
    } else {
      assert h.events + t.events[k..] == h.events;
    }
  }

  lemma ContiguousSuffix(events: seq<Event>, k: nat)
    requires Contiguous(events) && k <= |events|
    ensures Contiguous(events[k..])
  {
    forall i | 0 < i < |events| - k
      ensures SamePartition(events[k..][i].position, events[k..][i - 1].position)
      ensures IsContiguousAfter(events[k..][i].position, events[k..][i - 1].position)
    {
      assert events[k..][i] == events[k + i] && events[k..][i - 1] == events[k + i - 1];
    }
  }

  /** The first event past the boundary follows the last historical one unless the sequence breaks. */
  lemma SeamSequence(h: History, t: Tail)
    requires ValidHistory(h) && ValidTail(t) && t.stream == h.stream && t.partition == h.partition
    requires h.events != [] && !HasGap(h, Some(t)) && OverlapMatches(h, t.events) && Overlap(h, t) < |t.events|
    ensures var first, last := t.events[Overlap(h, t)], h.events[|h.events| - 1];
            && SamePartition(last.position, first.position)
            && (IsContiguousAfter(first.position, last.position) <==> !SequenceBreak(h, t))
  {
    var k := Overlap(h, t);
    ContiguousIsProgression(t.events, k);
    if k > 0 {
      ContiguousIsProgression(t.events, k - 1);
      assert Matches(h, t.events[k - 1]);
    }
  }

  lemma SeamDecides(a: seq<Event>, b: seq<Event>)
    requires a != [] && b != [] && Contiguous(a) && Contiguous(b) && SamePartition(a[|a| - 1].position, b[0].position)
    ensures Contiguous(a + b) <==> IsContiguousAfter(b[0].position, a[|a| - 1].position)
  {
    var c := a + b;
    assert c[|a|] == b[0] && c[|a| - 1] == a[|a| - 1];
    if IsContiguousAfter(b[0].position, a[|a| - 1].position) {
      forall i | 0 < i < |c|
        ensures SamePartition(c[i].position, c[i - 1].position) && IsContiguousAfter(c[i].position, c[i - 1].position)
      {
        if i > |a| {
          assert c[i] == b[i - |a|] && c[i - 1] == b[i - |a| - 1];
        }
      }
    }
  }

  /** Appending a tail that starts contiguously after gap-free history meets the stitched record's
      order and contiguity checks. */
  lemma ContiguousTailAppends(h: History, t: Tail)
    requires ValidHistory(h) && ValidTail(t) && h.gapFree && h.events != [] && t.events != []
    requires SamePartition(t.events[0].position, h.events[|h.events| - 1].position)
    requires IsContiguousAfter(t.events[0].position, h.events[|h.events| - 1].position)
    ensures var merged := h.events + t.events;
            Ordered(merged) && Contiguous(merged) && Spans(merged, h.from, t.to) && |merged| == t.to - h.from + 1
  {
    SeamDecides(h.events, t.events);
    ContiguousIsOrdered(h.events + t.events);
    ContiguousIsProgression(h.events + t.events, |h.events| + |t.events| - 1);
  }

  /** A tail that does not call itself gap-free, in a state that passes everything the policy asks
      for because the policy does not ask for gap-freedom. */
  predicate TradableDespiteGaps(h: History, t: Tail, p: Policy) {
    var f := t.freshness;
    && !f.gapFree && !p.requireGapFree
    && h.gapFree && (t.events == [] || t.from <= Boundary(h) + 1)
    && f.stalenessMs <= p.maxStalenessMs
    && (f.speculative ==> p.allowSpeculative)
    && (p.requireComplete ==> f.complete)
    && Rank(f.durability) >= Rank(p.minimum)
  }

  /** When stitching works, for all valid inputs of one partition: the overlap repeats history, a tail
      that claims to be gap-free carries the sequence on, and the state would not be called tradable
      over a tail that does not claim it. In every other case the stitcher raises. */
  lemma StitchesExactlyWhen(h: History, t: Tail, p: Policy)
    requires ValidHistory(h) && ValidTail(t) && t.stream == h.stream && t.partition == h.partition
    ensures Stitch(h, Some(t), p).Ok? <==>
            && OverlapMatches(h, t.events)
            && (h.gapFree && t.freshness.gapFree ==> !SequenceBreak(h, t))
            && !TradableDespiteGaps(h, t, p)
    ensures Stitch(h, Some(t), p).Ok? ==>
              Stitch(h, Some(t), p).value.events == h.events + t.events[Overlap(h, t)..]
  {
    MergeSucceedsOnMatch(h, t);
    if OverlapMatches(h, t.events) {
      var merged := h.events + t.events[Overlap(h, t)..];
      MergedIsOrdered(h, t);
      RecordIsValidWhen(h, t, p, merged);
      if h.gapFree && !HasGap(h, Some(t)) {
        MergedIsContiguous(h, t);
      }
    }
  }

  lemma MergeSucceedsOnMatch(h: History, t: Tail)
    requires ValidTail(t)
    ensures Overlap(h, t) <= |t.events|
    ensures MergeFrom(h, t.events, 0, h.events) ==
            if OverlapMatches(h, t.events) then Some(h.events + t.events[Overlap(h, t)..]) else None
  {
    MergeMeaning(h, t, 0, h.events);
    forall i | 0 <= i < |t.events| ensures t.events[i].position.offset <= Boundary(h) <==> i < Overlap(h, t) {
      OverlapIsPrefix(h, t, i);
    }
  }

  /** The stitched record of ordered events is accepted when its two claims hold: gap-free means
      contiguous, and tradable means gap-free. */
  lemma RecordIsValidWhen(h: History, t: Tail, p: Policy, events: seq<Event>)
    requires ValidHistory(h) && ValidTail(t) && t.stream == h.stream && t.partition == h.partition
    requires Ordered(events) && InPartition(events, h.stream, h.partition)
    ensures ValidStitched(Record(h, Some(t), p, events)) <==>
            && (h.gapFree && !HasGap(h, Some(t)) && t.freshness.gapFree ==> Contiguous(events))
            && (ReasonFor(h, Some(t), p).None? ==> t.freshness.gapFree)
  {}

  function Tick(offset: nat, sequence: nat): Event {
    Event(Position("s", "p", offset, sequence, 0), "TRADE", "", DURABLE_COMMITTED)
  }

  const ONE_EVENT := History("s", "p", 0, 0, [Tick(0, 0)], Tick(0, 0).position, true)

  const ASKS_NOTHING := Policy(0, false, false, false, DURABLE_COMMITTED)

  function OneTick(e: Event, gapFree: bool): Tail {
    Tail("s", "p", 1, 1, [e], e.position, Freshness(e.position, 0, gapFree, true, false, DURABLE_COMMITTED))
  }

  lemma OneTickIsValid(sequence: nat, gapFree: bool)
    ensures ValidHistory(ONE_EVENT) && ValidTail(OneTick(Tick(1, sequence), gapFree))
  {}

  /** Valid slices the stitcher raises for: the tail follows at the next offset, and only its sequence
      number jumps. */
  lemma ASequenceJumpCannotBeStitched()
    ensures var t := OneTick(Tick(1, 5), true);
            && ValidHistory(ONE_EVENT) && ValidTail(t) && SequenceBreak(ONE_EVENT, t)
            && Stitch(ONE_EVENT, Some(t), ASKS_NOTHING).Err?
  {
    OneTickIsValid(5, true);
    StitchesExactlyWhen(ONE_EVENT, OneTick(Tick(1, 5), true), ASKS_NOTHING);
  }

  /** And here nothing is missing but the tail's own claim to be gap-free, which the policy does not
      ask for. */
  lemma AnUnclaimedTailCannotBeStitched()
    ensures var t := OneTick(Tick(1, 1), false);
            && ValidHistory(ONE_EVENT) && ValidTail(t) && TradableDespiteGaps(ONE_EVENT, t, ASKS_NOTHING)
            && Contiguous(ONE_EVENT.events + t.events)
            && Stitch(ONE_EVENT, Some(t), ASKS_NOTHING).Err?
  {
    OneTickIsValid(1, false);
    StitchesExactlyWhen(ONE_EVENT, OneTick(Tick(1, 1), false), ASKS_NOTHING);
  }

  /** Without a tail the stitcher always answers. */
  lemma HistoryAloneStitches(h: History, p: Policy)
    requires ValidHistory(h)
    ensures Stitch(h, None, p).Ok? && Stitch(h, None, p).value.events == h.events
  {}

  /** A stitched state that may be traded on is dense from its first to its last offset, and fresh
      enough for the policy. */
  lemma TradableIsDense(h: History, tail: Option<Tail>, p: Policy, i: nat)
    requires Stitch(h, tail, p).Ok? && Stitch(h, tail, p).value.tradable
    requires i < |Stitch(h, tail, p).value.events|
    ensures var s := Stitch(h, tail, p).value;
            && s.events[i].position.offset == s.from + i && |s.events| == s.to - s.from + 1
            && (tail.Some? ==> Tradable(tail.value.freshness, p))
  {
    var s := Stitch(h, tail, p).value;
    ContiguousIsProgression(s.events, i);
    ContiguousIsProgression(s.events, |s.events| - 1);
  }
}
