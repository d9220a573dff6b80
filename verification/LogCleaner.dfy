/** What the DB writer's sidecar lets the log cleaner delete. */
module LogCleaner {
  import opened Wrappers
  import opened DbWriter
  import opened DbWriterRuns
  import opened DbWriterSchedules

  datatype SegmentStatus = OPEN | SEALED | PUBLISHED_TO_KAFKA | REQUIRED_CONSUMERS_COMMITTED
                         | ELIGIBLE_FOR_DELETE | ARCHIVED | DELETED

  datatype Range = Range(first: nat, last: nat)

  datatype Segment = Segment(run: string, status: SegmentStatus, range: Option<Range>)

  predicate ValidSegment(segment: Segment) {
    segment.range.Some? ==> segment.range.value.first <= segment.range.value.last
  }

  /** The run's sidecars that the cleaner waits for. */
  function Required(run: string, sidecars: Sidecars): set<Owner> {
    set k | k in sidecars && k.run == run && sidecars[k].requiredForGc
  }

  /** decide_wal_gc over the run's sidecar checkpoints: eligible for archive or delete. */
  predicate Eligible(segment: Segment, sidecars: Sidecars) {
    && segment.status !in {OPEN, DELETED, ARCHIVED}
    && segment.range.Some?
    && Required(segment.run, sidecars) != {}
    && forall k :: k in Required(segment.run, sidecars) ==> sidecars[k].walOffset >= segment.range.value.last
  }

  /** Every offset of the segment is in the log. */
  ghost predicate Durable(segment: Segment, log: Log)
    requires segment.range.Some?
  {
    forall o: nat :: segment.range.value.first <= o <= segment.range.value.last ==> Slot(segment.run, o) in log
  }

  /** While this writer counts, an eligible segment can be deleted without loss exactly when its first
      offset is in the log and none of its offsets lies in a gap of the log: its last one is always
      behind the checkpoint, whose record is durable. */
  lemma CleanerLosesNothingExactlyWhen(cfg: Config, truth: Upstream, st: Stores, segment: Segment)
    requires Consistent(cfg, truth, st)
    requires cfg.requiredForGc && Owner(cfg.consumer, segment.run) in st.sidecars
    requires ValidSegment(segment) && Eligible(segment, st.sidecars)
    ensures Durable(segment, st.log) <==>
            && Slot(segment.run, segment.range.value.first) in st.log
            && forall o: nat :: segment.range.value.first <= o <= segment.range.value.last ==>
                 !GapAt(st.log, segment.run, o)
    ensures forall o: nat :: Slot(segment.run, o) in st.log ==>
              Slot(segment.run, o) in truth && st.log[Slot(segment.run, o)] == truth[Slot(segment.run, o)]
  {
    var key, first, last := Owner(cfg.consumer, segment.run), segment.range.value.first, segment.range.value.last;
    var c := st.checkpoints[key].walOffset;
    assert key in Required(segment.run, st.sidecars);
    assert Slot(segment.run, c) in st.log && last <= c;
    if Slot(segment.run, first) in st.log {
      forall o: nat | first <= o <= last && !GapAt(st.log, segment.run, o) ensures Slot(segment.run, o) in st.log {
        assert o == c || o == first || first < o < c;
      }
    }
  }

  lemma {:induction false} GapFreeAtTheEnd(cfg: Config, st: Stores, schedule: seq<Delivery>, run: string)
    requires AlwaysGapFree(cfg, st, schedule)
    ensures GapFree(Play(cfg, st, schedule).log, run)
    decreases |schedule|
  {
    if schedule != [] {
      GapFreeAtTheEnd(cfg, Do(cfg, st, schedule[0]).after, schedule[1..], run);
    }
  }

  /** The same after any safe schedule from empty stores: what the cleaner may take is durable as
      published, or starts before the first record the writer ever took. */
  lemma CleanerAfterSafeSchedule(cfg: Config, truth: Upstream, schedule: seq<Delivery>, segment: Segment)
    requires ValidUpstream(truth) && Published(truth, schedule) && AlwaysSafe(cfg, EMPTY, schedule)
    requires cfg.requiredForGc && Owner(cfg.consumer, segment.run) in Play(cfg, EMPTY, schedule).sidecars
    requires ValidSegment(segment) && Eligible(segment, Play(cfg, EMPTY, schedule).sidecars)
    ensures Durable(segment, Play(cfg, EMPTY, schedule).log) <==>
            DeliveredBy(cfg, EMPTY, schedule, Slot(segment.run, segment.range.value.first))
  {
    ExactlyOnce(cfg, truth, schedule);
    GapFreeAtTheEnd(cfg, EMPTY, schedule, segment.run);
    forall o: nat ensures !GapAt(Play(cfg, EMPTY, schedule).log, segment.run, o) {
      GapFreeHasNoGapAt(Play(cfg, EMPTY, schedule).log, segment.run, o);
    }
    CleanerLosesNothingExactlyWhen(cfg, truth, Play(cfg, EMPTY, schedule), segment);
  }
}
