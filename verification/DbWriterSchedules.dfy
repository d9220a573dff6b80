/** Whole schedules: exactly-once, and convergence of splits, retries and repairs. */
module DbWriterSchedules {
  import opened Wrappers
  import opened DbWriter
  import opened DbWriterRuns

  // ---- One delivery and the log ----

  lemma LogAfter(cfg: Config, st: Stores, records: seq<ConsumedRecord>, now: int, saves: nat)
    ensures var admitted := Admit(cfg, st, records);
            Deliver(cfg, st, records, now, saves).after.log ==
            if saves > 0 && admitted.Pending? && admitted.records != [] && CommitRecords(st.log, admitted.records).Ok?
            then CommitRecords(st.log, admitted.records).value
            else st.log
  {
    var admitted := Admit(cfg, st, records);
    if admitted.Pending? && admitted.records != [] {
      SaveAllLog(cfg, st, admitted.records, now, saves);
    }
  }

  lemma SaveAllLog(cfg: Config, st: Stores, pending: seq<ConsumedRecord>, now: int, saves: nat)
    requires pending != []
    ensures SaveAll(cfg, st, pending, now, saves).after.log ==
            if saves > 0 && CommitRecords(st.log, pending).Ok? then CommitRecords(st.log, pending).value else st.log
  {}

  /** The batch overlaps the run's durable offsets or touches them at an end. */
  ghost predicate Abuts(log: Log, records: seq<ConsumedRecord>)
    requires records != []
  {
    var run, a := records[0].journal.run, records[0].journal.walOffset;
    || (forall o: nat :: Slot(run, o) !in log)
    || (exists o: nat :: Slot(run, o) in log && a <= o + 1 && o <= a + |records|)
  }

  lemma MergeIsGapFreeIffAbuts(log: Log, merged: Log, records: seq<ConsumedRecord>)
    requires WellFormed(records) && GapFree(log, records[0].journal.run)
    requires forall s :: s in merged <==> s in log || Covers(records, s)
    ensures GapFree(merged, records[0].journal.run) <==> Abuts(log, records)
  {
    var run, a, n := records[0].journal.run, records[0].journal.walOffset, |records|;
    forall o: nat ensures Slot(run, o) in merged <==> Slot(run, o) in log || a <= o < a + n {
      CoversInterval(records, Slot(run, o));
    }
    if GapFree(merged, run) && exists o: nat :: Slot(run, o) in log {
      var o: nat :| Slot(run, o) in log;
      UnionTouches(log, merged, run, a, n, o);
    }
    if Abuts(log, records) && exists o: nat :: Slot(run, o) in log {
      var o: nat :| Slot(run, o) in log && a <= o + 1 && o <= a + n;
      UnionIsGapFree(log, merged, run, a, n, o);
    }
  }

  lemma UnionTouches(log: Log, merged: Log, run: string, a: nat, n: nat, o: nat)
    requires n > 0 && GapFree(merged, run) && Slot(run, o) in log
    requires forall k: nat :: Slot(run, k) in merged <==> Slot(run, k) in log || a <= k < a + n
    ensures exists k: nat :: Slot(run, k) in log && a <= k + 1 && k <= a + n
  {
    assert Slot(run, o) in merged && Slot(run, a) in merged && Slot(run, a + n - 1) in merged;
    if o + 1 < a {
      assert Slot(run, a - 1) in merged;
    } else if o > a + n {
      assert Slot(run, a + n) in merged;
    }
  }

  lemma UnionIsGapFree(log: Log, merged: Log, run: string, a: nat, n: nat, o: nat)
    requires GapFree(log, run) && Slot(run, o) in log && a <= o + 1 && o <= a + n
    requires forall k: nat :: Slot(run, k) in merged <==> Slot(run, k) in log || a <= k < a + n
    ensures GapFree(merged, run)
  {
    forall low: nat, mid: nat, high: nat | low <= mid <= high && Slot(run, low) in merged && Slot(run, high) in merged
      ensures Slot(run, mid) in merged
    {}
  }

  /** The condition a broker consumer can check before delivering: once a run has a checkpoint any
      batch is safe; before that, a batch must touch what earlier interrupted deliveries left. */
  ghost predicate Safe(cfg: Config, st: Stores, records: seq<ConsumedRecord>, saves: nat) {
    WellFormed(records) && saves > 0 && Owner(cfg.consumer, records[0].journal.run) !in st.checkpoints ==>
      Abuts(st.log, records)
  }

  /** A delivery leaves every run gap-free exactly when it was safe. */
  lemma GapFreeIffSafe(cfg: Config, truth: Upstream, st: Stores, records: seq<ConsumedRecord>, now: int, saves: nat)
    requires ValidUpstream(truth) && Consistent(cfg, truth, st) && FromUpstream(truth, records)
    requires forall run :: GapFree(st.log, run)
    ensures (forall run :: GapFree(Deliver(cfg, st, records, now, saves).after.log, run)) <==>
            Safe(cfg, st, records, saves)
  {
    LogAfter(cfg, st, records, now, saves);
    BatchErrorMeaning(records);
    var admitted := Admit(cfg, st, records);
    if saves > 0 && admitted.Pending? {
      AdmittedRecords(cfg, st, records);
      var pending, run := admitted.records, records[0].journal.run;
      CommitRecordsMeaning(st.log, pending);
      var log := CommitRecords(st.log, pending).value;
      MergeIsGapFreeIffAbuts(st.log, log, pending);
      forall other | other != run ensures GapFree(log, other) {
        assert GapFree(st.log, other);
        forall o: nat ensures Slot(other, o) in log <==> Slot(other, o) in st.log {
          CoversInterval(pending, Slot(other, o));
        }
      }
      if Owner(cfg.consumer, run) in st.checkpoints {
        assert Slot(run, st.checkpoints[Owner(cfg.consumer, run)].walOffset) in st.log;
        assert Abuts(st.log, pending);
      }
    }
  }

  // ---- Whole schedules ----

  datatype Delivery = Delivery(records: seq<ConsumedRecord>, now: int, saves: nat)

  function Do(cfg: Config, st: Stores, d: Delivery): Step {
    Deliver(cfg, st, d.records, d.now, d.saves)
  }

  function Play(cfg: Config, st: Stores, schedule: seq<Delivery>): Stores
    decreases |schedule|
  {
    if schedule == [] then st
    else
      var d := schedule[0];
      Play(cfg, Do(cfg, st, d).after, schedule[1..])
  }

  ghost predicate Published(truth: Upstream, schedule: seq<Delivery>) {
    forall d :: d in schedule ==> FromUpstream(truth, d.records)
  }

  ghost predicate AlwaysGapFree(cfg: Config, st: Stores, schedule: seq<Delivery>)
    decreases |schedule|
  {
    && (forall run :: GapFree(st.log, run))
    && (schedule == [] ||
        var d := schedule[0];
        AlwaysGapFree(cfg, Do(cfg, st, d).after, schedule[1..]))
  }

  ghost predicate AlwaysSafe(cfg: Config, st: Stores, schedule: seq<Delivery>)
    decreases |schedule|
  {
    schedule == [] ||
    var d := schedule[0];
    Safe(cfg, st, d.records, d.saves) &&
    AlwaysSafe(cfg, Do(cfg, st, d).after, schedule[1..])
  }

  /** Under every schedule, every published record is durable at most once, at its own offset and
      as published, and sidecar and cursor <= checkpoint <= log. */
  lemma {:induction false} MarkersStayOrdered(cfg: Config, truth: Upstream, st: Stores, schedule: seq<Delivery>)
    requires ValidUpstream(truth) && Published(truth, schedule) && Consistent(cfg, truth, st)
    ensures Consistent(cfg, truth, Play(cfg, st, schedule))
    decreases |schedule|
  {
    if schedule != [] {
      var d := schedule[0];
      DeliverKeepsConsistent(cfg, truth, st, d.records, d.now, d.saves);
      MarkersStayOrdered(cfg, truth, Do(cfg, st, d).after, schedule[1..]);
    }
  }

  lemma {:induction false} GapFreeIffSafeFrom(cfg: Config, truth: Upstream, st: Stores, schedule: seq<Delivery>)
    requires ValidUpstream(truth) && Published(truth, schedule) && Consistent(cfg, truth, st)
    requires forall run :: GapFree(st.log, run)
    ensures AlwaysGapFree(cfg, st, schedule) <==> AlwaysSafe(cfg, st, schedule)
    decreases |schedule|
  {
    if schedule != [] {
      var d := schedule[0];
      var after := Do(cfg, st, d).after;
      DeliverKeepsConsistent(cfg, truth, st, d.records, d.now, d.saves);
      GapFreeIffSafe(cfg, truth, st, d.records, d.now, d.saves);
      if Safe(cfg, st, d.records, d.saves) {
        GapFreeIffSafeFrom(cfg, truth, after, schedule[1..]);
      }
    }
  }

  const EMPTY := Stores(map[], map[], map[], map[])

  /** The delivery was taken and got past its log save. */
  predicate Taken(cfg: Config, st: Stores, d: Delivery) {
    d.saves >= 1 && Accepted(Do(cfg, st, d).outcome)
  }

  /** Some delivery of the schedule that was taken carried this slot. */
  ghost predicate DeliveredBy(cfg: Config, st: Stores, schedule: seq<Delivery>, s: Slot)
    decreases |schedule|
  {
    schedule != [] &&
    var d := schedule[0];
    || (Taken(cfg, st, d) && Covers(d.records, s))
    || DeliveredBy(cfg, Do(cfg, st, d).after, schedule[1..], s)
  }

  /** Exactly once, from empty stores and under any schedule: the log holds the records of the
      deliveries that were taken, all of them and no others, each once and as published; the markers
      stay ordered; and the log is a gap-free interval of each run at every moment exactly when every
      delivery was safe. */
  lemma ExactlyOnce(cfg: Config, truth: Upstream, schedule: seq<Delivery>)
    requires ValidUpstream(truth) && Published(truth, schedule)
    ensures forall s :: s in Play(cfg, EMPTY, schedule).log <==> DeliveredBy(cfg, EMPTY, schedule, s)
    ensures forall s :: s in Play(cfg, EMPTY, schedule).log ==>
            s in truth && Play(cfg, EMPTY, schedule).log[s] == truth[s]
    ensures Consistent(cfg, truth, Play(cfg, EMPTY, schedule))
    ensures AlwaysGapFree(cfg, EMPTY, schedule) <==> AlwaysSafe(cfg, EMPTY, schedule)
  {
    EmptyIsConsistent(cfg, truth);
    MarkersStayOrdered(cfg, truth, EMPTY, schedule);
    GapFreeIffSafeFrom(cfg, truth, EMPTY, schedule);
    LogIsWhatWasTaken(cfg, truth, EMPTY, schedule);
  }

  // ---- Progress ----

  /** The checkpoint's offset, or -1 before the first one. */
  function Progress(cfg: Config, st: Stores, run: string): int {
    if Owner(cfg.consumer, run) in st.checkpoints then st.checkpoints[Owner(cfg.consumer, run)].walOffset else -1
  }

  /** The last offset of a batch of this run that got past the checkpoint save, or -1. */
  function Processed(cfg: Config, st: Stores, d: Delivery, run: string): int {
    if d.records != [] && d.records[0].journal.run == run && d.saves >= 2
       && Accepted(Do(cfg, st, d).outcome)
    then d.records[|d.records| - 1].journal.walOffset
    else -1
  }

  function Max(a: int, b: int): int {
    if a >= b then a else b
  }

  function HighestProcessed(cfg: Config, st: Stores, schedule: seq<Delivery>, run: string): int
    decreases |schedule|
  {
    if schedule == [] then -1
    else
      var d := schedule[0];
      Max(Processed(cfg, st, d, run),
          HighestProcessed(cfg, Do(cfg, st, d).after, schedule[1..], run))
  }

  lemma ProgressOfDelivery(cfg: Config, truth: Upstream, st: Stores, d: Delivery, run: string)
    requires ValidUpstream(truth) && Consistent(cfg, truth, st) && FromUpstream(truth, d.records)
    ensures Progress(cfg, Do(cfg, st, d).after, run) == Max(Progress(cfg, st, run), Processed(cfg, st, d, run))
  {
    BatchErrorMeaning(d.records);
    var admitted := Admit(cfg, st, d.records);
    if admitted.Pending? {
      AdmittedRecords(cfg, st, d.records);
      CheckpointOfSave(cfg, st, admitted.records, d.now, d.saves);
    } else if admitted.Repeat? {
      AdmissionMeaning(cfg, st, d.records);
    }
  }

  /** The saves move the checkpoint of the batch's run to its last record, and no other. */
  lemma CheckpointOfSave(cfg: Config, st: Stores, pending: seq<ConsumedRecord>, now: int, saves: nat)
    requires WellFormed(pending)
    requires var owner := Owner(cfg.consumer, pending[0].journal.run);
             owner in st.checkpoints ==> st.checkpoints[owner].walOffset < pending[0].journal.walOffset
    ensures var step := SaveAll(cfg, st, pending, now, saves);
            var c := CheckpointFor(cfg, pending, now);
            step.after.checkpoints ==
            if saves >= 2 && Accepted(step.outcome)
            then st.checkpoints[Owner(cfg.consumer, pending[0].journal.run) := c]
            else st.checkpoints
  {
    assert pending[|pending| - 1].journal.walOffset >= pending[0].journal.walOffset;
    if saves >= 2 {
      SaveAllOutcome(cfg, st, pending, now, saves);
    }
  }

  /** After any schedule the checkpoint sits at the highest offset successfully processed. */
  lemma {:induction false} CheckpointIsHighestProcessed(cfg: Config, truth: Upstream, st: Stores,
                                                        schedule: seq<Delivery>, run: string)
    requires ValidUpstream(truth) && Published(truth, schedule) && Consistent(cfg, truth, st)
    ensures Progress(cfg, Play(cfg, st, schedule), run) ==
            Max(Progress(cfg, st, run), HighestProcessed(cfg, st, schedule, run))
    decreases |schedule|
  {
    if schedule == [] {
      assert Progress(cfg, st, run) >= -1;
    } else {
      var d := schedule[0];
      ProgressOfDelivery(cfg, truth, st, d, run);
      DeliverKeepsConsistent(cfg, truth, st, d.records, d.now, d.saves);
      CheckpointIsHighestProcessed(cfg, truth, Do(cfg, st, d).after, schedule[1..], run);
    }
  }

  // ---- Splits, retries and repairs ----

  function UnstampedCheckpoint(c: Checkpoint): Checkpoint {
    c.(batch := BatchId("", "", 0, 0), updatedAt := 0)
  }

  /** The stores without batch ids and timestamps. */
  function Unstamped(st: Stores): Stores {
    Stores(st.log, UnstampedCheckpoints(st.checkpoints), UnstampedSidecars(st.sidecars), UnstampedCursors(st.cursors))
  }

  function UnstampedCheckpoints(m: Checkpoints): Checkpoints {
    map k | k in m :: UnstampedCheckpoint(m[k])
  }

  function UnstampedSidecars(m: Sidecars): Sidecars {
    map k | k in m :: m[k].(updatedAt := 0)
  }

  function UnstampedCursors(m: Cursors): Cursors {
    map k | k in m :: m[k].(updatedAt := 0)
  }

  /** The checkpoint is a function of its offset: two histories that got equally far differ in
      batch id and timestamp only. */
  lemma SameOffsetSameCheckpoint(cfg: Config, truth: Upstream, one: Stores, two: Stores, run: string)
    requires Consistent(cfg, truth, one) && Consistent(cfg, truth, two)
    requires Progress(cfg, one, run) == Progress(cfg, two, run) >= 0
    ensures var key := Owner(cfg.consumer, run);
            UnstampedCheckpoint(one.checkpoints[key]) == UnstampedCheckpoint(two.checkpoints[key])
  {
    var key := Owner(cfg.consumer, run);
    assert CheckpointHolds(cfg, truth, one.log, run, one.checkpoints[key]);
    assert CheckpointHolds(cfg, truth, two.log, run, two.checkpoints[key]);
  }

  lemma {:induction false} AbsorbAppend(log: Log, head: seq<ConsumedRecord>, tail: seq<ConsumedRecord>)
    requires Absorb(log, head).Ok?
    ensures Absorb(log, head + tail) == Absorb(Absorb(log, head).value, tail)
  {
    if tail == [] {
      assert head + tail == head;
    } else {
      var n := |tail| - 1;
      assert (head + tail)[..|head| + n] == head + tail[..n];
      AbsorbAppend(log, head, tail[..n]);
    }
  }

  /** Saving two cursors of one partition in turn, the first possibly refused, leaves what saving
      the second alone leaves. */
  lemma CursorSplit(m: Cursors, low: Cursor, high: Cursor, later: Cursor)
    requires KeyOf(low) == KeyOf(high) && low.broker.offset < high.broker.offset
    requires high.(updatedAt := later.updatedAt) == later
    ensures var between := if SaveCursor(m, low).Ok? then SaveCursor(m, low).value else m;
            var split := if SaveCursor(between, later).Ok? then SaveCursor(between, later).value else between;
            var whole := if SaveCursor(m, high).Ok? then SaveCursor(m, high).value else m;
            UnstampedCursors(split) == UnstampedCursors(whole)
  {}

  lemma MarkerSplit(m: Checkpoints, n: Sidecars, cfg: Config, low: Checkpoint, high: Checkpoint, later: Checkpoint)
    requires low.consumer == high.consumer && low.run == high.run
    requires UnstampedCheckpoint(later) == UnstampedCheckpoint(high)
    ensures var key := Owner(high.consumer, high.run);
            && UnstampedCheckpoints(m[key := low][key := later]) == UnstampedCheckpoints(m[key := high])
            && UnstampedSidecars(n[key := SidecarFor(cfg, low)][key := SidecarFor(cfg, later)]) ==
               UnstampedSidecars(n[key := SidecarFor(cfg, high)])
  {}

  lemma SplitSaved(cfg: Config, st: Stores, log: Log, logHead: Log, head: Checkpoint, tail: Checkpoint,
                   whole: Checkpoint, stepHead: Step, stepTail: Step, stepWhole: Step)
    requires Saved(cfg, st, logHead, head, 4, stepHead)
    requires Saved(cfg, stepHead.after, log, tail, 4, stepTail)
    requires Saved(cfg, st, log, whole, 4, stepWhole)
    requires UnstampedCheckpoint(tail) == UnstampedCheckpoint(whole)
    requires head.consumer == whole.consumer && head.run == whole.run
    requires KeyOf(CursorFor(head)) == KeyOf(CursorFor(whole)) && head.broker.offset < whole.broker.offset
    ensures Unstamped(stepTail.after) == Unstamped(stepWhole.after)
  {
    MarkerSplit(st.checkpoints, st.sidecars, cfg, head, whole, tail);
    CursorSplit(st.cursors, CursorFor(head), CursorFor(whole), CursorFor(tail));
    assert stepWhole.after.log == stepTail.after.log;
    assert UnstampedCheckpoints(stepTail.after.checkpoints) == UnstampedCheckpoints(stepWhole.after.checkpoints);
    assert UnstampedSidecars(stepTail.after.sidecars) == UnstampedSidecars(stepWhole.after.sidecars);
    assert UnstampedCursors(stepTail.after.cursors) == UnstampedCursors(stepWhole.after.cursors);
  }

  /** The records past the checkpoint, saved in one call or in two. */
  lemma SplitSave(cfg: Config, truth: Upstream, st: Stores, head: seq<ConsumedRecord>, tail: seq<ConsumedRecord>,
                  whenWhole: int, whenHead: int, whenTail: int)
    requires ValidUpstream(truth) && Consistent(cfg, truth, st)
    requires head != [] && tail != [] && WellFormed(head + tail) && FromUpstream(truth, head + tail)
    requires Owner(cfg.consumer, head[0].journal.run) in st.checkpoints ==>
               st.checkpoints[Owner(cfg.consumer, head[0].journal.run)].walOffset < head[0].journal.walOffset
    ensures Unstamped(SaveAll(cfg, SaveAll(cfg, st, head, whenHead, 4).after, tail, whenTail, 4).after) ==
            Unstamped(SaveAll(cfg, st, head + tail, whenWhole, 4).after)
  {
    var whole := head + tail;
    SplitWellFormed(head, tail);
    PublishedIsAccepted(truth, st.log, whole);
    PublishedIsAccepted(truth, st.log, head);
    SaveAllShape(cfg, truth, st, whole, whenWhole, 4);
    SaveAllShape(cfg, truth, st, head, whenHead, 4);
    SaveAllKeepsConsistent(cfg, truth, st, head, whenHead, 4);
    var mid := SaveAll(cfg, st, head, whenHead, 4).after;
    PublishedIsAccepted(truth, mid.log, tail);
    HeadCheckpoint(cfg, truth, st, head, whenHead);
    SaveAllShape(cfg, truth, mid, tail, whenTail, 4);
    AbsorbAppend(st.log, head, tail);
    SplitSaved(cfg, st, Absorb(st.log, whole).value, Absorb(st.log, head).value,
               CheckpointFor(cfg, head, whenHead), CheckpointFor(cfg, tail, whenTail),
               CheckpointFor(cfg, whole, whenWhole),
               SaveAll(cfg, st, head, whenHead, 4), SaveAll(cfg, mid, tail, whenTail, 4),
               SaveAll(cfg, st, whole, whenWhole, 4));
  }

  lemma HeadCheckpoint(cfg: Config, truth: Upstream, st: Stores, head: seq<ConsumedRecord>, when: int)
    requires ValidUpstream(truth) && Consistent(cfg, truth, st)
    requires WellFormed(head) && FromUpstream(truth, head) && CommitRecords(st.log, head).Ok?
    requires var owner := Owner(cfg.consumer, head[0].journal.run);
             owner in st.checkpoints ==> st.checkpoints[owner].walOffset < head[0].journal.walOffset
    ensures var owner := Owner(cfg.consumer, head[0].journal.run);
            var mid := SaveAll(cfg, st, head, when, 4).after;
            owner in mid.checkpoints && mid.checkpoints[owner].walOffset == head[|head| - 1].journal.walOffset
  {
    SaveAllShape(cfg, truth, st, head, when, 4);
  }

  lemma SplitWellFormed(head: seq<ConsumedRecord>, tail: seq<ConsumedRecord>)
    requires head != [] && tail != [] && WellFormed(head + tail)
    ensures WellFormed(head) && WellFormed(tail)
    ensures head[0] == (head + tail)[0] && tail[|tail| - 1] == (head + tail)[|head + tail| - 1]
    ensures tail[0].journal.run == head[0].journal.run
    ensures tail[0].journal.walOffset == head[|head| - 1].journal.walOffset + 1
    ensures KeyOfBroker(head[|head| - 1].broker) == KeyOfBroker(tail[|tail| - 1].broker)
    ensures head[|head| - 1].broker.offset < tail[|tail| - 1].broker.offset
  {
    var whole := head + tail;
    forall i | 0 <= i < |head| ensures head[i] == whole[i] {}
    forall i | 0 <= i < |tail| ensures tail[i] == whole[|head| + i] {}
  }

  function KeyOfBroker(b: BrokerOffset): (string, nat) {
    (b.topic, b.partition)
  }

  lemma PublishedIsAccepted(truth: Upstream, log: Log, records: seq<ConsumedRecord>)
    requires LogHolds(truth, log) && FromUpstream(truth, records) && WellFormed(records)
    ensures CommitRecords(log, records).Ok?
    ensures CommitRecords(log, records) == Absorb(log, records)
  {
    CommitRecordsMeaning(log, records);
    BatchErrorMeaning(records);
  }

  /** What an accepted delivery of published records writes: the part past the checkpoint. */
  lemma AcceptedSuffix(cfg: Config, truth: Upstream, st: Stores, records: seq<ConsumedRecord>)
    requires ValidUpstream(truth) && Consistent(cfg, truth, st) && FromUpstream(truth, records)
    requires Admit(cfg, st, records).Pending?
    ensures var pending := Admit(cfg, st, records).records;
            && WellFormed(records) && WellFormed(pending) && FromUpstream(truth, pending)
            && CommitRecords(st.log, pending).Ok?
            && pending[0].journal.run == records[0].journal.run
            && (Owner(cfg.consumer, pending[0].journal.run) in st.checkpoints ==>
                  st.checkpoints[Owner(cfg.consumer, pending[0].journal.run)].walOffset < pending[0].journal.walOffset)
  {
    AdmittedRecords(cfg, st, records);
    PublishedIsAccepted(truth, st.log, Admit(cfg, st, records).records);
  }

  /** How admission of a batch relates to admission of its two parts: nothing new anywhere, all
      the news in the tail, or news from somewhere in the head on. */
  lemma SplitAdmission(cfg: Config, st: Stores, head: seq<ConsumedRecord>, tail: seq<ConsumedRecord>)
    requires head != [] && tail != [] && WellFormed(head + tail)
    requires !Admit(cfg, st, head + tail).Refuse?
    ensures var whole, one, two := Admit(cfg, st, head + tail), Admit(cfg, st, head), Admit(cfg, st, tail);
            || (whole.Repeat? && one.Repeat? && two.Repeat?)
            || (whole.Pending? && one.Repeat? && two == whole)
            || (whole.Pending? && one.Pending? && one.records != [] && whole.records == one.records + tail)
  {
    SplitWellFormed(head, tail);
    var owner := Owner(cfg.consumer, head[0].journal.run);
    if owner !in st.checkpoints {
      BatchErrorMeaning(head + tail);
      BatchErrorMeaning(head);
    } else {
      var whole := head + tail;
      var c, a := st.checkpoints[owner].walOffset, head[0].journal.walOffset;
      SplitRepeats(st.log, c, head, tail);
      AdmissionIsSlice(cfg, st, whole);
      AdmissionIsSlice(cfg, st, head);
      AdmissionIsSlice(cfg, st, tail);
      SplitSlices(c, head, tail);
    }
  }

  lemma SplitSlices(c: nat, head: seq<ConsumedRecord>, tail: seq<ConsumedRecord>)
    requires head != [] && tail != [] && WellFormed(head + tail) && head[0].journal.walOffset <= c + 1
    ensures tail[0].journal.walOffset == head[0].journal.walOffset + |head|
    ensures Past(c, head) != [] ==> Past(c, head + tail) == Past(c, head) + tail
    ensures Past(c, head) == [] ==> tail[0].journal.walOffset <= c + 1 && Past(c, head + tail) == Past(c, tail)
  {
    assert tail[0] == (head + tail)[|head|] && head[0] == (head + tail)[0];
    SliceOfAppend(head, tail, c + 1 - head[0].journal.walOffset);
  }

  lemma SliceOfAppend<T>(a: seq<T>, b: seq<T>, k: nat)
    ensures k < |a| ==> (a + b)[k..] == a[k..] + b
    ensures |a| <= k < |a| + |b| ==> (a + b)[k..] == b[k - |a|..]
  {}

  /** The part of a batch behind the checkpoint, as a slice. */
  ghost function Past(c: nat, records: seq<ConsumedRecord>): seq<ConsumedRecord>
    requires records != []
  {
    var a := records[0].journal.walOffset;
    if a <= c + 1 && c + 1 - a < |records| then records[c + 1 - a..] else []
  }

  lemma AdmissionIsSlice(cfg: Config, st: Stores, records: seq<ConsumedRecord>)
    requires WellFormed(records) && Owner(cfg.consumer, records[0].journal.run) in st.checkpoints
    ensures var c := st.checkpoints[Owner(cfg.consumer, records[0].journal.run)];
            && (Admit(cfg, st, records).Refuse? <==>
                  records[0].journal.walOffset > c.walOffset + 1 || !RepeatsMatch(st.log, c.walOffset, records))
            && (!Admit(cfg, st, records).Refuse? ==>
                  Admit(cfg, st, records) ==
                  if Past(c.walOffset, records) == [] then Repeat(c) else Pending(Past(c.walOffset, records)))
  {
    AdmissionMeaning(cfg, st, records);
    LastOffset(records);
  }

  lemma SplitRepeats(log: Log, c: nat, head: seq<ConsumedRecord>, tail: seq<ConsumedRecord>)
    ensures RepeatsMatch(log, c, head + tail) <==> RepeatsMatch(log, c, head) && RepeatsMatch(log, c, tail)
  {
    assert forall r :: r in head + tail <==> r in head || r in tail;
  }

  lemma LastOffset(records: seq<ConsumedRecord>)
    requires WellFormed(records)
    ensures records[|records| - 1].journal.walOffset == records[0].journal.walOffset + |records| - 1
  {}

  /** A batch that is not refused may be cut anywhere. */
  lemma SplitOfAccepted(cfg: Config, truth: Upstream, st: Stores, head: seq<ConsumedRecord>, tail: seq<ConsumedRecord>,
                      whenWhole: int, whenHead: int, whenTail: int)
    requires ValidUpstream(truth) && Consistent(cfg, truth, st)
    requires head != [] && tail != [] && WellFormed(head + tail) && FromUpstream(truth, head + tail)
    requires !Admit(cfg, st, head + tail).Refuse?
    ensures var mid := Deliver(cfg, st, head, whenHead, 4).after;
            Unstamped(Deliver(cfg, mid, tail, whenTail, 4).after) ==
            Unstamped(Deliver(cfg, st, head + tail, whenWhole, 4).after)
  {
    var whole := head + tail;
    SplitAdmission(cfg, st, head, tail);
    if Admit(cfg, st, whole).Pending? {
      AcceptedSuffix(cfg, truth, st, whole);
      var pending := Admit(cfg, st, whole).records;
      if Admit(cfg, st, head).Pending? {
        var part := Admit(cfg, st, head).records;
        SplitMembership(whole, |head|);
        assert whole[..|head|] == head;
        AcceptedSuffix(cfg, truth, st, head);
        SplitSave(cfg, truth, st, part, tail, whenWhole, whenHead, whenTail);
        HeadCheckpoint(cfg, truth, st, part, whenHead);
        AdmittedRecords(cfg, st, head);
        TailIsAllNew(cfg, SaveAll(cfg, st, part, whenHead, 4).after, head, tail);
      } else {
        SameSavesButWhen(cfg, truth, st, pending, whenWhole, whenTail);
      }
    }
  }

  /** The one cut that matters: the head repeats an offset the log lacks, which refuses it and the
      whole batch, while the tail by itself starts inside what is committed and brings news. */
  ghost predicate CutMatters(cfg: Config, st: Stores, head: seq<ConsumedRecord>, tail: seq<ConsumedRecord>)
    requires head != []
  {
    && Owner(cfg.consumer, head[0].journal.run) in st.checkpoints
    && BringsNews(cfg, st, tail)
    && exists r :: r in head && SlotOf(r) !in st.log
  }

  /** Delivering a batch in two parts leaves the stores that delivering it whole leaves, apart from
      batch ids and timestamps, exactly when the cut does not separate a missing offset from news. */
  lemma SplitExactlyWhen(cfg: Config, truth: Upstream, st: Stores, head: seq<ConsumedRecord>, tail: seq<ConsumedRecord>,
                         whenWhole: int, whenHead: int, whenTail: int)
    requires ValidUpstream(truth) && Consistent(cfg, truth, st)
    requires head != [] && tail != [] && WellFormed(head + tail) && FromUpstream(truth, head + tail)
    ensures var mid := Deliver(cfg, st, head, whenHead, 4).after;
            Unstamped(Deliver(cfg, mid, tail, whenTail, 4).after) ==
            Unstamped(Deliver(cfg, st, head + tail, whenWhole, 4).after) <==>
            !CutMatters(cfg, st, head, tail)
  {
    SplitWellFormed(head, tail);
    PartsArePublished(truth, head, tail);
    PendingExactlyWhen(cfg, truth, st, tail);
    if !Admit(cfg, st, head + tail).Refuse? {
      SplitOfAccepted(cfg, truth, st, head, tail, whenWhole, whenHead, whenTail);
      AcceptedCutIsHarmless(cfg, truth, st, head, tail);
    } else {
      RefusedHead(cfg, truth, st, head, tail);
      if Admit(cfg, st, tail).Pending? {
        NewsShows(cfg, truth, st, tail, whenTail);
      }
    }
  }

  lemma PartsArePublished(truth: Upstream, head: seq<ConsumedRecord>, tail: seq<ConsumedRecord>)
    requires FromUpstream(truth, head + tail)
    ensures FromUpstream(truth, head) && FromUpstream(truth, tail)
  {
    assert forall r :: r in head + tail <==> r in head || r in tail;
  }

  lemma AcceptedCutIsHarmless(cfg: Config, truth: Upstream, st: Stores, head: seq<ConsumedRecord>,
                              tail: seq<ConsumedRecord>)
    requires Consistent(cfg, truth, st) && head != [] && tail != [] && WellFormed(head + tail)
    requires !Admit(cfg, st, head + tail).Refuse?
    ensures !CutMatters(cfg, st, head, tail)
  {
    SplitWellFormed(head, tail);
    var owner := Owner(cfg.consumer, head[0].journal.run);
    if owner in st.checkpoints && BringsNews(cfg, st, tail) {
      var c := st.checkpoints[owner].walOffset;
      AdmissionIsSlice(cfg, st, head + tail);
      SplitRepeats(st.log, c, head, tail);
      NothingPast(c, head);
    }
  }

  /** When the whole batch is refused, its head changes nothing, and the tail gets past admission
      exactly at a cut that matters. */
  lemma RefusedHead(cfg: Config, truth: Upstream, st: Stores, head: seq<ConsumedRecord>, tail: seq<ConsumedRecord>)
    requires Consistent(cfg, truth, st) && FromUpstream(truth, head) && FromUpstream(truth, tail)
    requires head != [] && tail != [] && WellFormed(head + tail) && Admit(cfg, st, head + tail).Refuse?
    ensures !Admit(cfg, st, head).Pending?
    ensures Admit(cfg, st, tail).Pending? <==> CutMatters(cfg, st, head, tail)
  {
    SplitWellFormed(head, tail);
    BatchErrorMeaning(head + tail);
    var owner := Owner(cfg.consumer, head[0].journal.run);
    assert owner in st.checkpoints;
    var c := st.checkpoints[owner].walOffset;
    PendingExactlyWhen(cfg, truth, st, head);
    PendingExactlyWhen(cfg, truth, st, tail);
    AdmissionIsSlice(cfg, st, head + tail);
    SplitRepeats(st.log, c, head, tail);
    PublishedRepeatsMatch(truth, st.log, c, head);
    PublishedRepeatsMatch(truth, st.log, c, tail);
    if BringsNews(cfg, st, tail) {
      NothingPast(c, head);
    }
    if BringsNews(cfg, st, head) {
      NothingBehind(c, tail);
    }
  }

  lemma NothingBehind(c: nat, records: seq<ConsumedRecord>)
    requires WellFormed(records) && c < records[0].journal.walOffset
    ensures forall r :: r in records ==> r.journal.walOffset > c
  {}

  /** News changes the stores beyond batch ids and timestamps. */
  lemma NewsShows(cfg: Config, truth: Upstream, st: Stores, records: seq<ConsumedRecord>, when: int)
    requires ValidUpstream(truth) && Consistent(cfg, truth, st) && FromUpstream(truth, records)
    requires Admit(cfg, st, records).Pending? && Owner(cfg.consumer, records[0].journal.run) in st.checkpoints
    ensures Unstamped(Deliver(cfg, st, records, when, 4).after) != Unstamped(st)
  {
    var owner := Owner(cfg.consumer, records[0].journal.run);
    AcceptedSuffix(cfg, truth, st, records);
    AdmittedRecords(cfg, st, records);
    HeadCheckpoint(cfg, truth, st, Admit(cfg, st, records).records, when);
    var after := Deliver(cfg, st, records, when, 4).after;
    assert after.checkpoints[owner].walOffset != st.checkpoints[owner].walOffset;
    assert UnstampedCheckpoints(after.checkpoints)[owner] != UnstampedCheckpoints(st.checkpoints)[owner];
  }

  /** After the head, the tail starts right behind the checkpoint. */
  lemma TailIsAllNew(cfg: Config, mid: Stores, head: seq<ConsumedRecord>, tail: seq<ConsumedRecord>)
    requires head != [] && tail != [] && WellFormed(head + tail)
    requires Owner(cfg.consumer, head[0].journal.run) in mid.checkpoints
    requires mid.checkpoints[Owner(cfg.consumer, head[0].journal.run)].walOffset == head[|head| - 1].journal.walOffset
    ensures Admit(cfg, mid, tail) == Pending(tail)
  {
    SplitWellFormed(head, tail);
    AdmissionMeaning(cfg, mid, tail);
    assert tail[0..] == tail;
    assert tail[|tail| - 1].journal.walOffset >= tail[0].journal.walOffset;
  }

  lemma StampsOnly(cfg: Config, st: Stores, log: Log, one: Checkpoint, two: Checkpoint, stepOne: Step, stepTwo: Step)
    requires Saved(cfg, st, log, one, 4, stepOne) && Saved(cfg, st, log, two, 4, stepTwo)
    requires UnstampedCheckpoint(one) == UnstampedCheckpoint(two)
    ensures Unstamped(stepOne.after) == Unstamped(stepTwo.after)
  {
    MarkerStamps(st.checkpoints, st.sidecars, cfg, one, two);
    CursorStamps(st.cursors, CursorFor(one), CursorFor(two));
  }

  lemma MarkerStamps(m: Checkpoints, n: Sidecars, cfg: Config, one: Checkpoint, two: Checkpoint)
    requires UnstampedCheckpoint(one) == UnstampedCheckpoint(two)
    ensures var key := Owner(one.consumer, one.run);
            && UnstampedCheckpoints(m[key := one]) == UnstampedCheckpoints(m[key := two])
            && UnstampedSidecars(n[key := SidecarFor(cfg, one)]) == UnstampedSidecars(n[key := SidecarFor(cfg, two)])
  {}

  lemma CursorStamps(m: Cursors, one: Cursor, two: Cursor)
    requires one.(updatedAt := 0) == two.(updatedAt := 0)
    ensures SaveCursor(m, one).Ok? <==> SaveCursor(m, two).Ok?
    ensures SaveCursor(m, one).Ok? ==>
              UnstampedCursors(SaveCursor(m, one).value) == UnstampedCursors(SaveCursor(m, two).value)
  {}

  lemma SameSavesButWhen(cfg: Config, truth: Upstream, st: Stores, pending: seq<ConsumedRecord>, one: int, two: int)
    requires ValidUpstream(truth) && Consistent(cfg, truth, st)
    requires WellFormed(pending) && FromUpstream(truth, pending) && CommitRecords(st.log, pending).Ok?
    requires var owner := Owner(cfg.consumer, pending[0].journal.run);
             owner in st.checkpoints ==> st.checkpoints[owner].walOffset < pending[0].journal.walOffset
    ensures Unstamped(SaveAll(cfg, st, pending, one, 4).after) == Unstamped(SaveAll(cfg, st, pending, two, 4).after)
  {
    SaveAllShape(cfg, truth, st, pending, one, 4);
    SaveAllShape(cfg, truth, st, pending, two, 4);
    StampsOnly(cfg, st, CommitRecords(st.log, pending).value,
               CheckpointFor(cfg, pending, one), CheckpointFor(cfg, pending, two),
               SaveAll(cfg, st, pending, one, 4), SaveAll(cfg, st, pending, two, 4));
  }

  /** A delivery that died before its checkpoint save, redelivered in full, ends where one
      undisturbed delivery ends. */
  lemma RetryConverges(cfg: Config, truth: Upstream, st: Stores, records: seq<ConsumedRecord>, saves: nat,
                       whenFirst: int, whenRetry: int, whenOnce: int)
    requires ValidUpstream(truth) && Consistent(cfg, truth, st) && FromUpstream(truth, records)
    requires saves <= 1
    ensures var mid := Deliver(cfg, st, records, whenFirst, saves).after;
            Unstamped(Deliver(cfg, mid, records, whenRetry, 4).after) ==
            Unstamped(Deliver(cfg, st, records, whenOnce, 4).after)
  {
    if Admit(cfg, st, records).Pending? {
      AcceptedSuffix(cfg, truth, st, records);
      var pending := Admit(cfg, st, records).records;
      DeliverIsSaveAll(cfg, st, records, pending, whenFirst, saves);
      DeliverIsSaveAll(cfg, st, records, pending, whenOnce, 4);
      DeliverIsSaveAll(cfg, st, records, pending, whenRetry, 4);
      SameSavesButWhen(cfg, truth, st, pending, whenRetry, whenOnce);
      RetryAfterLogSave(cfg, truth, st, records, pending, whenRetry, whenOnce);
    }
  }

  lemma RetryAfterLogSave(cfg: Config, truth: Upstream, st: Stores, records: seq<ConsumedRecord>,
                          pending: seq<ConsumedRecord>, whenRetry: int, whenOnce: int)
    requires ValidUpstream(truth) && Consistent(cfg, truth, st) && FromUpstream(truth, records)
    requires Admit(cfg, st, records) == Pending(pending)
    ensures CommitRecords(st.log, pending).Ok?
    ensures var mid := st.(log := CommitRecords(st.log, pending).value);
            Unstamped(Deliver(cfg, mid, records, whenRetry, 4).after) ==
            Unstamped(SaveAll(cfg, st, pending, whenOnce, 4).after)
  {
    AcceptedSuffix(cfg, truth, st, records);
    var mid := st.(log := CommitRecords(st.log, pending).value);
    RetriedSave(cfg, truth, st, mid, pending, whenRetry, whenOnce);
    SameAdmission(cfg, truth, st, mid, records);
    DeliverIsSaveAll(cfg, mid, records, pending, whenRetry, 4);
  }

  lemma DeliverIsSaveAll(cfg: Config, st: Stores, records: seq<ConsumedRecord>, pending: seq<ConsumedRecord>, now: int,
                         saves: nat)
    requires Admit(cfg, st, records) == Pending(pending) && pending != []
    ensures Deliver(cfg, st, records, now, saves) == SaveAll(cfg, st, pending, now, saves)
    ensures saves == 0 ==> Deliver(cfg, st, records, now, saves).after == st
    ensures saves == 1 && CommitRecords(st.log, pending).Ok? ==>
              Deliver(cfg, st, records, now, saves).after == st.(log := CommitRecords(st.log, pending).value)
  {}

  /** Saving records the log already took in ends where saving them at once ends. */
  lemma RetriedSave(cfg: Config, truth: Upstream, st: Stores, mid: Stores, pending: seq<ConsumedRecord>, whenRetry: int,
                    whenOnce: int)
    requires ValidUpstream(truth) && Consistent(cfg, truth, st)
    requires WellFormed(pending) && FromUpstream(truth, pending) && CommitRecords(st.log, pending).Ok?
    requires mid == st.(log := CommitRecords(st.log, pending).value)
    requires var owner := Owner(cfg.consumer, pending[0].journal.run);
             owner in st.checkpoints ==> st.checkpoints[owner].walOffset < pending[0].journal.walOffset
    ensures Consistent(cfg, truth, mid) && forall s :: s in st.log ==> s in mid.log
    ensures Unstamped(SaveAll(cfg, mid, pending, whenRetry, 4).after) ==
            Unstamped(SaveAll(cfg, st, pending, whenOnce, 4).after)
  {
    LogGrows(cfg, truth, st, pending, whenOnce);
    CommittingTwice(truth, st.log, mid.log, pending);
    SaveAllShape(cfg, truth, st, pending, whenOnce, 4);
    SaveAllShape(cfg, truth, mid, pending, whenRetry, 4);
    var retried, once := CheckpointFor(cfg, pending, whenRetry), CheckpointFor(cfg, pending, whenOnce);
    SavedOverLog(cfg, st, mid, once, SaveAll(cfg, st, pending, whenOnce, 4));
    StampsOnly(cfg, mid, mid.log, retried, once, SaveAll(cfg, mid, pending, whenRetry, 4),
               SaveAll(cfg, st, pending, whenOnce, 4));
  }

  lemma SavedOverLog(cfg: Config, st: Stores, mid: Stores, c: Checkpoint, step: Step)
    requires Saved(cfg, st, mid.log, c, 4, step) && mid == st.(log := mid.log)
    ensures Saved(cfg, mid, mid.log, c, 4, step)
  {}

  /** Committing the same published records again changes nothing. */
  lemma CommittingTwice(truth: Upstream, log: Log, merged: Log, records: seq<ConsumedRecord>)
    requires LogHolds(truth, merged) && FromUpstream(truth, records) && WellFormed(records)
    requires CommitRecords(log, records) == Ok(merged)
    ensures CommitRecords(merged, records) == Ok(merged)
  {
    CommitRecordsMeaning(log, records);
    CommitRecordsMeaning(merged, records);
    var again := CommitRecords(merged, records).value;
    forall s | s in again ensures s in merged && again[s] == merged[s] {
      assert Covers(records, s) ==> s in merged;
    }
    assert again == merged;
  }

  /** Admission does not change when the log grows by published records past the checkpoint. */
  lemma SameAdmission(cfg: Config, truth: Upstream, st: Stores, mid: Stores, records: seq<ConsumedRecord>)
    requires Consistent(cfg, truth, st) && Consistent(cfg, truth, mid) && FromUpstream(truth, records)
    requires mid.checkpoints == st.checkpoints && (forall s :: s in st.log ==> s in mid.log)
    requires Admit(cfg, st, records).Pending?
    ensures Admit(cfg, mid, records) == Admit(cfg, st, records)
  {
    PendingExactlyWhen(cfg, truth, st, records);
    assert BringsNews(cfg, mid, records);
    PendingExactlyWhen(cfg, truth, mid, records);
    PendingIsSlice(cfg, st, records);
    PendingIsSlice(cfg, mid, records);
  }

  lemma PendingIsSlice(cfg: Config, st: Stores, records: seq<ConsumedRecord>)
    requires Admit(cfg, st, records).Pending?
    ensures records != []
    ensures var owner := Owner(cfg.consumer, records[0].journal.run);
            Admit(cfg, st, records) ==
            Pending(if owner in st.checkpoints then Past(st.checkpoints[owner].walOffset, records) else records)
  {
    AdmittedRecords(cfg, st, records);
    if Owner(cfg.consumer, records[0].journal.run) in st.checkpoints {
      AdmissionIsSlice(cfg, st, records);
    }
  }

  /** Once a delivery got past its checkpoint save, delivering the same batch again writes nothing,
      however far the first one got. */
  lemma RedeliveryWritesNothing(cfg: Config, truth: Upstream, st: Stores, records: seq<ConsumedRecord>, saves: nat,
                                whenFirst: int, whenRetry: int, again: nat)
    requires ValidUpstream(truth) && Consistent(cfg, truth, st) && FromUpstream(truth, records)
    requires BringsNews(cfg, st, records) && saves >= 2
    ensures var mid := Deliver(cfg, st, records, whenFirst, saves).after;
            var owner := Owner(cfg.consumer, records[0].journal.run);
            && owner in mid.checkpoints
            && mid.checkpoints[owner].walOffset == records[|records| - 1].journal.walOffset
            && Deliver(cfg, mid, records, whenRetry, again) == Step(mid, NothingNew(mid.checkpoints[owner]))
  {
    PendingExactlyWhen(cfg, truth, st, records);
    AcceptedSuffix(cfg, truth, st, records);
    AdmittedRecords(cfg, st, records);
    var pending := Admit(cfg, st, records).records;
    WholeBatchIsDurable(cfg, truth, st, records, pending);
    var mid := SaveAll(cfg, st, pending, whenFirst, saves).after;
    SaveAllShape(cfg, truth, st, pending, whenFirst, saves);
    DurableBatchIsRepeat(cfg, mid, records);
  }

  /** A marker that an undisturbed delivery of news would have moved, and the interrupted one did not:
      a configured sidecar when the process stopped right after the checkpoint, or a configured cursor
      that would have accepted. */
  ghost predicate LeavesMarkerBehind(cfg: Config, st: Stores, records: seq<ConsumedRecord>, saves: nat) {
    && saves in {2, 3}
    && BringsNews(cfg, st, records)
    && ((saves == 2 && cfg.hasSidecar) || (cfg.hasCursor && CursorBehind(cfg, st, records[|records| - 1])))
  }

  /** A delivery stopped anywhere and then redelivered ends where one undisturbed delivery ends, apart
      from batch ids and timestamps, exactly when it left no marker behind. */
  lemma RedeliveryConvergesExactlyWhen(cfg: Config, truth: Upstream, st: Stores, records: seq<ConsumedRecord>,
                                       saves: nat, whenFirst: int, whenRetry: int, whenOnce: int)
    requires ValidUpstream(truth) && Consistent(cfg, truth, st) && FromUpstream(truth, records)
    ensures var mid := Deliver(cfg, st, records, whenFirst, saves).after;
            Unstamped(Deliver(cfg, mid, records, whenRetry, 4).after) ==
            Unstamped(Deliver(cfg, st, records, whenOnce, 4).after) <==>
            !LeavesMarkerBehind(cfg, st, records, saves)
  {
    PendingExactlyWhen(cfg, truth, st, records);
    if saves <= 1 {
      RetryConverges(cfg, truth, st, records, saves, whenFirst, whenRetry, whenOnce);
    } else if Admit(cfg, st, records).Pending? {
      RedeliveryWritesNothing(cfg, truth, st, records, saves, whenFirst, whenRetry, 4);
      StoppedAgainstOnce(cfg, truth, st, records, saves, whenFirst, whenOnce);
    }
  }

  lemma StoppedAgainstOnce(cfg: Config, truth: Upstream, st: Stores, records: seq<ConsumedRecord>, saves: nat,
                           whenFirst: int, whenOnce: int)
    requires ValidUpstream(truth) && Consistent(cfg, truth, st) && FromUpstream(truth, records)
    requires BringsNews(cfg, st, records) && saves >= 2
    ensures Unstamped(Deliver(cfg, st, records, whenFirst, saves).after) ==
            Unstamped(Deliver(cfg, st, records, whenOnce, 4).after) <==>
            !LeavesMarkerBehind(cfg, st, records, saves)
  {
    PendingExactlyWhen(cfg, truth, st, records);
    AcceptedSuffix(cfg, truth, st, records);
    var pending := Admit(cfg, st, records).records;
    LastIsPending(cfg, st, records);
    StoppedSaves(cfg, truth, st, pending, saves, whenFirst, whenOnce);
    DeliverIsSaveAll(cfg, st, records, pending, whenFirst, saves);
    DeliverIsSaveAll(cfg, st, records, pending, whenOnce, 4);
  }

  lemma LastIsPending(cfg: Config, st: Stores, records: seq<ConsumedRecord>)
    requires Admit(cfg, st, records).Pending?
    ensures var pending := Admit(cfg, st, records).records;
            records != [] && pending != [] && pending[|pending| - 1] == records[|records| - 1]
  {
    AdmittedRecords(cfg, st, records);
  }

  lemma StoppedSaves(cfg: Config, truth: Upstream, st: Stores, pending: seq<ConsumedRecord>, saves: nat,
                     whenFirst: int, whenOnce: int)
    requires ValidUpstream(truth) && Consistent(cfg, truth, st)
    requires WellFormed(pending) && FromUpstream(truth, pending) && CommitRecords(st.log, pending).Ok? && saves >= 2
    requires var owner := Owner(cfg.consumer, pending[0].journal.run);
             owner in st.checkpoints ==> st.checkpoints[owner].walOffset < pending[0].journal.walOffset
    ensures Unstamped(SaveAll(cfg, st, pending, whenFirst, saves).after) ==
            Unstamped(SaveAll(cfg, st, pending, whenOnce, 4).after) <==>
            && (saves == 2 ==> !cfg.hasSidecar)
            && (saves <= 3 && cfg.hasCursor ==> !CursorBehind(cfg, st, pending[|pending| - 1]))
  {
    var first, once := CheckpointFor(cfg, pending, whenFirst), CheckpointFor(cfg, pending, whenOnce);
    SaveAllShape(cfg, truth, st, pending, whenFirst, saves);
    SaveAllShape(cfg, truth, st, pending, whenOnce, 4);
    SidecarIsBehind(cfg, truth, st, pending, whenOnce);
    CheckpointIsAhead(cfg, st, pending, whenOnce);
    CursorDecides(cfg, st, once);
    StoppedMarkers(cfg, st, CommitRecords(st.log, pending).value, first, once, saves,
                   SaveAll(cfg, st, pending, whenFirst, saves), SaveAll(cfg, st, pending, whenOnce, 4));
  }

  lemma CheckpointIsAhead(cfg: Config, st: Stores, pending: seq<ConsumedRecord>, now: int)
    requires WellFormed(pending)
    requires var owner := Owner(cfg.consumer, pending[0].journal.run);
             owner in st.checkpoints ==> st.checkpoints[owner].walOffset < pending[0].journal.walOffset
    ensures var c := CheckpointFor(cfg, pending, now);
            var owner := Owner(c.consumer, c.run);
            c.consumer == cfg.consumer && (owner in st.checkpoints ==> st.checkpoints[owner].walOffset < c.walOffset)
  {}

  lemma SidecarIsBehind(cfg: Config, truth: Upstream, st: Stores, pending: seq<ConsumedRecord>, now: int)
    requires Consistent(cfg, truth, st) && WellFormed(pending)
    requires var owner := Owner(cfg.consumer, pending[0].journal.run);
             owner in st.checkpoints ==> st.checkpoints[owner].walOffset < pending[0].journal.walOffset
    ensures var c := CheckpointFor(cfg, pending, now);
            var owner := Owner(c.consumer, c.run);
            owner in st.sidecars ==> st.sidecars[owner].walOffset < c.walOffset
  {}

  lemma StoppedMarkers(cfg: Config, st: Stores, log: Log, first: Checkpoint, once: Checkpoint, saves: nat,
                       stepFirst: Step, stepOnce: Step)
    requires saves >= 2 && UnstampedCheckpoint(first) == UnstampedCheckpoint(once)
    requires Saved(cfg, st, log, first, saves, stepFirst) && Saved(cfg, st, log, once, 4, stepOnce)
    requires var owner := Owner(once.consumer, once.run);
             owner in st.sidecars ==> st.sidecars[owner].walOffset < once.walOffset
    requires var key := KeyOf(CursorFor(once));
             SaveCursor(st.cursors, CursorFor(once)).Ok? <==>
             (key in st.cursors ==> st.cursors[key].broker.offset < once.broker.offset)
    ensures Unstamped(stepFirst.after) == Unstamped(stepOnce.after) <==>
            && (saves == 2 ==> !cfg.hasSidecar)
            && (saves <= 3 && cfg.hasCursor ==> SaveCursor(st.cursors, CursorFor(once)).Err?)
  {
    MarkerStamps(st.checkpoints, st.sidecars, cfg, first, once);
    CursorStamps(st.cursors, CursorFor(first), CursorFor(once));
    SidecarMoves(st.sidecars, SidecarFor(cfg, once));
    CursorMoves(st.cursors, CursorFor(once));
  }

  /** Advancing a sidecar or a cursor shows. */
  lemma SidecarMoves(m: Sidecars, s: Sidecar)
    requires var owner := Owner(s.consumer, s.run); owner in m ==> m[owner].walOffset < s.walOffset
    ensures UnstampedSidecars(m[Owner(s.consumer, s.run) := s]) != UnstampedSidecars(m)
  {
    var owner := Owner(s.consumer, s.run);
    var before, after := UnstampedSidecars(m), UnstampedSidecars(m[owner := s]);
    assert owner in after && after[owner].walOffset == s.walOffset;
    assert owner in before ==> before[owner].walOffset != s.walOffset;
  }

  lemma CursorMoves(m: Cursors, c: Cursor)
    requires SaveCursor(m, c).Ok? && KeyOf(c) in m ==> m[KeyOf(c)].broker.offset < c.broker.offset
    ensures SaveCursor(m, c).Ok? ==> UnstampedCursors(SaveCursor(m, c).value) != UnstampedCursors(m)
  {
    if SaveCursor(m, c).Ok? {
      var before, after := UnstampedCursors(m), UnstampedCursors(SaveCursor(m, c).value);
      assert KeyOf(c) in after && after[KeyOf(c)].broker == c.broker;
      assert KeyOf(c) in before ==> before[KeyOf(c)].broker != c.broker;
    }
  }

  lemma DurableBatchIsRepeat(cfg: Config, mid: Stores, records: seq<ConsumedRecord>)
    requires WellFormed(records) && Owner(cfg.consumer, records[0].journal.run) in mid.checkpoints
    requires mid.checkpoints[Owner(cfg.consumer, records[0].journal.run)].walOffset ==
             records[|records| - 1].journal.walOffset
    requires forall r :: r in records ==> SlotOf(r) in mid.log && Agrees(mid.log, r)
    ensures Admit(cfg, mid, records) == Repeat(mid.checkpoints[Owner(cfg.consumer, records[0].journal.run)])
  {
    AdmissionIsSlice(cfg, mid, records);
    LastOffset(records);
  }

  lemma PastMembers(c: nat, records: seq<ConsumedRecord>, r: ConsumedRecord)
    requires WellFormed(records) && records[0].journal.walOffset <= c + 1
    requires r in records && r.journal.walOffset > c
    ensures r in Past(c, records)
  {
    var i :| 0 <= i < |records| && records[i] == r;
    var k := c + 1 - records[0].journal.walOffset;
    assert records[k..][i - k] == r;
  }

  lemma WholeBatchIsDurable(cfg: Config, truth: Upstream, st: Stores, records: seq<ConsumedRecord>,
                            pending: seq<ConsumedRecord>)
    requires Consistent(cfg, truth, st) && FromUpstream(truth, records) && WellFormed(records)
    requires Admit(cfg, st, records) == Pending(pending) && WellFormed(pending) && FromUpstream(truth, pending)
    requires CommitRecords(st.log, pending).Ok?
    ensures var log := CommitRecords(st.log, pending).value;
            forall r :: r in records ==> SlotOf(r) in log && Agrees(log, r)
  {
    CommitRecordsMeaning(st.log, pending);
    var log := CommitRecords(st.log, pending).value;
    var owner := Owner(cfg.consumer, records[0].journal.run);
    if owner in st.checkpoints {
      AdmissionIsSlice(cfg, st, records);
    } else {
      AdmittedRecords(cfg, st, records);
    }
    forall r | r in records ensures SlotOf(r) in log && Agrees(log, r) {
      if owner in st.checkpoints && r.journal.walOffset > st.checkpoints[owner].walOffset {
        PastMembers(st.checkpoints[owner].walOffset, records, r);
      }
      assert forall q :: q in pending ==> Covers(pending, SlotOf(q));
      SlotHoldsPublished(truth, st.log, log, pending, r);
    }
  }

  lemma SlotHoldsPublished(truth: Upstream, log: Log, merged: Log, pending: seq<ConsumedRecord>, r: ConsumedRecord)
    requires LogHolds(truth, log) && FromUpstream(truth, pending) && FromUpstream(truth, [r])
    requires forall s :: s in merged <==> s in log || Covers(pending, s)
    requires forall s :: s in log ==> merged[s] == log[s]
    requires forall q :: q in pending && SlotOf(q) !in log ==> SlotOf(q) in merged && merged[SlotOf(q)] == q
    requires SlotOf(r) in merged
    ensures Agrees(merged, r)
  {
    assert r in [r];
    if SlotOf(r) !in log {
      var q :| q in pending && SlotOf(q) == SlotOf(r);
    }
  }

  /** The cursor store takes this record's broker offset: nothing is there yet, or something lower. */
  ghost predicate CursorBehind(cfg: Config, st: Stores, last: ConsumedRecord) {
    var key := CursorKey(cfg.consumer, last.broker.topic, last.broker.partition);
    cfg.hasCursor && key in st.cursors ==> st.cursors[key].broker.offset < last.broker.offset
  }

  /** The first undisturbed delivery that brings something new brings log, checkpoint and sidecar to
      its last record, and the batch id names exactly the offsets that were new. The cursor comes
      along exactly when its partition was not already further on; otherwise the call fails and only
      the cursor stays. */
  lemma NewRecordsRepair(cfg: Config, truth: Upstream, st: Stores, records: seq<ConsumedRecord>, now: int)
    requires ValidUpstream(truth) && Consistent(cfg, truth, st) && FromUpstream(truth, records)
    requires BringsNews(cfg, st, records)
    ensures var step, run, b := Deliver(cfg, st, records, now, 4), records[0].journal.run, records[|records| - 1];
            var after, owner, offset := step.after, Owner(cfg.consumer, run), b.journal.walOffset;
            var first :=
              if owner in st.checkpoints then st.checkpoints[owner].walOffset + 1 else records[0].journal.walOffset;
            var cursor := CursorKey(cfg.consumer, b.broker.topic, b.broker.partition);
            && SlotOf(b) in after.log
            && owner in after.checkpoints
            && after.checkpoints[owner] ==
               Checkpoint(cfg.consumer, run, offset, b.journal.eventId, b.broker,
                          TransactionId(cfg.consumer, run, offset), BatchId(cfg.consumer, run, first, offset), now)
            && (cfg.hasSidecar ==>
                  && owner in after.sidecars
                  && after.sidecars[owner] == Sidecar(cfg.consumer, run, offset, now, cfg.requiredForGc))
            && (CursorBehind(cfg, st, b) ==>
                  && step.outcome == Committed(after.checkpoints[owner])
                  && (cfg.hasCursor ==>
                        && cursor in after.cursors
                        && after.cursors[cursor] ==
                           Cursor(cfg.consumer, b.broker, run, offset, b.journal.eventId, now)))
            && (!CursorBehind(cfg, st, b) ==> step.outcome.SaveFailed? && after.cursors == st.cursors)
  {
    PendingExactlyWhen(cfg, truth, st, records);
    var pending := Admit(cfg, st, records).records;
    AcceptedSuffix(cfg, truth, st, records);
    AdmittedRecords(cfg, st, records);
    SaveAllShape(cfg, truth, st, pending, now, 4);
    LogGrows(cfg, truth, st, pending, now);
    CursorDecides(cfg, st, CheckpointFor(cfg, pending, now));
    assert SlotOf(pending[|pending| - 1]).run == pending[0].journal.run;
  }

  /** An existing cursor is never at the broker offset of a record past the checkpoint with that
      record's own run and offset, so equal offsets are refused too. */
  lemma CursorDecides(cfg: Config, st: Stores, c: Checkpoint)
    requires CursorsHold(cfg, st.checkpoints, st.cursors) && c.consumer == cfg.consumer
    requires var owner := Owner(cfg.consumer, c.run);
             owner in st.checkpoints ==> st.checkpoints[owner].walOffset < c.walOffset
    ensures var key := KeyOf(CursorFor(c));
            SaveCursor(st.cursors, CursorFor(c)).Ok? <==>
            (key in st.cursors ==> st.cursors[key].broker.offset < c.broker.offset)
    ensures SaveCursor(st.cursors, CursorFor(c)).Ok? ==>
              SaveCursor(st.cursors, CursorFor(c)).value == st.cursors[KeyOf(CursorFor(c)) := CursorFor(c)]
  {}

  // ---- What the log holds ----

  /** One delivery adds to the log what it carried if it was taken, and otherwise nothing. */
  lemma TakenIsDurable(cfg: Config, truth: Upstream, st: Stores, d: Delivery, s: Slot)
    requires ValidUpstream(truth) && Consistent(cfg, truth, st) && FromUpstream(truth, d.records)
    ensures s in Do(cfg, st, d).after.log <==> s in st.log || (Taken(cfg, st, d) && Covers(d.records, s))
  {
    BatchErrorMeaning(d.records);
    var admitted := Admit(cfg, st, d.records);
    if admitted.Repeat? {
      AdmissionMeaning(cfg, st, d.records);
      NothingPast(admitted.checkpoint.walOffset, d.records);
    } else if admitted.Pending? {
      AcceptedSuffix(cfg, truth, st, d.records);
      AdmittedRecords(cfg, st, d.records);
      CommitRecordsMeaning(st.log, admitted.records);
      WholeBatchIsDurable(cfg, truth, st, d.records, admitted.records);
      if d.saves >= 1 {
        SaveAllShape(cfg, truth, st, admitted.records, d.now, d.saves);
      }
    }
  }

  lemma {:induction false} LogIsWhatWasTaken(cfg: Config, truth: Upstream, st: Stores, schedule: seq<Delivery>)
    requires ValidUpstream(truth) && Published(truth, schedule) && Consistent(cfg, truth, st)
    ensures forall s :: s in Play(cfg, st, schedule).log <==> s in st.log || DeliveredBy(cfg, st, schedule, s)
    decreases |schedule|
  {
    if schedule != [] {
      var d := schedule[0];
      DeliverKeepsConsistent(cfg, truth, st, d.records, d.now, d.saves);
      LogIsWhatWasTaken(cfg, truth, Do(cfg, st, d).after, schedule[1..]);
      forall s ensures s in Do(cfg, st, d).after.log <==> s in st.log || (Taken(cfg, st, d) && Covers(d.records, s)) {
        TakenIsDurable(cfg, truth, st, d, s);
      }
    }
  }

  // ---- Broker offsets ----

  /** The run's durable records sit at one fixed distance between the two logs. */
  ghost predicate Shifted(log: Log, run: string, shift: int) {
    forall o: nat :: Slot(run, o) in log ==> log[Slot(run, o)].broker.offset - o == shift
  }

  /** A delivery that overlaps the log at all keeps the log's broker-minus-WAL shift, published or
      not: one shared record pins the whole batch. */
  lemma OverlapKeepsShift(cfg: Config, st: Stores, records: seq<ConsumedRecord>, now: int, saves: nat, shift: int)
    requires records != [] && Shifted(st.log, records[0].journal.run, shift)
    requires exists r :: r in records && SlotOf(r) in st.log
    ensures Shifted(Deliver(cfg, st, records, now, saves).after.log, records[0].journal.run, shift)
  {
    LogAfter(cfg, st, records, now, saves);
    var log := Deliver(cfg, st, records, now, saves).after.log;
    if log != st.log {
      AdmittedRecords(cfg, st, records);
      var pending := Admit(cfg, st, records).records;
      CommitRecordsMeaning(st.log, pending);
      var r :| r in records && SlotOf(r) in st.log;
      OverlapAgrees(cfg, st, records, r);
      BatchIsShifted(st.log, records, r, shift);
      NewRecordsShifted(st.log, log, records[0].journal.run, pending, shift);
    }
  }

  lemma BatchIsShifted(log: Log, records: seq<ConsumedRecord>, r: ConsumedRecord, shift: int)
    requires WellFormed(records) && Shifted(log, records[0].journal.run, shift)
    requires r in records && SlotOf(r) in log && ConflictWith(log, r).None?
    ensures forall q :: q in records ==> q.broker.offset - q.journal.walOffset == shift
  {
    var i :| 0 <= i < |records| && records[i] == r;
    assert SlotOf(r) == Slot(records[0].journal.run, r.journal.walOffset);
    forall q | q in records ensures q.broker.offset - q.journal.walOffset == shift {
      var j :| 0 <= j < |records| && records[j] == q;
    }
  }

  lemma NewRecordsShifted(log: Log, merged: Log, run: string, pending: seq<ConsumedRecord>, shift: int)
    requires Shifted(log, run, shift)
    requires forall q :: q in pending ==> q.broker.offset - q.journal.walOffset == shift
    requires forall s :: s in merged <==> s in log || Covers(pending, s)
    requires forall s :: s in log ==> merged[s] == log[s]
    requires forall q :: q in pending && SlotOf(q) !in log ==> SlotOf(q) in merged && merged[SlotOf(q)] == q
    ensures Shifted(merged, run, shift)
  {
    forall o: nat | Slot(run, o) in merged ensures merged[Slot(run, o)].broker.offset - o == shift {
      if Slot(run, o) !in log {
        var q :| q in pending && SlotOf(q) == Slot(run, o);
      }
    }
  }

  /** What got past admission and the log agrees with every record it repeats. */
  lemma OverlapAgrees(cfg: Config, st: Stores, records: seq<ConsumedRecord>, r: ConsumedRecord)
    requires Admit(cfg, st, records).Pending? && r in records && SlotOf(r) in st.log
    requires forall q :: q in Admit(cfg, st, records).records ==> Agrees(st.log, q)
    ensures ConflictWith(st.log, r).None?
  {
    AdmittedRecords(cfg, st, records);
    assert Agrees(st.log, r) by {
      if Owner(cfg.consumer, records[0].journal.run) in st.checkpoints {
        AdmissionIsSlice(cfg, st, records);
        var c := st.checkpoints[Owner(cfg.consumer, records[0].journal.run)].walOffset;
        if r.journal.walOffset > c {
          PastMembers(c, records, r);
        }
      }
    }
  }
}
