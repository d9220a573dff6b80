/** The four stores over time: nothing saved ever goes back, and when the last save, the cursor's, is
    refused. */
module DbWriterMarkers {
  import opened Wrappers
  import opened DbWriter
  import opened DbWriterRuns
  import opened DbWriterSchedules

  // ---- Nothing goes back ----

  /** Durable records stay as they are and no marker falls. */
  ghost predicate Advances(a: Stores, b: Stores) {
    && (forall s :: s in a.log ==> s in b.log && b.log[s] == a.log[s])
    && CheckpointsAdvance(a.checkpoints, b.checkpoints)
    && SidecarsAdvance(a.sidecars, b.sidecars)
    && CursorsAdvance(a.cursors, b.cursors)
  }

  lemma SidecarAdvances(m: Sidecars, s: Sidecar)
    ensures UpsertSidecar(m, s).Ok? ==> SidecarsAdvance(m, UpsertSidecar(m, s).value)
  {}

  lemma CursorAdvances(m: Cursors, c: Cursor)
    ensures SaveCursor(m, c).Ok? ==> CursorsAdvance(m, SaveCursor(m, c).value)
  {}

  lemma SaveMarkersAdvances(cfg: Config, st: Stores, c: Checkpoint, saves: nat)
    ensures Advances(st, SaveMarkers(cfg, st, c, saves).after)
  {
    SidecarAdvances(st.sidecars, SidecarFor(cfg, c));
    CursorAdvances(st.cursors, CursorFor(c));
    SaveMarkersShape(cfg, st, c, saves);
  }

  /** Each marker is the old one or the one just saved. */
  lemma SaveMarkersShape(cfg: Config, st: Stores, c: Checkpoint, saves: nat)
    ensures var after := SaveMarkers(cfg, st, c, saves).after;
            && after.log == st.log && after.checkpoints == st.checkpoints
            && (after.sidecars == st.sidecars || UpsertSidecar(st.sidecars, SidecarFor(cfg, c)) == Ok(after.sidecars))
            && (after.cursors == st.cursors || SaveCursor(st.cursors, CursorFor(c)) == Ok(after.cursors))
  {}

  lemma AdvancesTransitive(a: Stores, b: Stores, c: Stores)
    requires Advances(a, b) && Advances(b, c)
    ensures Advances(a, c)
  {}

  lemma SaveAllAdvances(cfg: Config, st: Stores, pending: seq<ConsumedRecord>, now: int, saves: nat)
    requires WellFormed(pending)
    ensures Advances(st, SaveAll(cfg, st, pending, now, saves).after)
  {
    CommitRecordsMeaning(st.log, pending);
    var log := CommitRecords(st.log, pending);
    if saves > 0 && log.Ok? {
      LogAdvances(st, log.value);
      AfterLogAdvances(cfg, st, st.(log := log.value), CheckpointFor(cfg, pending, now), saves);
    }
  }

  lemma LogAdvances(st: Stores, log: Log)
    requires forall s :: s in st.log ==> s in log && log[s] == st.log[s]
    ensures Advances(st, st.(log := log))
  {}

  lemma AfterLogAdvances(cfg: Config, st: Stores, st1: Stores, c: Checkpoint, saves: nat)
    requires Advances(st, st1)
    ensures SaveCheckpoint(st1.checkpoints, c).Ok? ==>
              var st2 := st1.(checkpoints := SaveCheckpoint(st1.checkpoints, c).value);
              Advances(st, SaveMarkers(cfg, st2, c, saves).after)
  {
    if SaveCheckpoint(st1.checkpoints, c).Ok? {
      var st2 := st1.(checkpoints := SaveCheckpoint(st1.checkpoints, c).value);
      assert Advances(st1, st2);
      SaveMarkersAdvances(cfg, st2, c, saves);
      AdvancesTransitive(st, st1, st2);
      AdvancesTransitive(st, st2, SaveMarkers(cfg, st2, c, saves).after);
    }
  }

  /** Whatever is delivered, published or not, and wherever the process stops. */
  lemma DeliveryNeverGoesBack(cfg: Config, st: Stores, records: seq<ConsumedRecord>, now: int, saves: nat)
    ensures Advances(st, Deliver(cfg, st, records, now, saves).after)
  {
    if Admit(cfg, st, records).Pending? {
      AdmittedRecords(cfg, st, records);
      SaveAllAdvances(cfg, st, Admit(cfg, st, records).records, now, saves);
    }
  }

  /** From any stores on, no schedule takes back a durable record or lowers checkpoint, sidecar or
      cursor. */
  lemma {:induction false} NothingGoesBack(cfg: Config, st: Stores, schedule: seq<Delivery>)
    ensures Advances(st, Play(cfg, st, schedule))
    decreases |schedule|
  {
    if schedule != [] {
      var d := schedule[0];
      var after := Do(cfg, st, d).after;
      DeliveryNeverGoesBack(cfg, st, d.records, d.now, d.saves);
      NothingGoesBack(cfg, after, schedule[1..]);
      AdvancesTransitive(st, after, Play(cfg, after, schedule[1..]));
    }
  }

  // ---- When a save is refused ----

  /** After admission and the log, the only refusal left is the cursor's, and it comes exactly when
      its partition is already as far as the batch. */
  lemma SaveFailsExactlyWhen(cfg: Config, truth: Upstream, st: Stores, records: seq<ConsumedRecord>, now: int,
                             saves: nat)
    requires ValidUpstream(truth) && Consistent(cfg, truth, st) && FromUpstream(truth, records)
    ensures Deliver(cfg, st, records, now, saves).outcome.SaveFailed? <==>
            saves >= 4 && BringsNews(cfg, st, records) && !CursorBehind(cfg, st, records[|records| - 1])
  {
    PendingExactlyWhen(cfg, truth, st, records);
    if Admit(cfg, st, records).Pending? && saves > 0 {
      var pending := Admit(cfg, st, records).records;
      AcceptedSuffix(cfg, truth, st, records);
      AdmittedRecords(cfg, st, records);
      SaveAllShape(cfg, truth, st, pending, now, saves);
      CursorDecides(cfg, st, CheckpointFor(cfg, pending, now));
    }
  }

  ghost predicate NeverFails(cfg: Config, st: Stores, schedule: seq<Delivery>)
    decreases |schedule|
  {
    schedule == [] ||
    var d := schedule[0];
    !Do(cfg, st, d).outcome.SaveFailed? && NeverFails(cfg, Do(cfg, st, d).after, schedule[1..])
  }

  /** Every undisturbed delivery with news finds the cursor of its partition behind it. */
  ghost predicate AlwaysBehind(cfg: Config, st: Stores, schedule: seq<Delivery>)
    decreases |schedule|
  {
    schedule == [] ||
    var d := schedule[0];
    && (d.saves >= 4 && BringsNews(cfg, st, d.records) ==> CursorBehind(cfg, st, d.records[|d.records| - 1]))
    && AlwaysBehind(cfg, Do(cfg, st, d).after, schedule[1..])
  }

  lemma {:induction false} NeverFailsExactlyWhen(cfg: Config, truth: Upstream, st: Stores, schedule: seq<Delivery>)
    requires ValidUpstream(truth) && Published(truth, schedule) && Consistent(cfg, truth, st)
    ensures NeverFails(cfg, st, schedule) <==> AlwaysBehind(cfg, st, schedule)
    decreases |schedule|
  {
    if schedule != [] {
      var d := schedule[0];
      SaveFailsExactlyWhen(cfg, truth, st, d.records, d.now, d.saves);
      DeliverKeepsConsistent(cfg, truth, st, d.records, d.now, d.saves);
      NeverFailsExactlyWhen(cfg, truth, Do(cfg, st, d).after, schedule[1..]);
    }
  }

  // ---- A layout of the upstream log that never fails ----

  /** Each broker partition carries one run, in WAL order. */
  ghost predicate OneRunPerPartition(truth: Upstream) {
    forall s, t :: s in truth && t in truth && KeyOfBroker(truth[s].broker) == KeyOfBroker(truth[t].broker) ==>
      && s.run == t.run
      && (s.offset < t.offset ==> truth[s].broker.offset < truth[t].broker.offset)
  }

  /** Each cursor stands at a published record of its partition. */
  ghost predicate CursorsTrue(cfg: Config, truth: Upstream, cursors: Cursors) {
    forall k :: k in cursors && k.consumer == cfg.consumer ==>
      var c := cursors[k];
      var s := Slot(c.run, c.walOffset);
      KeyOf(c) == k && s in truth && truth[s].broker == c.broker && truth[s].journal.eventId == c.eventId
  }

  lemma CursorsStayTrue(cfg: Config, truth: Upstream, st: Stores, d: Delivery)
    requires ValidUpstream(truth) && Consistent(cfg, truth, st) && FromUpstream(truth, d.records)
    requires CursorsTrue(cfg, truth, st.cursors)
    ensures CursorsTrue(cfg, truth, Do(cfg, st, d).after.cursors)
  {
    if Admit(cfg, st, d.records).Pending? && d.saves > 0 {
      var pending := Admit(cfg, st, d.records).records;
      AcceptedSuffix(cfg, truth, st, d.records);
      SaveAllShape(cfg, truth, st, pending, d.now, d.saves);
      NewCursorIsTrue(cfg, truth, st.cursors, pending, d.now);
    }
  }

  lemma NewCursorIsTrue(cfg: Config, truth: Upstream, cursors: Cursors, pending: seq<ConsumedRecord>, now: int)
    requires pending != [] && FromUpstream(truth, pending) && CursorsTrue(cfg, truth, cursors)
    ensures var c := CursorFor(CheckpointFor(cfg, pending, now));
            SaveCursor(cursors, c).Ok? ==> CursorsTrue(cfg, truth, SaveCursor(cursors, c).value)
  {
    assert pending[|pending| - 1] in pending;
  }

  /** On such a layout a record past the checkpoint is past the cursor of its partition. */
  lemma NewsIsPastTheCursor(cfg: Config, truth: Upstream, st: Stores, records: seq<ConsumedRecord>)
    requires ValidUpstream(truth) && OneRunPerPartition(truth)
    requires Consistent(cfg, truth, st) && CursorsTrue(cfg, truth, st.cursors)
    requires FromUpstream(truth, records) && BringsNews(cfg, st, records)
    ensures CursorBehind(cfg, st, records[|records| - 1])
  {
    var last := records[|records| - 1];
    var key := CursorKey(cfg.consumer, last.broker.topic, last.broker.partition);
    assert last in records;
    if key in st.cursors {
      var c := st.cursors[key];
      assert KeyOfBroker(truth[Slot(c.run, c.walOffset)].broker) == KeyOfBroker(truth[SlotOf(last)].broker);
    }
  }

  lemma {:induction false} CursorsKeepUpFrom(cfg: Config, truth: Upstream, st: Stores, schedule: seq<Delivery>)
    requires ValidUpstream(truth) && Published(truth, schedule)
    requires Consistent(cfg, truth, st) && CursorsTrue(cfg, truth, st.cursors)
    ensures CursorsTrue(cfg, truth, Play(cfg, st, schedule).cursors)
    ensures OneRunPerPartition(truth) ==> AlwaysBehind(cfg, st, schedule)
    decreases |schedule|
  {
    if schedule != [] {
      var d := schedule[0];
      DeliverKeepsConsistent(cfg, truth, st, d.records, d.now, d.saves);
      CursorsStayTrue(cfg, truth, st, d);
      CursorsKeepUpFrom(cfg, truth, Do(cfg, st, d).after, schedule[1..]);
      if OneRunPerPartition(truth) && BringsNews(cfg, st, d.records) {
        NewsIsPastTheCursor(cfg, truth, st, d.records);
      }
    }
  }

  /** From empty stores, under any schedule, cursors stand at published records. No delivery ever ends
      in a refused save exactly when every one finds its cursor behind, and an upstream log with one
      run per partition, in order, guarantees that. */
  lemma CursorsKeepUp(cfg: Config, truth: Upstream, schedule: seq<Delivery>)
    requires ValidUpstream(truth) && Published(truth, schedule)
    ensures CursorsTrue(cfg, truth, Play(cfg, EMPTY, schedule).cursors)
    ensures NeverFails(cfg, EMPTY, schedule) <==> AlwaysBehind(cfg, EMPTY, schedule)
    ensures OneRunPerPartition(truth) ==> NeverFails(cfg, EMPTY, schedule)
  {
    EmptyIsConsistent(cfg, truth);
    CursorsKeepUpFrom(cfg, truth, EMPTY, schedule);
    NeverFailsExactlyWhen(cfg, truth, EMPTY, schedule);
  }
}
