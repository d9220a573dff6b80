/** What the DB writer guarantees over every schedule of overlapping, repeated and interrupted
    deliveries. */
module DbWriterRuns {
  import opened Wrappers
  import opened DbWriter

  /** The upstream log: the one record published for each slot. */
  type Upstream = map<Slot, ConsumedRecord>

  ghost predicate ValidUpstream(truth: Upstream) {
    forall s :: s in truth ==> SlotOf(truth[s]) == s
  }

  /** Every record of the batch is the published record of its slot. */
  ghost predicate FromUpstream(truth: Upstream, records: seq<ConsumedRecord>) {
    forall r :: r in records ==> SlotOf(r) in truth && truth[SlotOf(r)] == r
  }

  // ---- What a batch covers ----

  /** The batch holds this slot. */
  ghost predicate Covers(records: seq<ConsumedRecord>, s: Slot) {
    exists r :: r in records && SlotOf(r) == s
  }

  lemma CoversInterval(records: seq<ConsumedRecord>, s: Slot)
    requires WellFormed(records)
    ensures Covers(records, s) <==>
            && s.run == records[0].journal.run
            && records[0].journal.walOffset <= s.offset < records[0].journal.walOffset + |records|
  {
    if s.run == records[0].journal.run
       && records[0].journal.walOffset <= s.offset < records[0].journal.walOffset + |records| {
      var i := s.offset - records[0].journal.walOffset;
      assert records[i] in records && SlotOf(records[i]) == s;
    }
  }

  /** The records past the checkpoint are a suffix of a well-formed batch. */
  lemma {:induction false} AfterIsSuffix(checkpoint: nat, records: seq<ConsumedRecord>)
    requires WellFormed(records)
    ensures var a := records[0].journal.walOffset;
            After(checkpoint, records) ==
            if checkpoint < a then records
            else if checkpoint + 1 - a < |records| then records[checkpoint + 1 - a..]
            else []
  {
    var n, a := |records| - 1, records[0].journal.walOffset;
    assert records == records[..n] + [records[n]];
    if n == 0 {
      assert After(checkpoint, records[..n]) == [];
    } else {
      AfterIsSuffix(checkpoint, records[..n]);
    }
  }

  lemma SuffixWellFormed(records: seq<ConsumedRecord>, k: nat)
    requires WellFormed(records) && k < |records|
    ensures WellFormed(records[k..])
    ensures records[k..][0] == records[k]
  {
    forall i | 0 <= i < |records| - k
      ensures records[k..][i] == records[k + i]
    {}
  }

  // ---- Merging into the durable log ----

  /** The log after taking in one batch: the free slots are filled, the taken ones kept. */
  ghost predicate Extends(log: Log, records: seq<ConsumedRecord>, merged: Log) {
    && (forall s :: s in merged <==> s in log || Covers(records, s))
    && (forall s :: s in log ==> merged[s] == log[s])
    && (forall i :: 0 <= i < |records| && SlotOf(records[i]) !in log ==>
          SlotOf(records[i]) in merged && merged[SlotOf(records[i])] == records[i])
  }

  ghost predicate AllAgree(log: Log, records: seq<ConsumedRecord>) {
    forall i :: 0 <= i < |records| ==> Agrees(log, records[i])
  }

  ghost predicate Distinct(records: seq<ConsumedRecord>) {
    forall i, j :: 0 <= i < j < |records| ==> SlotOf(records[i]) != SlotOf(records[j])
  }

  lemma ExtendsByOne(log: Log, records: seq<ConsumedRecord>, merged: Log)
    requires records != [] && Distinct(records) && Extends(log, records[..|records| - 1], merged)
    requires Agrees(log, records[|records| - 1])
    ensures var last := records[|records| - 1];
            && (SlotOf(last) in merged <==> SlotOf(last) in log)
            && Extends(log, records, if SlotOf(last) in merged then merged else merged[SlotOf(last) := last])
  {
    var n := |records| - 1;
    var head, last := records[..n], records[n];
    assert last in records;
    assert forall r :: r in records <==> r in head || r == last;
    assert !Covers(head, SlotOf(last));
    forall s ensures Covers(records, s) <==> Covers(head, s) || s == SlotOf(last) {}
    assert forall i :: 0 <= i < n ==> head[i] == records[i];
  }

  /** A merge succeeds exactly when every record agrees with the log; then it adds the batch's
      free slots and changes nothing it already held. */
  lemma {:induction false} AbsorbMeaning(log: Log, records: seq<ConsumedRecord>)
    requires Distinct(records)
    ensures Absorb(log, records).Ok? <==> AllAgree(log, records)
    ensures Absorb(log, records).Ok? ==> Extends(log, records, Absorb(log, records).value)
  {
    if records != [] {
      var n := |records| - 1;
      var head, last := records[..n], records[n];
      assert forall i :: 0 <= i < n ==> head[i] == records[i];
      AbsorbMeaning(log, head);
      assert AllAgree(log, records) <==> AllAgree(log, head) && Agrees(log, last);
      if Absorb(log, head).Ok? {
        MergedSlot(log, records, Absorb(log, head).value);
        if Agrees(log, last) {
          ExtendsByOne(log, records, Absorb(log, head).value);
        }
      }
    }
  }

  /** The last record's slot is not touched by the records before it. */
  lemma MergedSlot(log: Log, records: seq<ConsumedRecord>, merged: Log)
    requires records != [] && Distinct(records) && Extends(log, records[..|records| - 1], merged)
    ensures var s := SlotOf(records[|records| - 1]);
            (s in merged <==> s in log) && (s in log ==> merged[s] == log[s])
  {
    assert !Covers(records[..|records| - 1], SlotOf(records[|records| - 1]));
  }

  lemma DistinctSlots(records: seq<ConsumedRecord>)
    requires WellFormed(records)
    ensures Distinct(records)
  {
    forall i, j | 0 <= i < j < |records| ensures SlotOf(records[i]) != SlotOf(records[j]) {
      assert SlotOf(records[i]).offset == records[0].journal.walOffset + i;
    }
  }

  lemma CommitRecordsMeaning(log: Log, records: seq<ConsumedRecord>)
    requires WellFormed(records)
    ensures CommitRecords(log, records).Ok? <==> forall r :: r in records ==> Agrees(log, r)
    ensures CommitRecords(log, records).Ok? ==>
              var merged := CommitRecords(log, records).value;
              && (forall s :: s in merged <==> s in log || Covers(records, s))
              && (forall s :: s in log ==> merged[s] == log[s])
              && (forall r :: r in records && SlotOf(r) !in log ==> SlotOf(r) in merged && merged[SlotOf(r)] == r)
  {
    BatchErrorMeaning(records);
    DistinctSlots(records);
    AbsorbMeaning(log, records);
    assert AllAgree(log, records) <==> forall r :: r in records ==> Agrees(log, r) by {
      assert forall i :: 0 <= i < |records| ==> records[i] in records;
    }
  }

  // ---- The invariant ----

  ghost predicate CheckpointHolds(cfg: Config, truth: Upstream, log: Log, run: string, c: Checkpoint) {
    var s := Slot(run, c.walOffset);
    && s in log && s in truth
    && c.consumer == cfg.consumer && c.run == run
    && c.eventId == truth[s].journal.eventId
    && c.broker == truth[s].broker
    && c.transaction == TransactionId(cfg.consumer, run, c.walOffset)
  }

  ghost predicate LogHolds(truth: Upstream, log: Log) {
    forall s :: s in log ==> s in truth && log[s] == truth[s]
  }

  ghost predicate CheckpointsHold(cfg: Config, truth: Upstream, log: Log, m: Checkpoints) {
    forall run :: Owner(cfg.consumer, run) in m ==>
      CheckpointHolds(cfg, truth, log, run, m[Owner(cfg.consumer, run)])
  }

  ghost predicate SidecarsHold(cfg: Config, m: Checkpoints, sidecars: Sidecars) {
    forall run :: Owner(cfg.consumer, run) in sidecars ==>
      && Owner(cfg.consumer, run) in m
      && sidecars[Owner(cfg.consumer, run)].walOffset <= m[Owner(cfg.consumer, run)].walOffset
      && sidecars[Owner(cfg.consumer, run)].requiredForGc == cfg.requiredForGc
  }

  ghost predicate CursorsHold(cfg: Config, m: Checkpoints, cursors: Cursors) {
    forall k :: k in cursors && k.consumer == cfg.consumer ==>
      && Owner(cfg.consumer, cursors[k].run) in m
      && cursors[k].walOffset <= m[Owner(cfg.consumer, cursors[k].run)].walOffset
  }

  /** The markers in order: sidecar and cursor never pass the checkpoint, and the checkpoint never
      passes the log. The log holds published records only. */
  ghost predicate Consistent(cfg: Config, truth: Upstream, st: Stores) {
    && LogHolds(truth, st.log)
    && CheckpointsHold(cfg, truth, st.log, st.checkpoints)
    && SidecarsHold(cfg, st.checkpoints, st.sidecars)
    && CursorsHold(cfg, st.checkpoints, st.cursors)
  }

  /** The run's durable offsets have no hole. */
  ghost predicate GapFree(log: Log, run: string) {
    forall low: nat, mid: nat, high: nat ::
      low <= mid <= high && Slot(run, low) in log && Slot(run, high) in log ==> Slot(run, mid) in log
  }

  lemma EmptyIsConsistent(cfg: Config, truth: Upstream)
    ensures var st := Stores(map[], map[], map[], map[]);
            Consistent(cfg, truth, st) && forall run :: GapFree(st.log, run)
  {}

  // ---- Admission ----

  lemma {:induction false} DuplicateErrorMeaning(log: Log, c: nat, records: seq<ConsumedRecord>, i: nat)
    requires i <= |records|
    ensures DuplicateError(log, c, records, i).None? <==>
            forall j :: i <= j < |records| && records[j].journal.walOffset <= c ==>
              SlotOf(records[j]) in log && Agrees(log, records[j])
    decreases |records| - i
  {
    if i < |records| {
      DuplicateErrorMeaning(log, c, records, i + 1);
    }
  }

  /** What is left to write after admission. */
  lemma AdmittedRecords(cfg: Config, st: Stores, records: seq<ConsumedRecord>)
    requires Admit(cfg, st, records).Pending?
    ensures WellFormed(records)
    ensures var pending := Admit(cfg, st, records).records;
            var owner := Owner(cfg.consumer, records[0].journal.run);
            && WellFormed(pending)
            && pending[0].journal.run == records[0].journal.run
            && pending[|pending| - 1] == records[|records| - 1]
            && (forall r :: r in pending ==> r in records)
            && (owner !in st.checkpoints ==> pending == records)
            && (owner in st.checkpoints ==>
                  && pending[0].journal.walOffset == st.checkpoints[owner].walOffset + 1
                  && records[0].journal.walOffset <= st.checkpoints[owner].walOffset + 1)
  {
    BatchErrorMeaning(records);
    var owner := Owner(cfg.consumer, records[0].journal.run);
    if owner in st.checkpoints {
      var c, a := st.checkpoints[owner].walOffset, records[0].journal.walOffset;
      AfterIsSuffix(c, records);
      if c >= a {
        SuffixWellFormed(records, c + 1 - a);
      }
    }
  }

  // ---- One delivery keeps the invariant, wherever it stops ----

  /** The checkpoint map after the second save: the new checkpoint always advances. */
  lemma CheckpointAdvances(cfg: Config, truth: Upstream, st: Stores, log: Log, c: Checkpoint)
    requires Consistent(cfg, truth, st) && CheckpointHolds(cfg, truth, log, c.run, c)
    requires forall s :: s in st.log ==> s in log
    requires var key := Owner(cfg.consumer, c.run);
             key in st.checkpoints ==> st.checkpoints[key].walOffset < c.walOffset
    ensures var key := Owner(cfg.consumer, c.run);
            var m := st.checkpoints[key := c];
            && SaveCheckpoint(st.checkpoints, c) == Ok(m)
            && CheckpointsHold(cfg, truth, log, m)
            && SidecarsHold(cfg, m, st.sidecars) && CursorsHold(cfg, m, st.cursors)
  {}

  lemma SidecarFollows(cfg: Config, m: Checkpoints, sidecars: Sidecars, c: Checkpoint)
    requires SidecarsHold(cfg, m, sidecars) && c.consumer == cfg.consumer
    requires Owner(c.consumer, c.run) in m && m[Owner(c.consumer, c.run)] == c
    ensures UpsertSidecar(sidecars, SidecarFor(cfg, c)) ==
            Ok(sidecars[Owner(c.consumer, c.run) := SidecarFor(cfg, c)])
    ensures SidecarsHold(cfg, m, sidecars[Owner(c.consumer, c.run) := SidecarFor(cfg, c)])
  {}

  lemma CursorFollows(cfg: Config, m: Checkpoints, cursors: Cursors, c: Checkpoint)
    requires CursorsHold(cfg, m, cursors) && c.consumer == cfg.consumer
    requires Owner(c.consumer, c.run) in m && m[Owner(c.consumer, c.run)] == c
    ensures SaveCursor(cursors, CursorFor(c)).Ok? ==> CursorsHold(cfg, m, SaveCursor(cursors, CursorFor(c)).value)
  {}

  lemma LogGrows(cfg: Config, truth: Upstream, st: Stores, pending: seq<ConsumedRecord>, now: int)
    requires ValidUpstream(truth) && Consistent(cfg, truth, st)
    requires WellFormed(pending) && FromUpstream(truth, pending)
    requires CommitRecords(st.log, pending).Ok?
    ensures var log, c := CommitRecords(st.log, pending).value, CheckpointFor(cfg, pending, now);
            && LogHolds(truth, log) && CheckpointsHold(cfg, truth, log, st.checkpoints)
            && (forall s :: s in st.log ==> s in log)
            && CheckpointHolds(cfg, truth, log, c.run, c)
            && c.run == pending[0].journal.run && c.walOffset >= pending[0].journal.walOffset
  {
    CommitRecordsMeaning(st.log, pending);
    var log := CommitRecords(st.log, pending).value;
    var last := pending[|pending| - 1];
    assert last in pending && Covers(pending, SlotOf(last));
    forall s | s in log ensures s in truth && log[s] == truth[s] {
      if s !in st.log {
        var r :| r in pending && SlotOf(r) == s;
      }
    }
  }

  /** The stores and the outcome after the saves, when log, checkpoint and sidecar accept. */
  ghost predicate Saved(cfg: Config, st: Stores, log: Log, c: Checkpoint, saves: nat, step: Step) {
    var key, cursors := Owner(c.consumer, c.run), SaveCursor(st.cursors, CursorFor(c));
    && step.after.log == log
    && step.after.checkpoints == (if saves >= 2 then st.checkpoints[key := c] else st.checkpoints)
    && step.after.sidecars ==
       (if saves >= 3 && cfg.hasSidecar then st.sidecars[key := SidecarFor(cfg, c)] else st.sidecars)
    && step.after.cursors == (if saves >= 4 && cfg.hasCursor && cursors.Ok? then cursors.value else st.cursors)
    && step.outcome == (if saves < 4 then Stopped(saves)
                        else if cfg.hasCursor && cursors.Err? then SaveFailed(cursors.error)
                        else Committed(c))
  }

  lemma SaveAllUnfolds(cfg: Config, st: Stores, pending: seq<ConsumedRecord>, now: int, saves: nat)
    requires pending != [] && saves > 0 && CommitRecords(st.log, pending).Ok?
    requires var c := CheckpointFor(cfg, pending, now);
             var key := Owner(c.consumer, c.run);
             && SaveCheckpoint(st.checkpoints, c) == Ok(st.checkpoints[key := c])
             && UpsertSidecar(st.sidecars, SidecarFor(cfg, c)) == Ok(st.sidecars[key := SidecarFor(cfg, c)])
    ensures Saved(cfg, st, CommitRecords(st.log, pending).value, CheckpointFor(cfg, pending, now), saves,
                  SaveAll(cfg, st, pending, now, saves))
  {}

  /** Once the log accepts the records, the checkpoint and the sidecar accept too: only the cursor
      can still refuse. */
  lemma SaveAllShape(cfg: Config, truth: Upstream, st: Stores, pending: seq<ConsumedRecord>, now: int, saves: nat)
    requires ValidUpstream(truth) && Consistent(cfg, truth, st)
    requires WellFormed(pending) && FromUpstream(truth, pending)
    requires var owner := Owner(cfg.consumer, pending[0].journal.run);
             owner in st.checkpoints ==> st.checkpoints[owner].walOffset < pending[0].journal.walOffset
    requires CommitRecords(st.log, pending).Ok? && saves > 0
    ensures Saved(cfg, st, CommitRecords(st.log, pending).value, CheckpointFor(cfg, pending, now), saves,
                  SaveAll(cfg, st, pending, now, saves))
  {
    LogGrows(cfg, truth, st, pending, now);
    var log, c := CommitRecords(st.log, pending).value, CheckpointFor(cfg, pending, now);
    CheckpointAdvances(cfg, truth, st, log, c);
    SidecarFollows(cfg, st.checkpoints[Owner(cfg.consumer, c.run) := c], st.sidecars, c);
    SaveAllUnfolds(cfg, st, pending, now, saves);
  }

  lemma SaveAllKeepsConsistent(cfg: Config, truth: Upstream, st: Stores, pending: seq<ConsumedRecord>, now: int,
                               saves: nat)
    requires ValidUpstream(truth) && Consistent(cfg, truth, st)
    requires WellFormed(pending) && FromUpstream(truth, pending)
    requires var owner := Owner(cfg.consumer, pending[0].journal.run);
             owner in st.checkpoints ==> st.checkpoints[owner].walOffset < pending[0].journal.walOffset
    ensures Consistent(cfg, truth, SaveAll(cfg, st, pending, now, saves).after)
  {
    if saves > 0 && CommitRecords(st.log, pending).Ok? {
      SaveAllShape(cfg, truth, st, pending, now, saves);
      LogGrows(cfg, truth, st, pending, now);
      var log, c := CommitRecords(st.log, pending).value, CheckpointFor(cfg, pending, now);
      CheckpointAdvances(cfg, truth, st, log, c);
      var m := st.checkpoints[Owner(cfg.consumer, c.run) := c];
      SidecarFollows(cfg, m, st.sidecars, c);
      CursorFollows(cfg, m, st.cursors, c);
    }
  }

  /** Every delivery, stopped anywhere, keeps the markers ordered and the log published-only. */
  lemma DeliverKeepsConsistent(cfg: Config, truth: Upstream, st: Stores, records: seq<ConsumedRecord>, now: int,
                               saves: nat)
    requires ValidUpstream(truth) && Consistent(cfg, truth, st) && FromUpstream(truth, records)
    ensures Consistent(cfg, truth, Deliver(cfg, st, records, now, saves).after)
  {
    if Admit(cfg, st, records).Pending? {
      AdmittedRecords(cfg, st, records);
      SaveAllKeepsConsistent(cfg, truth, st, Admit(cfg, st, records).records, now, saves);
    }
  }

  // ---- Which batches are accepted ----

  predicate Accepted(outcome: Outcome) {
    !outcome.Rejected?
  }

  /** Admission against a checkpoint: no hole before the batch, and every repeated record is in the
      log as delivered. What passes is the part after the checkpoint. */
  lemma AdmissionMeaning(cfg: Config, st: Stores, records: seq<ConsumedRecord>)
    requires WellFormed(records) && Owner(cfg.consumer, records[0].journal.run) in st.checkpoints
    ensures var c := st.checkpoints[Owner(cfg.consumer, records[0].journal.run)];
            var a := records[0].journal.walOffset;
            && (Admit(cfg, st, records).Refuse? <==> a > c.walOffset + 1 || !RepeatsMatch(st.log, c.walOffset, records))
            && (Admit(cfg, st, records).Repeat? ==>
                  && Admit(cfg, st, records).checkpoint == c
                  && records[|records| - 1].journal.walOffset <= c.walOffset)
            && (Admit(cfg, st, records).Pending? ==>
                  && 0 <= c.walOffset + 1 - a < |records|
                  && Admit(cfg, st, records).records == records[c.walOffset + 1 - a..])
  {
    BatchErrorMeaning(records);
    var c, a := st.checkpoints[Owner(cfg.consumer, records[0].journal.run)].walOffset, records[0].journal.walOffset;
    RepeatsMatchMeaning(st.log, c, records);
    AfterInOrder(c, records);
    AdmissionFromParts(cfg, st, records, RepeatsMatch(st.log, c, records));
  }

  /** Admission, from the answers of its two checks. */
  lemma AdmissionFromParts(cfg: Config, st: Stores, records: seq<ConsumedRecord>, matches: bool)
    requires records != [] && BatchError(records).None? && Owner(cfg.consumer, records[0].journal.run) in st.checkpoints
    requires var c := st.checkpoints[Owner(cfg.consumer, records[0].journal.run)].walOffset;
             var a, past := records[0].journal.walOffset, After(c, records);
             && (DuplicateError(st.log, c, records).None? <==> matches)
             && (a > c + 1 ==> past == records)
             && (a <= c + 1 && past != [] ==>
                   c + 1 - a < |records| && past == records[c + 1 - a..] && past[0].journal.walOffset == c + 1)
             && (a <= c + 1 && past == [] ==> records[|records| - 1].journal.walOffset <= c)
    ensures var c := st.checkpoints[Owner(cfg.consumer, records[0].journal.run)];
            var a := records[0].journal.walOffset;
            && (Admit(cfg, st, records).Refuse? <==> a > c.walOffset + 1 || !matches)
            && (Admit(cfg, st, records).Repeat? ==>
                  && Admit(cfg, st, records).checkpoint == c
                  && records[|records| - 1].journal.walOffset <= c.walOffset)
            && (Admit(cfg, st, records).Pending? ==>
                  && 0 <= c.walOffset + 1 - a < |records|
                  && Admit(cfg, st, records).records == records[c.walOffset + 1 - a..])
  {
    AdmitUnfolds(cfg, st, records);
  }

  lemma AfterInOrder(c: nat, records: seq<ConsumedRecord>)
    requires WellFormed(records)
    ensures var a, past := records[0].journal.walOffset, After(c, records);
            && (a > c + 1 ==> past == records)
            && (a <= c + 1 && past != [] ==>
                  && c + 1 - a < |records|
                  && past == records[c + 1 - a..]
                  && past[0].journal.walOffset == c + 1)
            && (a <= c + 1 && past == [] ==> records[|records| - 1].journal.walOffset <= c)
  {
    AfterIsSuffix(c, records);
    assert records[0..] == records;
    assert records[|records| - 1].journal.walOffset == records[0].journal.walOffset + |records| - 1;
  }

  lemma AdmitUnfolds(cfg: Config, st: Stores, records: seq<ConsumedRecord>)
    requires records != [] && BatchError(records).None? && Owner(cfg.consumer, records[0].journal.run) in st.checkpoints
    ensures var c := st.checkpoints[Owner(cfg.consumer, records[0].journal.run)];
            var past := After(c.walOffset, records);
            if DuplicateError(st.log, c.walOffset, records).Some? then Admit(cfg, st, records).Refuse?
            else if past == [] then Admit(cfg, st, records) == Repeat(c)
            else if past[0].journal.walOffset != c.walOffset + 1 then Admit(cfg, st, records).Refuse?
            else Admit(cfg, st, records) == Pending(past)
  {}

  ghost predicate RepeatsMatch(log: Log, c: nat, records: seq<ConsumedRecord>) {
    forall r :: r in records && r.journal.walOffset <= c ==> SlotOf(r) in log && Agrees(log, r)
  }

  lemma RepeatsMatchMeaning(log: Log, c: nat, records: seq<ConsumedRecord>)
    ensures DuplicateError(log, c, records).None? <==> RepeatsMatch(log, c, records)
  {
    DuplicateErrorMeaning(log, c, records, 0);
    if RepeatsMatch(log, c, records) {
      assert forall j :: 0 <= j < |records| ==> records[j] in records;
    }
  }

  /** The first two saves of records past the checkpoint. */
  lemma SaveAllOutcome(cfg: Config, st: Stores, pending: seq<ConsumedRecord>, now: int, saves: nat)
    requires pending != [] && saves >= 1
    requires var c := CheckpointFor(cfg, pending, now);
             var key := Owner(c.consumer, c.run);
             key in st.checkpoints ==> st.checkpoints[key].walOffset < c.walOffset
    ensures var step, c := SaveAll(cfg, st, pending, now, saves), CheckpointFor(cfg, pending, now);
            && (step.outcome.Rejected? <==> CommitRecords(st.log, pending).Err?)
            && (step.outcome.Rejected? ==> step.after == st)
            && (saves >= 2 && !step.outcome.Rejected? ==>
                  step.after.checkpoints == st.checkpoints[Owner(c.consumer, c.run) := c])
  {}

  /** A refused batch changes no store: for any stores and any records, at whatever save the process
      was due to stop. */
  lemma RefusalChangesNothing(cfg: Config, st: Stores, records: seq<ConsumedRecord>, now: int, saves: nat)
    ensures Deliver(cfg, st, records, now, saves).outcome.Rejected? ==>
              Deliver(cfg, st, records, now, saves).after == st
  {
    var admitted := Admit(cfg, st, records);
    if admitted.Pending? && admitted.records != [] {
      RefusedSaveChangesNothing(cfg, st, admitted.records, now, saves);
    }
  }

  lemma RefusedSaveChangesNothing(cfg: Config, st: Stores, pending: seq<ConsumedRecord>, now: int, saves: nat)
    requires pending != []
    ensures SaveAll(cfg, st, pending, now, saves).outcome.Rejected? ==>
              SaveAll(cfg, st, pending, now, saves).after == st
  {}

  /** The log lacks this offset between two offsets it holds. */
  ghost predicate GapAt(log: Log, run: string, o: nat) {
    && Slot(run, o) !in log
    && (exists low: nat :: low < o && Slot(run, low) in log)
    && (exists high: nat :: o < high && Slot(run, high) in log)
  }

  /** With a checkpoint at c, a batch over [a, b] is accepted exactly when it starts no later than
      c + 1, starts inside the log or right after c, repeats no offset that lies in a gap of the log,
      and every record whose slot is taken agrees with the log. The checkpoint becomes max(b, c) if
      its save is reached; a refused batch changes no store. */
  lemma AcceptanceIsIntervalArithmetic(cfg: Config, truth: Upstream, st: Stores, records: seq<ConsumedRecord>,
                                       now: int, saves: nat)
    requires Consistent(cfg, truth, st) && WellFormed(records) && saves >= 1
    requires Owner(cfg.consumer, records[0].journal.run) in st.checkpoints
    ensures var owner := Owner(cfg.consumer, records[0].journal.run);
            var c := st.checkpoints[owner].walOffset;
            var a, b := records[0].journal.walOffset, records[|records| - 1].journal.walOffset;
            var step := Deliver(cfg, st, records, now, saves);
            && (Accepted(step.outcome) <==>
                  && a <= c + 1
                  && (a <= c ==> SlotOf(records[0]) in st.log)
                  && (forall r :: r in records && r.journal.walOffset <= c ==>
                        !GapAt(st.log, records[0].journal.run, r.journal.walOffset))
                  && forall r :: r in records ==> Agrees(st.log, r))
            && (Accepted(step.outcome) && saves >= 2 ==>
                  owner in step.after.checkpoints && step.after.checkpoints[owner].walOffset == if b > c then b else c)
            && (!Accepted(step.outcome) ==> step.after == st)
  {
    var c := st.checkpoints[Owner(cfg.consumer, records[0].journal.run)].walOffset;
    AcceptanceInParts(cfg, st, records, now, saves);
    RepeatsAreCommitted(cfg, truth, st, records);
    assert (forall r :: r in records ==> Agrees(st.log, r)) <==>
           (forall r :: r in records && r.journal.walOffset <= c ==> Agrees(st.log, r)) &&
           NewsAgrees(st.log, c, records);
  }

  /** On a gap-free log no offset lies in a gap, so the first repeated record answers for all. */
  lemma GapFreeHasNoGapAt(log: Log, run: string, o: nat)
    requires GapFree(log, run)
    ensures !GapAt(log, run, o)
  {}

  /** Every record past the checkpoint agrees with the log. */
  ghost predicate NewsAgrees(log: Log, c: nat, records: seq<ConsumedRecord>) {
    forall r :: r in records && r.journal.walOffset > c ==> Agrees(log, r)
  }

  lemma AcceptanceInParts(cfg: Config, st: Stores, records: seq<ConsumedRecord>, now: int, saves: nat)
    requires WellFormed(records) && saves >= 1 && Owner(cfg.consumer, records[0].journal.run) in st.checkpoints
    ensures var owner := Owner(cfg.consumer, records[0].journal.run);
            var c, b := st.checkpoints[owner].walOffset, records[|records| - 1].journal.walOffset;
            var step := Deliver(cfg, st, records, now, saves);
            && (Accepted(step.outcome) <==>
                  && records[0].journal.walOffset <= c + 1
                  && RepeatsMatch(st.log, c, records)
                  && NewsAgrees(st.log, c, records))
            && (Accepted(step.outcome) && saves >= 2 ==>
                  owner in step.after.checkpoints && step.after.checkpoints[owner].walOffset == if b > c then b else c)
            && (!Accepted(step.outcome) ==> step.after == st)
  {
    var c, a := st.checkpoints[Owner(cfg.consumer, records[0].journal.run)].walOffset, records[0].journal.walOffset;
    AdmissionMeaning(cfg, st, records);
    if Admit(cfg, st, records).Pending? {
      PendingOutcome(cfg, st, records, records[c + 1 - a..], now, saves);
      NewsIsTheSuffix(st.log, c, records);
    } else if Admit(cfg, st, records).Repeat? {
      NothingPast(c, records);
    }
  }

  lemma PendingOutcome(cfg: Config, st: Stores, records: seq<ConsumedRecord>, pending: seq<ConsumedRecord>, now: int,
                       saves: nat)
    requires WellFormed(records) && saves >= 1 && Admit(cfg, st, records) == Pending(pending)
    requires Owner(cfg.consumer, records[0].journal.run) in st.checkpoints
    ensures var step := Deliver(cfg, st, records, now, saves);
            var owner, b := Owner(cfg.consumer, records[0].journal.run), records[|records| - 1].journal.walOffset;
            && b > st.checkpoints[owner].walOffset
            && (Accepted(step.outcome) <==> forall r :: r in pending ==> Agrees(st.log, r))
            && (Accepted(step.outcome) && saves >= 2 ==>
                  owner in step.after.checkpoints && step.after.checkpoints[owner].walOffset == b)
            && (!Accepted(step.outcome) ==> step.after == st)
  {
    AdmittedRecords(cfg, st, records);
    CommitRecordsMeaning(st.log, pending);
    SaveAllOutcome(cfg, st, pending, now, saves);
  }

  lemma NewsIsTheSuffix(log: Log, c: nat, records: seq<ConsumedRecord>)
    requires WellFormed(records) && records[0].journal.walOffset <= c + 1
    requires c + 1 - records[0].journal.walOffset < |records|
    ensures NewsAgrees(log, c, records) <==>
            forall r :: r in records[c + 1 - records[0].journal.walOffset..] ==> Agrees(log, r)
  {
    var k := c + 1 - records[0].journal.walOffset;
    forall r ensures r in records[k..] <==> r in records && r.journal.walOffset > c {
      if r in records && r.journal.walOffset > c {
        var i :| 0 <= i < |records| && records[i] == r;
        assert records[k..][i - k] == r;
      }
    }
  }

  lemma NothingPast(c: nat, records: seq<ConsumedRecord>)
    requires WellFormed(records) && records[|records| - 1].journal.walOffset <= c
    ensures forall r :: r in records ==> r.journal.walOffset <= c
  {
    forall r | r in records ensures r.journal.walOffset <= c {
      var i :| 0 <= i < |records| && records[i] == r;
    }
  }

  lemma SplitMembership(records: seq<ConsumedRecord>, k: nat)
    requires k <= |records|
    ensures forall r :: r in records <==> r in records[..k] || r in records[k..]
    ensures forall r :: r in records[..k] <==> exists i :: 0 <= i < k && records[i] == r
  {
    assert records == records[..k] + records[k..];
  }

  /** The repeated records are committed exactly when the first one is and none lies in a gap: the
      checkpoint's own record closes the interval. */
  lemma RepeatsAreCommitted(cfg: Config, truth: Upstream, st: Stores, records: seq<ConsumedRecord>)
    requires Consistent(cfg, truth, st) && WellFormed(records)
    requires Owner(cfg.consumer, records[0].journal.run) in st.checkpoints
    ensures var run, a := records[0].journal.run, records[0].journal.walOffset;
            var c := st.checkpoints[Owner(cfg.consumer, run)].walOffset;
            (forall r :: r in records && r.journal.walOffset <= c ==> SlotOf(r) in st.log) <==>
            && (a <= c ==> SlotOf(records[0]) in st.log)
            && (forall r :: r in records && r.journal.walOffset <= c ==> !GapAt(st.log, run, r.journal.walOffset))
  {
    var run, a := records[0].journal.run, records[0].journal.walOffset;
    var c := st.checkpoints[Owner(cfg.consumer, run)].walOffset;
    assert Slot(run, c) in st.log;
    forall r | r in records
      ensures SlotOf(r) == Slot(run, r.journal.walOffset) && a <= r.journal.walOffset
      ensures r.journal.walOffset == a ==> r == records[0]
    {
      var i :| 0 <= i < |records| && records[i] == r;
    }
    if a <= c && SlotOf(records[0]) in st.log {
      forall r | r in records && r.journal.walOffset <= c && !GapAt(st.log, run, r.journal.walOffset)
        ensures SlotOf(r) in st.log
      {
        assert SlotOf(records[0]) == Slot(run, a);
      }
    }
  }

  // ---- Which batches bring something new ----

  ghost predicate AllDurable(log: Log, c: nat, records: seq<ConsumedRecord>) {
    forall r :: r in records && r.journal.walOffset <= c ==> SlotOf(r) in log
  }

  /** What a caller can check before delivering published records: the batch leaves no hole behind
      the checkpoint and goes past it, and what it repeats is in the log. */
  ghost predicate BringsNews(cfg: Config, st: Stores, records: seq<ConsumedRecord>) {
    && WellFormed(records)
    && var owner := Owner(cfg.consumer, records[0].journal.run);
       owner in st.checkpoints ==>
         var c := st.checkpoints[owner].walOffset;
         && records[0].journal.walOffset <= c + 1 <= records[|records| - 1].journal.walOffset
         && AllDurable(st.log, c, records)
  }

  lemma PublishedRepeatsMatch(truth: Upstream, log: Log, c: nat, records: seq<ConsumedRecord>)
    requires LogHolds(truth, log) && FromUpstream(truth, records)
    ensures RepeatsMatch(log, c, records) <==> AllDurable(log, c, records)
  {}

  /** Published records get past admission exactly when they bring something new. */
  lemma PendingExactlyWhen(cfg: Config, truth: Upstream, st: Stores, records: seq<ConsumedRecord>)
    requires LogHolds(truth, st.log) && FromUpstream(truth, records)
    ensures Admit(cfg, st, records).Pending? <==> BringsNews(cfg, st, records)
  {
    BatchErrorMeaning(records);
    if WellFormed(records) && Owner(cfg.consumer, records[0].journal.run) in st.checkpoints {
      var c := st.checkpoints[Owner(cfg.consumer, records[0].journal.run)].walOffset;
      AdmissionMeaning(cfg, st, records);
      PublishedRepeatsMatch(truth, st.log, c, records);
    }
  }
}
