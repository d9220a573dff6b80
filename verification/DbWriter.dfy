/** The local DB writer: it takes broker batches that may overlap or repeat, and writes four
    stores one after the other. The process may stop between any two of those writes. */
module DbWriter {
  import opened Wrappers

  // ---- Records and markers ----

  datatype BrokerOffset = BrokerOffset(topic: string, partition: nat, offset: nat)

  /** body stands for the rest of the journal record, which no check of the writer looks at. */
  datatype JournalRecord = JournalRecord(run: string, walOffset: nat, eventId: string, body: string)

  datatype ConsumedRecord = ConsumedRecord(journal: JournalRecord, broker: BrokerOffset)

  /** The key of a durable record. */
  datatype Slot = Slot(run: string, offset: nat)

  datatype TransactionId = TransactionId(consumer: string, run: string, last: nat)

  datatype BatchId = BatchId(consumer: string, run: string, first: nat, last: nat)

  datatype Checkpoint = Checkpoint(consumer: string, run: string, walOffset: nat, eventId: string,
                                   broker: BrokerOffset, transaction: TransactionId,
                                   batch: BatchId, updatedAt: int)

  datatype Sidecar = Sidecar(consumer: string, run: string, walOffset: nat, updatedAt: int,
                             requiredForGc: bool)

  datatype Cursor = Cursor(consumer: string, broker: BrokerOffset, run: string, walOffset: nat,
                           eventId: string, updatedAt: int)

  datatype Owner = Owner(consumer: string, run: string)

  datatype CursorKey = CursorKey(consumer: string, topic: string, partition: nat)

  type Log = map<Slot, ConsumedRecord>
  type Checkpoints = map<Owner, Checkpoint>
  type Sidecars = map<Owner, Sidecar>
  type Cursors = map<CursorKey, Cursor>

  datatype Config = Config(consumer: string, hasSidecar: bool, requiredForGc: bool, hasCursor: bool)

  datatype Stores = Stores(log: Log, checkpoints: Checkpoints, sidecars: Sidecars, cursors: Cursors)

  datatype Rejection =
    | EmptyBatch
    | MixedRuns
    | MixedTopics
    | MixedPartitions
    | UnsortedWal
    | WalGap
    | UnsortedBroker
    | BrokerGap
    | NotCommitted(offset: nat)
    | EventConflict(offset: nat)
    | BrokerConflict(offset: nat)
    | BatchGap(expected: nat, found: nat)
    | OffsetRegression
    | MarkerConflict

  datatype Outcome =
    | Rejected(error: Rejection)
    | NothingNew(checkpoint: Checkpoint)
    | Stopped(completed: nat)           // the process died after this many of the four saves
    | SaveFailed(error: Rejection)      // a marker store refused; the saves before it stand
    | Committed(checkpoint: Checkpoint)

  function SlotOf(r: ConsumedRecord): Slot {
    Slot(r.journal.run, r.journal.walOffset)
  }

  function WalOffsets(records: seq<ConsumedRecord>): seq<nat> {
    seq(|records|, i requires 0 <= i < |records| => records[i].journal.walOffset)
  }

  function BrokerOffsets(records: seq<ConsumedRecord>): seq<nat> {
    seq(|records|, i requires 0 <= i < |records| => records[i].broker.offset)
  }

  // ---- Batch validation ----

  /** A sequence equals its own sorted copy exactly when it does not decrease. */
  predicate Sorted(values: seq<nat>) {
    forall i, j :: 0 <= i < j < |values| ==> values[i] <= values[j]
  }

  predicate Contiguous(values: seq<nat>) {
    forall i :: 0 < i < |values| ==> values[i] == values[i - 1] + 1
  }

  function RunError(values: seq<nat>, unsorted: Rejection, gap: Rejection): Option<Rejection> {
    if !Sorted(values) then Some(unsorted)
    else if !Contiguous(values) then Some(gap)
    else None
  }

  /** The first record whose run, topic or partition differs from the first record's. */
  function ScopeError(records: seq<ConsumedRecord>, i: nat := 0): Option<Rejection>
    requires i <= |records|
    decreases |records| - i
  {
    if i == |records| then None
    else if records[i].journal.run != records[0].journal.run then Some(MixedRuns)
    else if records[i].broker.topic != records[0].broker.topic then Some(MixedTopics)
    else if records[i].broker.partition != records[0].broker.partition then Some(MixedPartitions)
    else ScopeError(records, i + 1)
  }

  function BatchError(records: seq<ConsumedRecord>): Option<Rejection> {
    if records == [] then Some(EmptyBatch)
    else
      var scope := ScopeError(records);
      var wal := RunError(WalOffsets(records), UnsortedWal, WalGap);
      if scope.Some? then scope
      else if wal.Some? then wal
      else RunError(BrokerOffsets(records), UnsortedBroker, BrokerGap)
  }

  /** What validation is for: one run, one broker partition, consecutive offsets in both logs. */
  ghost predicate WellFormed(records: seq<ConsumedRecord>) {
    && records != []
    && forall i :: 0 <= i < |records| ==>
         && records[i].journal.run == records[0].journal.run
         && records[i].journal.walOffset == records[0].journal.walOffset + i
         && records[i].broker == records[0].broker.(offset := records[0].broker.offset + i)
  }

  lemma {:induction false} ContiguousFrom(values: seq<nat>, i: nat)
    requires Contiguous(values) && i < |values|
    ensures values[i] == values[0] + i
  {
    if i > 0 {
      ContiguousFrom(values, i - 1);
    }
  }

  lemma {:induction false} ScopeErrorMeaning(records: seq<ConsumedRecord>, i: nat)
    requires i <= |records|
    ensures ScopeError(records, i).None? <==>
            forall j :: i <= j < |records| ==>
              && records[j].journal.run == records[0].journal.run
              && records[j].broker.topic == records[0].broker.topic
              && records[j].broker.partition == records[0].broker.partition
    decreases |records| - i
  {
    if i < |records| {
      ScopeErrorMeaning(records, i + 1);
    }
  }

  /** The checks accept exactly the well-formed batches. */
  lemma BatchErrorMeaning(records: seq<ConsumedRecord>)
    ensures BatchError(records).None? <==> WellFormed(records)
  {
    if records != [] {
      ScopeErrorMeaning(records, 0);
      var wal, broker := WalOffsets(records), BrokerOffsets(records);
      if BatchError(records).None? {
        forall i | 0 <= i < |records|
          ensures records[i].journal.walOffset == records[0].journal.walOffset + i
          ensures records[i].broker == records[0].broker.(offset := records[0].broker.offset + i)
        {
          ContiguousFrom(wal, i);
          ContiguousFrom(broker, i);
        }
      }
      if WellFormed(records) {
        forall i | 0 <= i < |records|
          ensures wal[i] == wal[0] + i && broker[i] == broker[0] + i
        {
          assert records[i].journal.walOffset == records[0].journal.walOffset + i;
        }
      }
    }
  }

  // ---- The four stores ----

  function ConflictWith(log: Log, r: ConsumedRecord): Option<Rejection>
    requires SlotOf(r) in log
  {
    var committed := log[SlotOf(r)];
    if committed.journal.eventId != r.journal.eventId then Some(EventConflict(r.journal.walOffset))
    else if committed.broker != r.broker then Some(BrokerConflict(r.journal.walOffset))
    else None
  }

  /** A record agrees with the log when its slot is free, or holds the same event at the same
      broker offset. */
  predicate Agrees(log: Log, r: ConsumedRecord) {
    SlotOf(r) in log ==> ConflictWith(log, r).None?
  }

  /** The durable store's merge, record by record: a taken slot must agree and is kept. */
  function Absorb(log: Log, records: seq<ConsumedRecord>): Result<Log, Rejection> {
    if records == [] then Ok(log)
    else
      var n := |records| - 1;
      match Absorb(log, records[..n])
      case Err(e) => Err(e)
      case Ok(merged) =>
        if SlotOf(records[n]) !in merged then Ok(merged[SlotOf(records[n]) := records[n]])
        else if ConflictWith(merged, records[n]).Some? then Err(ConflictWith(merged, records[n]).value)
        else Ok(merged)
  }

  function CommitRecords(log: Log, records: seq<ConsumedRecord>): Result<Log, Rejection> {
    if BatchError(records).Some? then Err(BatchError(records).value) else Absorb(log, records)
  }

  function SaveCheckpoint(m: Checkpoints, c: Checkpoint): Result<Checkpoints, Rejection> {
    var key := Owner(c.consumer, c.run);
    if key in m && c.walOffset < m[key].walOffset then Err(OffsetRegression)
    else if key in m && c.walOffset == m[key].walOffset then
      if c.eventId != m[key].eventId then Err(MarkerConflict) else Ok(m)
    else Ok(m[key := c])
  }

  function UpsertSidecar(m: Sidecars, s: Sidecar): Result<Sidecars, Rejection> {
    var key := Owner(s.consumer, s.run);
    if key in m && s.walOffset < m[key].walOffset then Err(OffsetRegression)
    else if key in m && s.walOffset == m[key].walOffset && s.requiredForGc != m[key].requiredForGc then
      Err(MarkerConflict)
    else Ok(m[key := s])
  }

  function KeyOf(c: Cursor): CursorKey {
    CursorKey(c.consumer, c.broker.topic, c.broker.partition)
  }

  function SaveCursor(m: Cursors, c: Cursor): Result<Cursors, Rejection> {
    var key := KeyOf(c);
    if key in m && c.broker.offset < m[key].broker.offset then Err(OffsetRegression)
    else if key in m && c.broker.offset == m[key].broker.offset then
      if c.run != m[key].run || c.walOffset != m[key].walOffset || c.eventId != m[key].eventId then
        Err(MarkerConflict)
      else Ok(m)
    else Ok(m[key := c])
  }

  /** Saved positions never fall, and at one position what was saved about it stays. */
  predicate CheckpointsAdvance(m: Checkpoints, n: Checkpoints) {
    forall k :: k in m ==>
      && k in n && m[k].walOffset <= n[k].walOffset
      && (m[k].walOffset == n[k].walOffset ==> n[k].eventId == m[k].eventId)
  }

  predicate SidecarsAdvance(m: Sidecars, n: Sidecars) {
    forall k :: k in m ==>
      && k in n && m[k].walOffset <= n[k].walOffset
      && (m[k].walOffset == n[k].walOffset ==> n[k].requiredForGc == m[k].requiredForGc)
  }

  predicate CursorsAdvance(m: Cursors, n: Cursors) {
    forall k :: k in m ==>
      && k in n && m[k].broker.offset <= n[k].broker.offset
      && (m[k].broker.offset == n[k].broker.offset ==>
            n[k].run == m[k].run && n[k].walOffset == m[k].walOffset && n[k].eventId == m[k].eventId)
  }

  // ---- One call of the writer ----

  /** The first record at or before the checkpoint that the log does not hold as delivered. */
  function DuplicateError(log: Log, checkpoint: nat, records: seq<ConsumedRecord>, i: nat := 0)
    : Option<Rejection>
    requires i <= |records|
    decreases |records| - i
  {
    if i == |records| then None
    else if records[i].journal.walOffset > checkpoint then
      DuplicateError(log, checkpoint, records, i + 1)
    else if SlotOf(records[i]) !in log then Some(NotCommitted(records[i].journal.walOffset))
    else if ConflictWith(log, records[i]).Some? then ConflictWith(log, records[i])
    else DuplicateError(log, checkpoint, records, i + 1)
  }

  function After(checkpoint: nat, records: seq<ConsumedRecord>): seq<ConsumedRecord> {
    if records == [] then []
    else
      var n := |records| - 1;
      After(checkpoint, records[..n]) +
      if records[n].journal.walOffset > checkpoint then [records[n]] else []
  }

  datatype Admission =
    | Refuse(error: Rejection)
    | Repeat(checkpoint: Checkpoint)
    | Pending(records: seq<ConsumedRecord>)

  /** The checks made before anything is written, and the records left to write. */
  function Admit(cfg: Config, st: Stores, records: seq<ConsumedRecord>): Admission {
    if BatchError(records).Some? then Refuse(BatchError(records).value)
    else
      var owner := Owner(cfg.consumer, records[0].journal.run);
      if owner !in st.checkpoints then Pending(records)
      else
        var c := st.checkpoints[owner];
        var duplicate := DuplicateError(st.log, c.walOffset, records);
        var pending := After(c.walOffset, records);
        if duplicate.Some? then Refuse(duplicate.value)
        else if pending == [] then Repeat(c)
        else if pending[0].journal.walOffset != c.walOffset + 1 then
          Refuse(BatchGap(c.walOffset + 1, pending[0].journal.walOffset))
        else Pending(pending)
  }

  function CheckpointFor(cfg: Config, pending: seq<ConsumedRecord>, now: int): Checkpoint
    requires pending != []
  {
    var first, last := pending[0].journal, pending[|pending| - 1];
    Checkpoint(cfg.consumer, last.journal.run, last.journal.walOffset, last.journal.eventId, last.broker,
               TransactionId(cfg.consumer, last.journal.run, last.journal.walOffset),
               BatchId(cfg.consumer, last.journal.run, first.walOffset, last.journal.walOffset), now)
  }

  function SidecarFor(cfg: Config, c: Checkpoint): Sidecar {
    Sidecar(c.consumer, c.run, c.walOffset, c.updatedAt, cfg.requiredForGc)
  }

  function CursorFor(c: Checkpoint): Cursor {
    Cursor(c.consumer, c.broker, c.run, c.walOffset, c.eventId, c.updatedAt)
  }

  datatype Step = Step(after: Stores, outcome: Outcome)

  /** The last two saves. Their position is fixed whether or not the store is configured. */
  function SaveMarkers(cfg: Config, st: Stores, c: Checkpoint, saves: nat): Step {
    var sidecars := if cfg.hasSidecar then UpsertSidecar(st.sidecars, SidecarFor(cfg, c)) else Ok(st.sidecars);
    if saves == 2 then Step(st, Stopped(2))
    else if sidecars.Err? then Step(st, SaveFailed(sidecars.error))
    else
      var st3 := st.(sidecars := sidecars.value);
      var cursors := if cfg.hasCursor then SaveCursor(st.cursors, CursorFor(c)) else Ok(st.cursors);
      if saves == 3 then Step(st3, Stopped(3))
      else if cursors.Err? then Step(st3, SaveFailed(cursors.error))
      else Step(st3.(cursors := cursors.value), Committed(c))
  }

  /** The four saves in the writer's order; the process stops after `saves` of them. */
  function SaveAll(cfg: Config, st: Stores, pending: seq<ConsumedRecord>, now: int, saves: nat): Step
    requires pending != []
  {
    var log := CommitRecords(st.log, pending);
    if saves == 0 then Step(st, Stopped(0))
    else if log.Err? then Step(st, Rejected(log.error))
    else
      var st1 := st.(log := log.value);
      var c := CheckpointFor(cfg, pending, now);
      var checkpoints := SaveCheckpoint(st.checkpoints, c);
      if saves == 1 then Step(st1, Stopped(1))
      else if checkpoints.Err? then Step(st1, SaveFailed(checkpoints.error))
      else SaveMarkers(cfg, st1.(checkpoints := checkpoints.value), c, saves)
  }

  function Deliver(cfg: Config, st: Stores, records: seq<ConsumedRecord>, now: int, saves: nat): Step {
    match Admit(cfg, st, records)
    case Refuse(e) => Step(st, Rejected(e))
    case Repeat(c) => Step(st, NothingNew(c))
    case Pending(pending) =>
      if pending == [] then Step(st, Rejected(EmptyBatch)) else SaveAll(cfg, st, pending, now, saves)
  }

  // ---- The service and its in-memory stores, as written ----

  class CommittedEventStore {
    var records: Log

    constructor ()
      ensures records == map[]
    {
      records := map[];
    }

    method Commit(batch: seq<ConsumedRecord>) returns (r: Result<seq<JournalRecord>, Rejection>)
      modifies this
      ensures CommitRecords(old(records), batch).Err? ==>
                r == Err(CommitRecords(old(records), batch).error) && records == old(records)
      ensures CommitRecords(old(records), batch).Ok? ==>
                && records == CommitRecords(old(records), batch).value
                && r.Ok? && |r.value| == |batch|
                && forall i :: 0 <= i < |batch| ==> r.value[i] == batch[i].journal
    {
      var invalid := ValidateBatch(batch);
      if invalid.Some? {
        return Err(invalid.value);
      }
      BatchErrorMeaning(batch);
      var staged: Log := map[];
      var i := 0;
      assert batch[..0] == [] && records + staged == records;
      while i < |batch|
        invariant 0 <= i <= |batch|
        invariant staged.Keys !! records.Keys
        invariant Absorb(records, batch[..i]) == Ok(records + staged)
      {
        assert batch[..i + 1][..i] == batch[..i];
        var slot := SlotOf(batch[i]);
        var merged := records + staged;
        if slot in merged {
          if ConflictWith(merged, batch[i]).Some? {
            AbsorbErrorStays(records, batch, i + 1);
            return Err(ConflictWith(merged, batch[i]).value);
          }
        } else {
          assert merged[slot := batch[i]] == records + staged[slot := batch[i]];
          staged := staged[slot := batch[i]];
        }
        i := i + 1;
      }
      assert batch[..i] == batch;
      records := records + staged;
      r := Ok(seq(|batch|, k requires 0 <= k < |batch| => batch[k].journal));
    }

    method CommittedRecord(slot: Slot) returns (r: Option<ConsumedRecord>)
      ensures r == if slot in records then Some(records[slot]) else None
    {
      r := if slot in records then Some(records[slot]) else None;
    }
  }

  class CheckpointStore {
    var data: Checkpoints

    constructor ()
      ensures data == map[]
    {
      data := map[];
    }

    method Load(owner: Owner) returns (c: Option<Checkpoint>)
      ensures c == if owner in data then Some(data[owner]) else None
    {
      c := if owner in data then Some(data[owner]) else None;
    }

    method Save(c: Checkpoint) returns (error: Option<Rejection>)
      modifies this
      ensures match SaveCheckpoint(old(data), c)
              case Ok(m) => data == m && error == None
              case Err(e) => data == old(data) && error == Some(e)
      ensures CheckpointsAdvance(old(data), data)
      ensures var key := Owner(c.consumer, c.run);
              error.None? ==> key in data && data[key].walOffset == c.walOffset && data[key].eventId == c.eventId
    {
      var key := Owner(c.consumer, c.run);
      if key in data {
        if c.walOffset < data[key].walOffset {
          return Some(OffsetRegression);
        }
        if c.walOffset == data[key].walOffset {
          if c.eventId != data[key].eventId {
            return Some(MarkerConflict);
          }
          return None;
        }
      }
      data := data[key := c];
      error := None;
    }
  }

  class RequiredConsumerStore {
    var data: Sidecars

    constructor ()
      ensures data == map[]
    {
      data := map[];
    }

    method Upsert(s: Sidecar) returns (error: Option<Rejection>)
      modifies this
      ensures match UpsertSidecar(old(data), s)
              case Ok(m) => data == m && error == None
              case Err(e) => data == old(data) && error == Some(e)
      ensures SidecarsAdvance(old(data), data)
      ensures error.None? ==> Owner(s.consumer, s.run) in data && data[Owner(s.consumer, s.run)] == s
    {
      var key := Owner(s.consumer, s.run);
      if key in data {
        if s.walOffset < data[key].walOffset {
          return Some(OffsetRegression);
        }
        if s.walOffset == data[key].walOffset && s.requiredForGc != data[key].requiredForGc {
          return Some(MarkerConflict);
        }
      }
      data := data[key := s];
      error := None;
    }
  }

  class CursorStore {
    var data: Cursors

    constructor ()
      ensures data == map[]
    {
      data := map[];
    }

    method Save(c: Cursor) returns (error: Option<Rejection>)
      modifies this
      ensures match SaveCursor(old(data), c)
              case Ok(m) => data == m && error == None
              case Err(e) => data == old(data) && error == Some(e)
      ensures CursorsAdvance(old(data), data)
      ensures error.None? ==>
                && KeyOf(c) in data
                && data[KeyOf(c)].broker.offset == c.broker.offset && data[KeyOf(c)].run == c.run
                && data[KeyOf(c)].walOffset == c.walOffset && data[KeyOf(c)].eventId == c.eventId
    {
      var key := KeyOf(c);
      if key in data {
        if c.broker.offset < data[key].broker.offset {
          return Some(OffsetRegression);
        }
        if c.broker.offset == data[key].broker.offset {
          if c.run != data[key].run || c.walOffset != data[key].walOffset || c.eventId != data[key].eventId {
            return Some(MarkerConflict);
          }
          return None;
        }
      }
      data := data[key := c];
      error := None;
    }
  }

  class LocalDbWriterService {
    const consumer: string
    const requiredForGc: bool
    const dbStore: CommittedEventStore
    const checkpointStore: CheckpointStore
    const requiredStore: RequiredConsumerStore?
    const cursorStore: CursorStore?

    constructor (consumer: string, dbStore: CommittedEventStore, checkpointStore: CheckpointStore,
                 requiredStore: RequiredConsumerStore?, cursorStore: CursorStore?, requiredForGc: bool)
      ensures this.consumer == consumer && this.requiredForGc == requiredForGc
      ensures this.dbStore == dbStore && this.checkpointStore == checkpointStore
      ensures this.requiredStore == requiredStore && this.cursorStore == cursorStore
    {
      this.consumer := consumer;
      this.requiredForGc := requiredForGc;
      this.dbStore := dbStore;
      this.checkpointStore := checkpointStore;
      this.requiredStore := requiredStore;
      this.cursorStore := cursorStore;
    }

    function Cfg(): Config {
      Config(consumer, requiredStore != null, requiredForGc, cursorStore != null)
    }

    ghost function Contents(): Stores
      reads dbStore, checkpointStore, requiredStore, cursorStore
    {
      Stores(dbStore.records, checkpointStore.data,
             if requiredStore == null then map[] else requiredStore.data,
             if cursorStore == null then map[] else cursorStore.data)
    }

    /** The call does to the stores exactly what Deliver says, whenever the process stops. */
    method CommitConsumedBatch(records: seq<ConsumedRecord>, now: int, saves: nat) returns (outcome: Outcome)
      modifies dbStore, checkpointStore, requiredStore, cursorStore
      ensures Step(Contents(), outcome) == Deliver(Cfg(), old(Contents()), records, now, saves)
    {
      var invalid := ValidateBatch(records);
      if invalid.Some? {
        return Rejected(invalid.value);
      }
      var run := records[0].journal.run;
      var checkpoint := checkpointStore.Load(Owner(consumer, run));
      var pending := records;
      if checkpoint.Some? {
        var c := checkpoint.value;
        var duplicate := ValidateCheckpointDuplicates(records, c.walOffset);
        if duplicate.Some? {
          return Rejected(duplicate.value);
        }
        pending := After(c.walOffset, records);
        if pending == [] {
          return NothingNew(c);
        }
        if pending[0].journal.walOffset != c.walOffset + 1 {
          return Rejected(BatchGap(c.walOffset + 1, pending[0].journal.walOffset));
        }
      }
      assert Admit(Cfg(), Contents(), records) == Pending(pending);
      outcome := WriteStores(pending, now, saves);
    }

    method WriteStores(pending: seq<ConsumedRecord>, now: int, saves: nat) returns (outcome: Outcome)
      requires pending != []
      modifies dbStore, checkpointStore, requiredStore, cursorStore
      ensures Step(Contents(), outcome) == SaveAll(Cfg(), old(Contents()), pending, now, saves)
    {
      if saves == 0 {
        return Stopped(0);
      }
      var committed := dbStore.Commit(pending);
      if committed.Err? {
        return Rejected(committed.error);
      }
      if saves == 1 {
        return Stopped(1);
      }
      var c := CheckpointFor(Cfg(), pending, now);
      var error := checkpointStore.Save(c);
      if error.Some? {
        return SaveFailed(error.value);
      }
      outcome := WriteMarkers(c, saves);
    }

    method WriteMarkers(c: Checkpoint, saves: nat) returns (outcome: Outcome)
      requires saves >= 2
      modifies requiredStore, cursorStore
      ensures Step(Contents(), outcome) == SaveMarkers(Cfg(), old(Contents()), c, saves)
    {
      if saves == 2 {
        return Stopped(2);
      }
      if requiredStore != null {
        var error := requiredStore.Upsert(SidecarFor(Cfg(), c));
        if error.Some? {
          return SaveFailed(error.value);
        }
      }
      if saves == 3 {
        return Stopped(3);
      }
      if cursorStore != null {
        var error := cursorStore.Save(CursorFor(c));
        if error.Some? {
          return SaveFailed(error.value);
        }
      }
      outcome := Committed(c);
    }

    method ValidateCheckpointDuplicates(records: seq<ConsumedRecord>, checkpoint: nat)
      returns (error: Option<Rejection>)
      ensures error == DuplicateError(dbStore.records, checkpoint, records)
    {
      var i := 0;
      while i < |records|
        invariant 0 <= i <= |records|
        invariant DuplicateError(dbStore.records, checkpoint, records) ==
                  DuplicateError(dbStore.records, checkpoint, records, i)
      {
        var r := records[i];
        if r.journal.walOffset <= checkpoint {
          var committed := dbStore.CommittedRecord(SlotOf(r));
          if committed == None {
            return Some(NotCommitted(r.journal.walOffset));
          }
          if committed.value.journal.eventId != r.journal.eventId {
            return Some(EventConflict(r.journal.walOffset));
          }
          if committed.value.broker != r.broker {
            return Some(BrokerConflict(r.journal.walOffset));
          }
        }
        i := i + 1;
      }
      error := None;
    }
  }

  lemma {:induction false} AbsorbErrorStays(log: Log, records: seq<ConsumedRecord>, i: nat)
    requires i <= |records| && Absorb(log, records[..i]).Err?
    ensures Absorb(log, records) == Absorb(log, records[..i])
    decreases |records| - i
  {
    if i == |records| {
      assert records[..i] == records;
    } else {
      assert records[..i + 1][..i] == records[..i];
      AbsorbErrorStays(log, records, i + 1);
    }
  }

  /** _validate_batch: scope by a loop over the records, then both offset runs. */
  method ValidateBatch(records: seq<ConsumedRecord>) returns (error: Option<Rejection>)
    ensures error == BatchError(records)
  {
    if records == [] {
      return Some(EmptyBatch);
    }
    var i := 0;
    while i < |records|
      invariant 0 <= i <= |records|
      invariant ScopeError(records) == ScopeError(records, i)
    {
      if records[i].journal.run != records[0].journal.run {
        return Some(MixedRuns);
      }
      if records[i].broker.topic != records[0].broker.topic {
        return Some(MixedTopics);
      }
      if records[i].broker.partition != records[0].broker.partition {
        return Some(MixedPartitions);
      }
      i := i + 1;
    }
    error := ValidateSortedContiguous(WalOffsets(records), UnsortedWal, WalGap);
    if error == None {
      error := ValidateSortedContiguous(BrokerOffsets(records), UnsortedBroker, BrokerGap);
    }
  }

  method ValidateSortedContiguous(values: seq<nat>, unsorted: Rejection, gap: Rejection)
    returns (error: Option<Rejection>)
    ensures error == RunError(values, unsorted, gap)
  {
    if !Sorted(values) {
      return Some(unsorted);
    }
    var i := 1;
    while i < |values|
      invariant 1 <= i
      invariant forall k :: 0 < k < i && k < |values| ==> values[k] == values[k - 1] + 1
    {
      if values[i] != values[i - 1] + 1 {
        return Some(gap);
      }
      i := i + 1;
    }
    error := None;
  }
}
