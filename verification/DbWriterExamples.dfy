/** Inputs at which simpler claims about the DB writer fail. */
module DbWriterExamples {
  import opened Wrappers
  import opened DbWriter
  import opened DbWriterRuns
  import opened DbWriterSchedules
  import opened DbWriterMarkers
  import opened LogCleaner

  function At(run: string, offset: nat, event: string, broker: nat): ConsumedRecord {
    ConsumedRecord(JournalRecord(run, offset, event, ""), BrokerOffset("topic", 0, broker))
  }

  function Example(offset: nat): ConsumedRecord {
    At("run", offset, "event", offset)
  }

  /** The upstream log that publishes these records. */
  function Publishing(records: seq<ConsumedRecord>): Upstream {
    if records == [] then map[]
    else
      var r := records[|records| - 1];
      Publishing(records[..|records| - 1])[SlotOf(r) := r]
  }

  lemma {:induction false} PublishingHolds(records: seq<ConsumedRecord>, i: nat)
    requires Distinct(records) && i < |records|
    ensures ValidUpstream(Publishing(records))
    ensures var s := SlotOf(records[i]); s in Publishing(records) && Publishing(records)[s] == records[i]
  {
    var n := |records| - 1;
    if n > 0 {
      PublishingHolds(records[..n], if i < n then i else 0);
    }
  }

  lemma PublishingMeaning(records: seq<ConsumedRecord>)
    requires Distinct(records) && records != []
    ensures ValidUpstream(Publishing(records)) && FromUpstream(Publishing(records), records)
  {
    PublishingHolds(records, 0);
    forall i | 0 <= i < |records|
      ensures SlotOf(records[i]) in Publishing(records)
      ensures Publishing(records)[SlotOf(records[i])] == records[i]
    {
      PublishingHolds(records, i);
    }
  }

  /** The stores after one record is delivered to the end. */
  lemma AfterOne(cfg: Config, r: ConsumedRecord)
    ensures var st := Deliver(cfg, EMPTY, [r], 0, 4).after;
            var owner, c := Owner(cfg.consumer, r.journal.run), CheckpointFor(cfg, [r], 0);
            && st.log == map[SlotOf(r) := r]
            && st.checkpoints == map[owner := c]
            && st.sidecars == (if cfg.hasSidecar then map[owner := SidecarFor(cfg, c)] else map[])
            && st.cursors == (if cfg.hasCursor then map[KeyOf(CursorFor(c)) := CursorFor(c)] else map[])
  {
    BatchErrorMeaning([r]);
    assert [r][..0] == [];
    assert Absorb(map[], [r]) == Ok(map[SlotOf(r) := r]);
  }

  /** One delivery to the end leaves consistent stores, whatever else upstream publishes. */
  lemma AfterOneIsConsistent(cfg: Config, truth: Upstream, r: ConsumedRecord)
    requires ValidUpstream(truth) && FromUpstream(truth, [r])
    ensures Consistent(cfg, truth, Deliver(cfg, EMPTY, [r], 0, 4).after)
  {
    EmptyIsConsistent(cfg, truth);
    DeliverKeepsConsistent(cfg, truth, EMPTY, [r], 0, 4);
  }

  /** The gap the condition rules out: the first delivery dies after its log save, and the retry
      starts somewhere else. */
  lemma AnInterruptedFirstBatchCanLeaveAGap(cfg: Config)
    ensures var schedule := [Delivery([Example(5)], 0, 1), Delivery([Example(0)], 0, 4)];
            !GapFree(Play(cfg, EMPTY, schedule).log, "run")
  {
    var first, second := [Example(5)], [Example(0)];
    BatchErrorMeaning(first);
    BatchErrorMeaning(second);
    var st := Deliver(cfg, EMPTY, first, 0, 1).after;
    assert Absorb(map[], first[..0]) == Ok(map[]);
    assert st.log == map[Slot("run", 5) := Example(5)];
    assert Absorb(st.log, second[..0]) == Ok(st.log);
    var schedule := [Delivery(first, 0, 1), Delivery(second, 0, 4)];
    var last := Deliver(cfg, st, second, 0, 4).after;
    assert schedule[1..] == [Delivery(second, 0, 4)];
    assert Play(cfg, st, schedule[1..]) == Play(cfg, last, []) == last;
    assert Play(cfg, EMPTY, schedule) == Play(cfg, st, schedule[1..]);
    assert Slot("run", 0) in last.log && Slot("run", 5) in last.log && Slot("run", 3) !in last.log;
  }

  /** Starting no later than the checkpoint's successor and matching the log wherever they overlap is
      not enough to be accepted: the batch may reach back before the log's first record. */
  lemma ABatchBeforeTheLogIsRefused(cfg: Config)
    ensures var st, batch := Deliver(cfg, EMPTY, [Example(5)], 0, 4).after, [Example(4), Example(5)];
            && WellFormed(batch) && st.checkpoints[Owner(cfg.consumer, "run")].walOffset == 5
            && (forall r :: r in batch ==> Agrees(st.log, r))
            && Deliver(cfg, st, batch, 0, 4) == Step(st, Rejected(NotCommitted(4)))
  {
    AfterOne(cfg, Example(5));
    BatchErrorMeaning([Example(4), Example(5)]);
  }

  /** A checkpoint at 5, and a record at 6 left by a delivery that died right after its log save. */
  function Leftover(cfg: Config): Stores {
    Deliver(cfg, Deliver(cfg, EMPTY, [Example(5)], 0, 4).after, [Example(6)], 0, 1).after
  }

  lemma LeftoverStores(cfg: Config)
    ensures var st, owner := Leftover(cfg), Owner(cfg.consumer, "run");
            && owner in st.checkpoints && st.checkpoints[owner].walOffset == 5
            && Slot("run", 6) in st.log && st.log[Slot("run", 6)] == Example(6)
  {
    AfterOne(cfg, Example(5));
    BehindTheCheckpoint(cfg, Deliver(cfg, EMPTY, [Example(5)], 0, 4).after, Example(6));
  }

  /** And a batch that starts right behind the checkpoint, repeating nothing before it, can still be
      refused: an interrupted delivery left another event in the slot. */
  lemma ALeftoverCanRefuseABatch(cfg: Config)
    ensures var st, batch := Leftover(cfg), [At("run", 6, "other", 6)];
            && Owner(cfg.consumer, "run") in st.checkpoints
            && st.checkpoints[Owner(cfg.consumer, "run")].walOffset == 5
            && Deliver(cfg, st, batch, 0, 4) == Step(st, Rejected(EventConflict(6)))
  {
    LeftoverStores(cfg);
    BehindTheCheckpoint(cfg, Leftover(cfg), At("run", 6, "other", 6));
  }

  /** A single record right behind a checkpoint at 5 passes admission; the log decides. */
  lemma BehindTheCheckpoint(cfg: Config, st: Stores, r: ConsumedRecord)
    requires r.journal.run == "run" && r.journal.walOffset == 6
    requires Owner(cfg.consumer, "run") in st.checkpoints
    requires st.checkpoints[Owner(cfg.consumer, "run")].walOffset == 5
    ensures Admit(cfg, st, [r]) == Pending([r])
    ensures CommitRecords(st.log, [r]) ==
            if SlotOf(r) !in st.log then Ok(st.log[SlotOf(r) := r])
            else if ConflictWith(st.log, r).Some? then Err(ConflictWith(st.log, r).value)
            else Ok(st.log)
  {
    BatchErrorMeaning([r]);
    assert [r][..0] == [];
    assert Absorb(st.log, [r][..0]) == Ok(st.log);
    assert Absorb(st.log, [r]) == CommitRecords(st.log, [r]);
    AfterIsSuffix(5, [r]);
    assert DuplicateError(st.log, 5, [r], 1) == None;
  }

  /** Two deliveries that leave a gap: the first dies right after its log save. */
  function Gapped(cfg: Config): Stores {
    Deliver(cfg, Deliver(cfg, EMPTY, [Example(0)], 0, 1).after, [Example(5)], 0, 4).after
  }

  lemma GappedStores(cfg: Config)
    ensures var st, c := Gapped(cfg), CheckpointFor(cfg, [Example(5)], 0);
            var owner := Owner(cfg.consumer, "run");
            && st.log == map[Slot("run", 0) := Example(0), Slot("run", 5) := Example(5)]
            && st.checkpoints == map[owner := c]
            && st.sidecars == (if cfg.hasSidecar then map[owner := SidecarFor(cfg, c)] else map[])
  {
    var zero, five := [Example(0)], [Example(5)];
    BatchErrorMeaning(zero);
    BatchErrorMeaning(five);
    assert zero[..0] == [] && five[..0] == [];
    assert Absorb(map[], zero) == Ok(map[Slot("run", 0) := Example(0)]);
    var one := Deliver(cfg, EMPTY, zero, 0, 1).after;
    assert one == EMPTY.(log := map[Slot("run", 0) := Example(0)]);
    assert Absorb(one.log, five[..0]) == Ok(one.log);
    assert Absorb(one.log, five) == Ok(one.log[Slot("run", 5) := Example(5)]);
  }

  /** Starting inside the log is not enough when the batch runs into a gap. */
  lemma ABatchAcrossAGapIsRefused(cfg: Config)
    ensures var st, batch := Gapped(cfg), [Example(0), Example(1), Example(2)];
            && WellFormed(batch) && Owner(cfg.consumer, "run") in st.checkpoints
            && st.checkpoints[Owner(cfg.consumer, "run")].walOffset == 5
            && SlotOf(batch[0]) in st.log && (forall r :: r in batch ==> Agrees(st.log, r))
            && GapAt(st.log, "run", 1)
            && Deliver(cfg, st, batch, 0, 4) == Step(st, Rejected(NotCommitted(1)))
  {
    GappedStores(cfg);
    var st, batch := Gapped(cfg), [Example(0), Example(1), Example(2)];
    BatchErrorMeaning(batch);
    assert Slot("run", 0) in st.log && Slot("run", 5) in st.log && Slot("run", 1) !in st.log;
    assert DuplicateError(st.log, 5, batch, 1) == Some(NotCommitted(1));
  }

  /** A delivery that died after its checkpoint save, delivered again, ends behind one that did not. */
  lemma ARedeliveryCanLeaveAMarkerBehind(cfg: Config)
    requires cfg.hasSidecar || cfg.hasCursor
    ensures var mid := Deliver(cfg, EMPTY, [Example(5)], 0, 2).after;
            Unstamped(Deliver(cfg, mid, [Example(5)], 0, 4).after) !=
            Unstamped(Deliver(cfg, EMPTY, [Example(5)], 0, 4).after)
  {
    var truth := Publishing([Example(5)]);
    PublishingMeaning([Example(5)]);
    EmptyIsConsistent(cfg, truth);
    assert WellFormed([Example(5)]) && LeavesMarkerBehind(cfg, EMPTY, [Example(5)], 2);
    RedeliveryConvergesExactlyWhen(cfg, truth, EMPTY, [Example(5)], 2, 0, 0, 0);
  }

  /** A cut that matters: the whole batch is refused, and so is its head, but the tail goes through. */
  lemma ACutCanMatter(cfg: Config)
    ensures var st := Deliver(cfg, EMPTY, [Example(5)], 0, 4).after;
            var head, tail := [Example(4)], [Example(5), Example(6)];
            && WellFormed(head + tail)
            && Unstamped(Deliver(cfg, Deliver(cfg, st, head, 0, 4).after, tail, 0, 4).after) !=
               Unstamped(Deliver(cfg, st, head + tail, 0, 4).after)
  {
    var head, tail, truth := [Example(4)], [Example(5), Example(6)], ThreePublished();
    var st := Deliver(cfg, EMPTY, [Example(5)], 0, 4).after;
    AfterOneIsConsistent(cfg, truth, Example(5));
    AfterOne(cfg, Example(5));
    MissingHead(cfg, st, head, tail);
    SplitExactlyWhen(cfg, truth, st, head, tail, 0, 0, 0);
  }

  ghost function ThreePublished(): (truth: Upstream)
    ensures ValidUpstream(truth) && FromUpstream(truth, [Example(5)])
    ensures FromUpstream(truth, [Example(4)] + [Example(5), Example(6)])
  {
    var all := [Example(4)] + [Example(5), Example(6)];
    PublishingMeaning(all);
    assert all[1] == Example(5);
    Publishing(all)
  }

  lemma MissingHead(cfg: Config, st: Stores, head: seq<ConsumedRecord>, tail: seq<ConsumedRecord>)
    requires head == [Example(4)] && tail == [Example(5), Example(6)]
    requires st.log == map[Slot("run", 5) := Example(5)]
    requires st.checkpoints == map[Owner(cfg.consumer, "run") := CheckpointFor(cfg, [Example(5)], 0)]
    ensures WellFormed(head + tail) && CutMatters(cfg, st, head, tail)
  {
    assert Example(4) in head;
  }

  /** Two runs that share a partition: the second run's record is new, log, checkpoint and sidecar take
      it, and the cursor refuses. */
  lemma TheCursorCanRefuse(cfg: Config)
    requires cfg.hasCursor
    ensures var one, two := At("a", 0, "event", 10), At("b", 0, "event", 5);
            Deliver(cfg, Deliver(cfg, EMPTY, [one], 0, 4).after, [two], 0, 4).outcome == SaveFailed(OffsetRegression)
  {
    var one, two, truth := At("a", 0, "event", 10), At("b", 0, "event", 5), TwoPublished();
    var st := Deliver(cfg, EMPTY, [one], 0, 4).after;
    AfterOneIsConsistent(cfg, truth, one);
    AfterOne(cfg, one);
    assert WellFormed([two]);
    SaveFailsExactlyWhen(cfg, truth, st, [two], 0, 4);
  }

  ghost function TwoPublished(): (truth: Upstream)
    ensures ValidUpstream(truth)
    ensures FromUpstream(truth, [At("a", 0, "event", 10)]) && FromUpstream(truth, [At("b", 0, "event", 5)])
  {
    var both := [At("a", 0, "event", 10), At("b", 0, "event", 5)];
    PublishingMeaning(both);
    assert both[0] in both && both[1] in both;
    Publishing(both)
  }

  /** A segment that reaches back before the log's first record is eligible, and its first offsets were
      never durable. */
  lemma TheCleanerCanTakeWhatWasNeverDurable(cfg: Config)
    requires cfg.hasSidecar && cfg.requiredForGc
    ensures var st := Deliver(cfg, EMPTY, [Example(5)], 0, 4).after;
            var segment := Segment("run", SEALED, Some(Range(0, 5)));
            Eligible(segment, st.sidecars) && Slot("run", 0) !in st.log && !Durable(segment, st.log)
  {
    AfterOne(cfg, Example(5));
    var st := Deliver(cfg, EMPTY, [Example(5)], 0, 4).after;
    assert Owner(cfg.consumer, "run") in Required("run", st.sidecars);
    assert Slot("run", 0) !in st.log;
  }

  /** Nor is it enough that the segment starts inside the log: a gap can lie inside the segment. */
  lemma TheCleanerCanTakeAGap(cfg: Config)
    requires cfg.hasSidecar && cfg.requiredForGc
    ensures var st, segment := Gapped(cfg), Segment("run", SEALED, Some(Range(0, 5)));
            && Eligible(segment, st.sidecars) && Owner(cfg.consumer, "run") in st.sidecars
            && Slot("run", 0) in st.log && Slot("run", 3) !in st.log && !Durable(segment, st.log)
  {
    GappedStores(cfg);
    assert Owner(cfg.consumer, "run") in Required("run", Gapped(cfg).sidecars);
    assert Slot("run", 3) !in Gapped(cfg).log;
  }

  /** Another required consumer alone is enough: before this writer has a sidecar for the run, the
      cleaner does not wait for it. */
  lemma TheCleanerDoesNotWaitForAnAbsentWriter()
    ensures var sidecars: Sidecars := map[Owner("other", "run") := Sidecar("other", "run", 5, 0, true)];
            var segment := Segment("run", SEALED, Some(Range(0, 5)));
            Eligible(segment, sidecars) && !Durable(segment, EMPTY.log)
  {
    var sidecars: Sidecars := map[Owner("other", "run") := Sidecar("other", "run", 5, 0, true)];
    assert Owner("other", "run") in Required("run", sidecars);
    assert Slot("run", 0) !in EMPTY.log;
  }
}
