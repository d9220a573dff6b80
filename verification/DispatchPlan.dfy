/** The dispatch plan of one replay event: output records in handler order. */
module DispatchPlan {
  import opened Wrappers
  import opened Ordering

  datatype Context = Context(run: string, manifest: string, plan: string, timeline: string, fingerprint: string,
                             dispatcher: string, event: string, order: nat, time: int, kind: string)

  datatype Output = Output(id: string, context: Context, handler: string, index: nat)

  /** Which output of which handler. */
  datatype Slot = Slot(handler: string, index: nat)

  datatype Key = Key(position: nat, index: nat, id: string)

  /** Tuple order. */
  predicate KeyLess(a: Key, b: Key) {
    a.position < b.position ||
    (a.position == b.position && (a.index < b.index || (a.index == b.index && StringLess(a.id, b.id))))
  }

  ghost predicate Distinct<T>(s: seq<T>) {
    forall i, j :: 0 <= i < j < |s| ==> s[i] != s[j]
  }

  ghost predicate UniqueRecordIds(records: seq<Output>) {
    forall i, j :: 0 <= i < j < |records| ==> records[i].id != records[j].id
  }

  function Slots(records: seq<Output>): seq<Slot> {
    seq(|records|, i requires 0 <= i < |records| => Slot(records[i].handler, records[i].index))
  }

  function Block(handler: string, count: nat): seq<Slot> {
    seq(count, (i: nat) => Slot(handler, i))
  }

  /** Blocks numbered from 0, in handler order. */
  function Blocks(handlers: seq<string>, counts: seq<nat>): seq<Slot>
    requires |handlers| == |counts|
  {
    if handlers == [] then []
    else
      var n := |handlers| - 1;
      Blocks(handlers[..n], counts[..n]) + Block(handlers[n], counts[n])
  }

  /** The shape a plan promises: this event's context throughout, and whole blocks per handler. */
  ghost predicate Canonical(context: Context, handlers: seq<string>, records: seq<Output>) {
    && UniqueRecordIds(records)
    && (forall i :: 0 <= i < |records| ==> records[i].context == context)
    && WholeBlocks(handlers, records)
  }

  ghost predicate WholeBlocks(handlers: seq<string>, records: seq<Output>) {
    exists counts: seq<nat> :: |counts| == |handlers| && Slots(records) == Blocks(handlers, counts)
  }

  // ---- The checks as the validator makes them ----

  function KeyOf(handlers: seq<string>, r: Output): Key
    requires r.handler in handlers
  {
    Key(IndexOf(handlers, r.handler), r.index, r.id)
  }

  /** The output indexes of one handler, in record order. */
  function Indexes(slots: seq<Slot>, h: string): seq<nat> {
    if slots == [] then []
    else
      var n := |slots| - 1;
      Indexes(slots[..n], h) + if slots[n].handler == h then [slots[n].index] else []
  }

  predicate IsRange(indexes: seq<nat>) {
    forall i :: 0 <= i < |indexes| ==> indexes[i] == i
  }

  /** The scan with its previous key, then the per-handler index check. */
  ghost predicate Scanned(handlers: seq<string>, records: seq<Output>) {
    && (forall i :: 0 <= i < |records| ==> records[i].handler in handlers)
    && (forall i :: 0 < i < |records| ==> KeyLess(KeyOf(handlers, records[i - 1]), KeyOf(handlers, records[i])))
    && EveryHandlerCounts(Slots(records))
  }

  ghost predicate EveryHandlerCounts(slots: seq<Slot>) {
    forall h :: IsRange(Indexes(slots, h))
  }

  // ---- Scanned means whole blocks ----

  function Counts(handlers: seq<string>, slots: seq<Slot>): seq<nat> {
    seq(|handlers|, p requires 0 <= p < |handlers| => |Indexes(slots, handlers[p])|)
  }

  /** One more slot at the end of the last non-empty block. */
  lemma {:induction false} BlocksGrow(handlers: seq<string>, counts: seq<nat>, q: nat)
    requires |handlers| == |counts| && q < |counts|
    requires forall p :: q < p < |counts| ==> counts[p] == 0
    ensures Blocks(handlers, counts[q := counts[q] + 1]) == Blocks(handlers, counts) + [Slot(handlers[q], counts[q])]
  {
    var n, grown := |handlers| - 1, counts[q := counts[q] + 1];
    if q == n {
      assert grown[..n] == counts[..n];
      assert Block(handlers[n], counts[n] + 1) == Block(handlers[n], counts[n]) + [Slot(handlers[n], counts[n])];
    } else {
      assert grown[..n] == counts[..n][q := counts[q] + 1];
      BlocksGrow(handlers[..n], counts[..n], q);
      assert Block(handlers[n], 0) == [];
    }
  }

  lemma {:induction false} PositionsNeverFall(handlers: seq<string>, records: seq<Output>, i: nat, j: nat)
    requires Scanned(handlers, records) && i <= j < |records|
    ensures IndexOf(handlers, records[i].handler) <= IndexOf(handlers, records[j].handler)
    decreases j
  {
    if i < j {
      PositionsNeverFall(handlers, records, i, j - 1);
      assert KeyLess(KeyOf(handlers, records[j - 1]), KeyOf(handlers, records[j]));
    }
  }

  lemma {:induction false} AbsentHandlerHasNoIndexes(slots: seq<Slot>, h: string)
    requires forall i :: 0 <= i < |slots| ==> slots[i].handler != h
    ensures Indexes(slots, h) == []
  {
    if slots != [] {
      AbsentHandlerHasNoIndexes(slots[..|slots| - 1], h);
    }
  }

  lemma ScannedPrefix(handlers: seq<string>, records: seq<Output>)
    requires Scanned(handlers, records) && records != []
    ensures var n := |records| - 1;
            && Slots(records)[..n] == Slots(records[..n])
            && Scanned(handlers, records[..n])
            && (forall h :: Indexes(Slots(records), h) ==
                            Indexes(Slots(records[..n]), h)
                            + if records[n].handler == h then [records[n].index] else [])
  {
    var n := |records| - 1;
    assert Slots(records)[..n] == Slots(records[..n]);
    forall h ensures IsRange(Indexes(Slots(records[..n]), h)) {
      var whole, part := Indexes(Slots(records), h), Indexes(Slots(records[..n]), h);
      assert IsRange(whole);
      assert forall i :: 0 <= i < |part| ==> part[i] == whole[i];
    }
  }

  /** Handlers behind the last record's have no output yet. */
  lemma LaterHandlersAreEmpty(handlers: seq<string>, records: seq<Output>, p: nat)
    requires Distinct(handlers) && Scanned(handlers, records) && records != []
    requires IndexOf(handlers, records[|records| - 1].handler) < p < |handlers|
    ensures Indexes(Slots(records[..|records| - 1]), handlers[p]) == []
  {
    var n := |records| - 1;
    var slots := Slots(records[..n]);
    forall i | 0 <= i < n ensures slots[i].handler != handlers[p] {
      PositionsNeverFall(handlers, records, i, n);
      HandlerIndex(handlers, p);
    }
    AbsentHandlerHasNoIndexes(slots, handlers[p]);
  }

  /** The last record extends its own handler's count and no other. */
  lemma CountsGrow(handlers: seq<string>, records: seq<Output>)
    requires Distinct(handlers) && Scanned(handlers, records) && records != []
    ensures var n := |records| - 1;
            var q, counts := IndexOf(handlers, records[n].handler), Counts(handlers, Slots(records[..n]));
            && Counts(handlers, Slots(records)) == counts[q := counts[q] + 1]
            && records[n].index == counts[q]
  {
    ScannedPrefix(handlers, records);
    var n := |records| - 1;
    var q, counts := IndexOf(handlers, records[n].handler), Counts(handlers, Slots(records[..n]));
    var indexes := Indexes(Slots(records), records[n].handler);
    assert IsRange(indexes) && indexes[counts[q]] == records[n].index;
    forall p | 0 <= p < |handlers|
      ensures Counts(handlers, Slots(records))[p] == if p == q then counts[p] + 1 else counts[p]
    {
      HandlerIndex(handlers, p);
    }
  }

  lemma BlocksFollowRecords(handlers: seq<string>, records: seq<Output>)
    requires Distinct(handlers) && Scanned(handlers, records) && records != []
    ensures var n := |records| - 1;
            Blocks(handlers, Counts(handlers, Slots(records))) ==
            Blocks(handlers, Counts(handlers, Slots(records[..n]))) + [Slot(records[n].handler, records[n].index)]
  {
    var n := |records| - 1;
    var q, counts := IndexOf(handlers, records[n].handler), Counts(handlers, Slots(records[..n]));
    CountsGrow(handlers, records);
    forall p | q < p < |handlers| ensures counts[p] == 0 {
      LaterHandlersAreEmpty(handlers, records, p);
    }
    BlocksGrow(handlers, counts, q);
  }

  lemma SlotsSnoc(records: seq<Output>)
    requires records != []
    ensures var n := |records| - 1;
            Slots(records) == Slots(records[..n]) + [Slot(records[n].handler, records[n].index)]
  {}

  lemma {:induction false} ScannedIsBlocks(handlers: seq<string>, records: seq<Output>)
    requires Distinct(handlers) && Scanned(handlers, records)
    ensures Slots(records) == Blocks(handlers, Counts(handlers, Slots(records)))
  {
    if records == [] {
      assert Slots(records) == [];
      NoBlocks(handlers, Counts(handlers, []));
    } else {
      ScannedPrefix(handlers, records);
      ScannedIsBlocks(handlers, records[..|records| - 1]);
      BlocksFollowRecords(handlers, records);
      SlotsSnoc(records);
    }
  }

  lemma {:induction false} NoBlocks(handlers: seq<string>, counts: seq<nat>)
    requires |handlers| == |counts| && forall p :: 0 <= p < |counts| ==> counts[p] == 0
    ensures Blocks(handlers, counts) == []
  {
    if handlers != [] {
      NoBlocks(handlers[..|handlers| - 1], counts[..|handlers| - 1]);
    }
  }

  // ---- Whole blocks pass the scan ----

  lemma {:induction false} HandlerIndex(handlers: seq<string>, p: nat)
    requires Distinct(handlers) && p < |handlers|
    ensures IndexOf(handlers, handlers[p]) == p
  {
    assert handlers[IndexOf(handlers, handlers[p])] == handlers[p];
  }

  /** A slot of the blocks names a listed handler, and later slots are strictly further on. */
  lemma {:induction false} BlocksAscend(handlers: seq<string>, counts: seq<nat>, all: seq<string>, i: nat, j: nat)
    requires Distinct(all) && |handlers| == |counts| && handlers <= all
    requires i <= j < |Blocks(handlers, counts)|
    ensures var b := Blocks(handlers, counts);
            && b[i].handler in handlers && b[j].handler in handlers
            && (i < j ==> || IndexOf(all, b[i].handler) < IndexOf(all, b[j].handler)
                          || (b[i].handler == b[j].handler && b[i].index < b[j].index))
  {
    var n := |handlers| - 1;
    var front := Blocks(handlers[..n], counts[..n]);
    assert handlers == handlers[..n] + [handlers[n]];
    HandlerIndex(all, n);
    if j < |front| {
      BlocksAscend(handlers[..n], counts[..n], all, i, j);
    } else if i < |front| {
      BlocksAscend(handlers[..n], counts[..n], all, i, i);
      var p :| 0 <= p < n && handlers[p] == front[i].handler;
      HandlerIndex(all, p);
    }
  }

  lemma {:induction false} IndexesAppend(a: seq<Slot>, b: seq<Slot>, h: string)
    ensures Indexes(a + b, h) == Indexes(a, h) + Indexes(b, h)
  {
    if b == [] {
      assert a + b == a;
    } else {
      var n := |b| - 1;
      assert (a + b)[..|a| + n] == a + b[..n];
      IndexesAppend(a, b[..n], h);
    }
  }

  lemma {:induction false} IndexesOfBlock(handler: string, count: nat, h: string)
    ensures |Indexes(Block(handler, count), h)| == (if h == handler then count else 0)
    ensures IsRange(Indexes(Block(handler, count), h))
  {
    if count > 0 {
      assert Block(handler, count)[..count - 1] == Block(handler, count - 1);
      IndexesOfBlock(handler, count - 1, h);
    }
  }

  lemma {:induction false} IndexesOfBlocks(handlers: seq<string>, counts: seq<nat>, h: string)
    requires Distinct(handlers) && |handlers| == |counts|
    ensures IsRange(Indexes(Blocks(handlers, counts), h))
    ensures h !in handlers ==> Indexes(Blocks(handlers, counts), h) == []
  {
    if handlers != [] {
      var n := |handlers| - 1;
      assert handlers == handlers[..n] + [handlers[n]];
      IndexesOfBlocks(handlers[..n], counts[..n], h);
      IndexesOfBlock(handlers[n], counts[n], h);
      IndexesAppend(Blocks(handlers[..n], counts[..n]), Block(handlers[n], counts[n]), h);
      assert handlers[n] !in handlers[..n];
    }
  }

  lemma BlocksAreScanned(handlers: seq<string>, records: seq<Output>, counts: seq<nat>)
    requires Distinct(handlers) && |counts| == |handlers| && Slots(records) == Blocks(handlers, counts)
    ensures Scanned(handlers, records)
  {
    forall i | 0 <= i < |records| ensures records[i].handler in handlers {
      BlocksAscend(handlers, counts, handlers, i, i);
      assert Slots(records)[i].handler == records[i].handler;
    }
    forall i | 0 < i < |records| ensures KeyLess(KeyOf(handlers, records[i - 1]), KeyOf(handlers, records[i])) {
      BlocksAscend(handlers, counts, handlers, i - 1, i);
      assert Slots(records)[i - 1] == Slot(records[i - 1].handler, records[i - 1].index);
    }
    forall h ensures IsRange(Indexes(Slots(records), h)) {
      IndexesOfBlocks(handlers, counts, h);
    }
  }

  /** The scan and the index check together accept exactly the whole-block sequences. */
  lemma ScannedExactlyBlocks(handlers: seq<string>, records: seq<Output>)
    requires Distinct(handlers)
    ensures Scanned(handlers, records) <==> WholeBlocks(handlers, records)
  {
    if Scanned(handlers, records) {
      ScannedIsBlocks(handlers, records);
    }
    if WholeBlocks(handlers, records) {
      var counts: seq<nat> :| |counts| == |handlers| && Slots(records) == Blocks(handlers, counts);
      BlocksAreScanned(handlers, records, counts);
    }
  }

  /** No two records of a canonical plan fill one slot, although the scan's key also carries the id. */
  lemma SlotsAreDistinct(context: Context, handlers: seq<string>, records: seq<Output>, i: nat, j: nat)
    requires Distinct(handlers) && Canonical(context, handlers, records) && i < j < |records|
    ensures Slots(records)[i] != Slots(records)[j]
  {
    var counts: seq<nat> :| |counts| == |handlers| && Slots(records) == Blocks(handlers, counts);
    BlocksAscend(handlers, counts, handlers, i, j);
  }

  /** The id in the key is what makes the index check necessary: two records of one slot with
      ascending ids pass the key scan. */
  lemma KeyScanAloneAdmitsASharedSlot(context: Context)
    ensures var a, b := Output("x", context, "h", 0), Output("y", context, "h", 0);
            && KeyLess(KeyOf(["h"], a), KeyOf(["h"], b))
            && !Canonical(context, ["h"], [a, b])
  {
    var a, b := Output("x", context, "h", 0), Output("y", context, "h", 0);
    if Canonical(context, ["h"], [a, b]) {
      SlotsAreDistinct(context, ["h"], [a, b], 0, 1);
    }
  }

  ghost predicate KeysAscend(context: Context, handlers: seq<string>, records: seq<Output>, upTo: nat)
    requires upTo <= |records|
  {
    && (forall j :: 0 <= j < upTo ==> records[j].context == context && records[j].handler in handlers)
    && (forall j :: 0 < j < upTo ==> KeyLess(KeyOf(handlers, records[j - 1]), KeyOf(handlers, records[j])))
  }

  ghost predicate Collected(indexes: map<string, seq<nat>>, slots: seq<Slot>) {
    forall h :: Indexes(slots, h) == if h in indexes then indexes[h] else []
  }

  lemma CollectedGrows(indexes: map<string, seq<nat>>, slots: seq<Slot>, i: nat)
    requires i < |slots| && Collected(indexes, slots[..i])
    ensures var s := slots[i];
            var grown := (if s.handler in indexes then indexes[s.handler] else []) + [s.index];
            Collected(indexes[s.handler := grown], slots[..i + 1])
  {
    assert slots[..i + 1][..i] == slots[..i];
  }

  /** What one more record needs, and that a record without it spoils the whole sequence. */
  lemma KeysStep(context: Context, handlers: seq<string>, records: seq<Output>, i: nat)
    requires i < |records| && KeysAscend(context, handlers, records, i)
    ensures var r := records[i];
            KeysAscend(context, handlers, records, i + 1) <==>
            && r.context == context && r.handler in handlers
            && (i > 0 ==> KeyLess(KeyOf(handlers, records[i - 1]), KeyOf(handlers, r)))
    ensures KeysAscend(context, handlers, records, |records|) ==> KeysAscend(context, handlers, records, i + 1)
  {}

  /** The record loop: previous_key and indexes_by_handler. */
  method ScanRecords(context: Context, handlers: seq<string>, records: seq<Output>)
    returns (ok: bool, indexes: map<string, seq<nat>>)
    ensures ok <==> KeysAscend(context, handlers, records, |records|)
    ensures ok ==> Collected(indexes, Slots(records))
  {
    var previous: Option<Key> := None;
    indexes := map[];
    var i := 0;
    assert Slots(records)[..0] == [];
    while i < |records|
      invariant 0 <= i <= |records|
      invariant KeysAscend(context, handlers, records, i)
      invariant previous == if i == 0 then None else Some(KeyOf(handlers, records[i - 1]))
      invariant Collected(indexes, Slots(records)[..i])
    {
      var r := records[i];
      KeysStep(context, handlers, records, i);
      if r.context != context || r.handler !in handlers {
        return false, indexes;
      }
      var key := KeyOf(handlers, r);
      if previous.Some? && !KeyLess(previous.value, key) {
        return false, indexes;
      }
      previous := Some(key);
      CollectedGrows(indexes, Slots(records), i);
      indexes := indexes[r.handler := (if r.handler in indexes then indexes[r.handler] else []) + [r.index]];
      i := i + 1;
    }
    assert Slots(records)[..i] == Slots(records);
    ok := true;
  }

  /** The index check, handler by handler. */
  method CheckIndexes(indexes: map<string, seq<nat>>) returns (ok: bool)
    ensures ok <==> forall h :: h in indexes ==> IsRange(indexes[h])
  {
    var rest := indexes.Keys;
    while rest != {}
      invariant rest <= indexes.Keys
      invariant forall h :: h in indexes && h !in rest ==> IsRange(indexes[h])
      decreases rest
    {
      var h :| h in rest;
      if !IsRange(indexes[h]) {
        return false;
      }
      rest := rest - {h};
    }
    ok := true;
  }

  lemma ChecksMeanCanonical(context: Context, handlers: seq<string>, records: seq<Output>)
    requires Distinct(handlers)
    ensures Canonical(context, handlers, records) <==>
            && UniqueRecordIds(records)
            && KeysAscend(context, handlers, records, |records|)
            && EveryHandlerCounts(Slots(records))
  {
    ScannedExactlyBlocks(handlers, records);
    if Canonical(context, handlers, records) {
      assert Scanned(handlers, records);
    }
    if KeysAscend(context, handlers, records, |records|) && EveryHandlerCounts(Slots(records)) {
      assert Scanned(handlers, records);
    }
  }

  lemma CollectedRanges(indexes: map<string, seq<nat>>, slots: seq<Slot>)
    requires Collected(indexes, slots)
    ensures EveryHandlerCounts(slots) <==> forall h :: h in indexes ==> IsRange(indexes[h])
  {
    if EveryHandlerCounts(slots) {
      forall h | h in indexes ensures IsRange(indexes[h]) {
        assert IsRange(Indexes(slots, h));
      }
    }
    if forall h :: h in indexes ==> IsRange(indexes[h]) {
      forall h ensures IsRange(Indexes(slots, h)) {
        assert h !in indexes ==> Indexes(slots, h) == [];
      }
    }
  }

  /** _validate_plan accepts exactly the canonical plans. */
  method ValidatePlan(context: Context, handlers: seq<string>, records: seq<Output>) returns (ok: bool)
    requires Distinct(handlers)
    ensures ok <==> Canonical(context, handlers, records)
  {
    ChecksMeanCanonical(context, handlers, records);
    if !forall i, j :: 0 <= i < j < |records| ==> records[i].id != records[j].id {
      return false;
    }
    var indexes;
    ok, indexes := ScanRecords(context, handlers, records);
    if ok {
      CollectedRanges(indexes, Slots(records));
      ok := CheckIndexes(indexes);
    }
  }
}
