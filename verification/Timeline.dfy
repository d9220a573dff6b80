/** Replay timelines: the accepted order of a set of events is decided by the events alone. */
module Timeline {
  import opened Wrappers
  import opened Ordering

  datatype Policy = EVENT_TIME_THEN_SEQUENCE | EVENT_TIME_THEN_KIND_THEN_SEQUENCE | SOURCE_ORDER | OTHER

  datatype Event = Event(id: string, batch: string, dataset: string, record: string, kind: string,
                         instrument: string, time: int, sequence: nat, order: nat, hash: Option<string>)

  datatype Window = Window(start: int, end: int)

  datatype Status = PLANNED | BUILT | VALIDATED | INVALIDATED

  datatype Record = Record(window: Window, policy: Policy, batches: seq<string>, datasets: seq<string>,
                           events: seq<Event>, status: Status)

  /** The sort keys: (time, sequence, id), or with the kind before the sequence. */
  predicate KeyLess(policy: Policy, a: Event, b: Event) {
    || a.time < b.time
    || (a.time == b.time &&
        if policy == EVENT_TIME_THEN_SEQUENCE then BySequence(a, b)
        else StringLess(a.kind, b.kind) || (a.kind == b.kind && BySequence(a, b)))
  }

  predicate BySequence(a: Event, b: Event) {
    a.sequence < b.sequence || (a.sequence == b.sequence && StringLess(a.id, b.id))
  }

  lemma KeyLessAsymmetric(policy: Policy, a: Event, b: Event)
    ensures !(KeyLess(policy, a, b) && KeyLess(policy, b, a))
  {
    StringLessAsymmetric(a.id, b.id);
    StringLessAsymmetric(a.kind, b.kind);
    StringLessAsymmetric(a.kind, a.kind);
  }

  lemma KeyLessConnected(policy: Policy, a: Event, b: Event)
    requires a.id != b.id
    ensures KeyLess(policy, a, b) || KeyLess(policy, b, a)
  {
    StringLessConnected(a.id, b.id);
    if a.kind != b.kind {
      StringLessConnected(a.kind, b.kind);
    }
  }

  lemma KeyLessTransitive(policy: Policy, a: Event, b: Event, c: Event)
    requires KeyLess(policy, a, b) && KeyLess(policy, b, c)
    ensures KeyLess(policy, a, c)
  {
    if StringLess(a.id, b.id) && StringLess(b.id, c.id) {
      StringLessTransitive(a.id, b.id, c.id);
    }
    if StringLess(a.kind, b.kind) && StringLess(b.kind, c.kind) {
      StringLessTransitive(a.kind, b.kind, c.kind);
    }
  }

  // ---- sorted(...) == events ----

  /** Python's stable sort, by insertion. */
  function InsertSorted(policy: Policy, e: Event, s: seq<Event>): seq<Event> {
    if s == [] || !KeyLess(policy, s[0], e) then [e] + s else [s[0]] + InsertSorted(policy, e, s[1..])
  }

  function SortedBy(policy: Policy, events: seq<Event>): seq<Event> {
    if events == [] then [] else InsertSorted(policy, events[0], SortedBy(policy, events[1..]))
  }

  ghost predicate NonDecreasing(policy: Policy, events: seq<Event>) {
    forall i, j :: 0 <= i < j < |events| ==> !KeyLess(policy, events[j], events[i])
  }

  lemma {:induction false} InsertKeepsMembers(policy: Policy, e: Event, s: seq<Event>)
    ensures multiset(InsertSorted(policy, e, s)) == multiset{e} + multiset(s)
    ensures forall x :: x in InsertSorted(policy, e, s) <==> x == e || x in s
  {
    if s != [] {
      assert s == [s[0]] + s[1..];
      InsertKeepsMembers(policy, e, s[1..]);
    }
  }

  /** In order: nothing comes before e. */
  ghost predicate NoneBefore(policy: Policy, e: Event, s: seq<Event>) {
    forall x :: x in s ==> !KeyLess(policy, x, e)
  }

  lemma OrderedHead(policy: Policy, s: seq<Event>)
    requires s != []
    ensures NonDecreasing(policy, s) <==> NonDecreasing(policy, s[1..]) && NoneBefore(policy, s[0], s[1..])
  {
    if NonDecreasing(policy, s) {
      forall x | x in s[1..] ensures !KeyLess(policy, x, s[0]) {
        var i :| 0 <= i < |s| - 1 && s[1..][i] == x;
        assert s[i + 1] == x;
      }
    }
    if NonDecreasing(policy, s[1..]) && NoneBefore(policy, s[0], s[1..]) {
      forall i, j | 0 <= i < j < |s| ensures !KeyLess(policy, s[j], s[i]) {
        assert s[j] == s[1..][j - 1];
      }
    }
  }

  lemma {:induction false} InsertKeepsOrder(policy: Policy, e: Event, s: seq<Event>)
    requires NonDecreasing(policy, s)
    ensures NonDecreasing(policy, InsertSorted(policy, e, s))
    ensures NoneBefore(policy, e, s) ==> InsertSorted(policy, e, s) == [e] + s
  {
    var r := InsertSorted(policy, e, s);
    OrderedHead(policy, r);
    if s == [] {
    } else if KeyLess(policy, s[0], e) {
      OrderedHead(policy, s);
      InsertKeepsOrder(policy, e, s[1..]);
      InsertKeepsMembers(policy, e, s[1..]);
      KeyLessAsymmetric(policy, s[0], e);
      assert s[0] in s;
    } else {
      OrderedHead(policy, s);
      assert r[1..] == s;
      forall x | x in s ensures !KeyLess(policy, x, e) {
        assert x == s[0] || x in s[1..];
        NotBefore(policy, e, s[0], x, x == s[0]);
      }
    }
  }

  /** If b is not before a and c is not before b, then c is not before a. */
  lemma NotBefore(policy: Policy, a: Event, b: Event, c: Event, same: bool)
    requires !KeyLess(policy, b, a)
    requires same ==> b == c
    requires !same ==> !KeyLess(policy, c, b)
    ensures !KeyLess(policy, c, a)
  {
    if !same && KeyLess(policy, c, a) {
      if a.time == b.time == c.time && policy != EVENT_TIME_THEN_SEQUENCE {
        KindNotBefore(a, b, c);
      }
      if a.id != b.id {
        StringLessConnected(a.id, b.id);
      }
      if c.id != b.id {
        StringLessConnected(c.id, b.id);
      }
      if StringLess(c.id, a.id) && StringLess(a.id, b.id) {
        StringLessTransitive(c.id, a.id, b.id);
      }
      StringLessAsymmetric(b.id, c.id);
    }
  }

  lemma KindNotBefore(a: Event, b: Event, c: Event)
    requires !StringLess(b.kind, a.kind) && !StringLess(c.kind, b.kind)
    ensures !StringLess(c.kind, a.kind)
    ensures c.kind == a.kind ==> b.kind == a.kind
  {
    if a.kind != b.kind {
      StringLessConnected(a.kind, b.kind);
    }
    if b.kind != c.kind {
      StringLessConnected(b.kind, c.kind);
    }
    if StringLess(c.kind, a.kind) {
      StringLessAsymmetric(c.kind, a.kind);
      if StringLess(a.kind, b.kind) {
        StringLessTransitive(c.kind, a.kind, b.kind);
      }
    }
    if StringLess(a.kind, b.kind) && StringLess(b.kind, c.kind) {
      StringLessTransitive(a.kind, b.kind, c.kind);
      StringLessAsymmetric(a.kind, c.kind);
    }
    StringLessAsymmetric(a.kind, b.kind);
  }

  /** Sorting gives a permutation in order, and leaves exactly the ordered sequences as they are. */
  lemma {:induction false} SortedByIsSort(policy: Policy, events: seq<Event>)
    ensures NonDecreasing(policy, SortedBy(policy, events))
    ensures multiset(SortedBy(policy, events)) == multiset(events)
    ensures SortedBy(policy, events) == events <==> NonDecreasing(policy, events)
  {
    if events != [] {
      var rest := events[1..];
      assert events == [events[0]] + rest;
      SortedByIsSort(policy, rest);
      InsertKeepsOrder(policy, events[0], SortedBy(policy, rest));
      InsertKeepsMembers(policy, events[0], SortedBy(policy, rest));
      OrderedHead(policy, events);
    }
  }

  // ---- Accepted timelines ----

  ghost predicate UniqueIds(events: seq<Event>) {
    forall i, j :: 0 <= i < j < |events| ==> events[i].id != events[j].id
  }

  ghost predicate UniqueRecords(events: seq<Event>) {
    forall i, j :: 0 <= i < j < |events| ==> (events[i].batch, events[i].record) != (events[j].batch, events[j].record)
  }

  ghost predicate NoRepeats(names: seq<string>) {
    forall i, j :: 0 <= i < j < |names| ==> names[i] != names[j]
  }

  predicate Sorting(policy: Policy) {
    policy == EVENT_TIME_THEN_SEQUENCE || policy == EVENT_TIME_THEN_KIND_THEN_SEQUENCE
  }

  /** The checks of _validate_timeline that do not look at the order. */
  ghost predicate ContentAccepted(t: Record) {
    && (t.status == VALIDATED ==> t.batches != [] && t.datasets != [] && t.events != [])
    && NoRepeats(t.batches) && NoRepeats(t.datasets)
    && UniqueIds(t.events) && UniqueRecords(t.events)
    && (forall e :: e in t.events ==> t.window.start <= e.time < t.window.end)
    && (t.events != [] ==>
          && (forall b :: b in t.batches <==> exists e :: e in t.events && e.batch == b)
          && (forall d :: d in t.datasets <==> exists e :: e in t.events && e.dataset == d))
  }

  ghost predicate OrderAccepted(t: Record) {
    && (forall i :: 0 <= i < |t.events| ==> t.events[i].order == i)
    && (Sorting(t.policy) ==> SortedBy(t.policy, t.events) == t.events)
  }

  ghost predicate Accepted(t: Record) {
    ContentAccepted(t) && OrderAccepted(t)
  }

  /** The event without its place in the timeline. */
  function Content(e: Event): Event {
    e.(order := 0)
  }

  function Contents(events: seq<Event>): seq<Event> {
    seq(|events|, i requires 0 <= i < |events| => Content(events[i]))
  }

  function Numbered(events: seq<Event>): seq<Event> {
    seq(|events|, i requires 0 <= i < |events| => events[i].(order := i))
  }

  lemma OrderedIsAscending(policy: Policy, events: seq<Event>)
    requires NonDecreasing(policy, events) && UniqueIds(events)
    ensures Ascending((a, b) => KeyLess(policy, a, b), Contents(events))
  {
    forall i, j | 0 <= i < j < |events| ensures KeyLess(policy, Contents(events)[i], Contents(events)[j]) {
      KeyLessConnected(policy, events[i], events[j]);
    }
  }

  lemma AscendingContentsAgree(policy: Policy, one: seq<Event>, two: seq<Event>)
    requires NonDecreasing(policy, one) && UniqueIds(one) && NonDecreasing(policy, two) && UniqueIds(two)
    requires forall c :: c in Contents(one) <==> c in Contents(two)
    ensures Contents(one) == Contents(two)
  {
    var less := (a, b) => KeyLess(policy, a, b);
    forall a, b ensures !(less(a, b) && less(b, a)) {
      KeyLessAsymmetric(policy, a, b);
    }
    OrderedIsAscending(policy, one);
    OrderedIsAscending(policy, two);
    AscendingIsUnique(less, Contents(one), Contents(two));
  }

  /** Under a sorting policy, two accepted timelines with the same events hold the same sequence. */
  lemma OrderIsDeterminedByContent(one: Record, two: Record)
    requires Accepted(one) && Accepted(two) && one.policy == two.policy && Sorting(one.policy)
    requires forall c :: c in Contents(one.events) <==> c in Contents(two.events)
    ensures one.events == two.events
  {
    SortedByIsSort(one.policy, one.events);
    SortedByIsSort(two.policy, two.events);
    AscendingContentsAgree(one.policy, one.events, two.events);
    forall i | 0 <= i < |one.events| ensures |two.events| == |one.events| && one.events[i] == two.events[i] {
      assert Contents(one.events)[i] == Contents(two.events)[i];
    }
  }

  /** Under a sorting policy event time never goes back as the order index grows. */
  lemma TimeNeverGoesBack(t: Record, i: nat, j: nat)
    requires Accepted(t) && Sorting(t.policy) && i <= j < |t.events|
    ensures t.events[i].order <= t.events[j].order && t.events[i].time <= t.events[j].time
  {
    SortedByIsSort(t.policy, t.events);
    assert i < j ==> !KeyLess(t.policy, t.events[j], t.events[i]);
  }

  lemma PermutationKeepsUnique(p: seq<Event>, s: seq<Event>)
    requires multiset(p) == multiset(s) && UniqueIds(s) && UniqueRecords(s)
    ensures UniqueIds(p) && UniqueRecords(p)
    ensures forall x :: x in p <==> x in s
  {
    forall x ensures x in p <==> x in s {
      assert x in p <==> x in multiset(p);
      assert x in s <==> x in multiset(s);
    }
    forall i, j | 0 <= i < j < |p|
      ensures p[i].id != p[j].id && (p[i].batch, p[i].record) != (p[j].batch, p[j].record)
    {
      assert p[i] in s && p[j] in s;
      var a: nat :| a < |s| && s[a] == p[i];
      var b: nat :| b < |s| && s[b] == p[j];
      if a == b {
        TwiceInside(p, i, j);
        OnceInside(s, a);
      }
    }
  }

  lemma TwiceInside<T>(p: seq<T>, i: nat, j: nat)
    requires i < j < |p| && p[i] == p[j]
    ensures multiset(p)[p[i]] >= 2
  {
    assert p == p[..i] + [p[i]] + p[i + 1..j] + [p[j]] + p[j + 1..];
  }

  lemma OnceInside(s: seq<Event>, a: nat)
    requires UniqueIds(s) && a < |s|
    ensures multiset(s)[s[a]] == 1
  {
    assert s == s[..a] + [s[a]] + s[a + 1..];
    assert s[a] !in s[..a] && s[a] !in s[a + 1..];
  }

  lemma SortingKeepsEvents(policy: Policy, arrival: seq<Event>)
    requires UniqueIds(arrival) && UniqueRecords(arrival)
    ensures var sorted := SortedBy(policy, arrival);
            && NonDecreasing(policy, sorted) && UniqueIds(sorted) && UniqueRecords(sorted)
            && |sorted| == |arrival| && forall x :: x in sorted <==> x in arrival
  {
    var sorted := SortedBy(policy, arrival);
    SortedByIsSort(policy, arrival);
    PermutationKeepsUnique(sorted, arrival);
    assert |sorted| == |multiset(sorted)| == |multiset(arrival)| == |arrival|;
  }

  /** Any set of events that passes the content checks has an accepted timeline: sort and number it. */
  lemma SortingMakesAnAcceptedTimeline(t: Record, arrival: seq<Event>)
    requires ContentAccepted(t.(events := arrival)) && Sorting(t.policy)
    ensures Accepted(t.(events := Numbered(SortedBy(t.policy, arrival))))
  {
    var sorted := SortedBy(t.policy, arrival);
    SortingKeepsEvents(t.policy, arrival);
    NumberedIsOrdered(t.policy, sorted);
    NumberedCorresponds(sorted, arrival);
    NumberedContent(t, arrival, Numbered(sorted));
  }

  lemma NumberedIsOrdered(policy: Policy, sorted: seq<Event>)
    requires NonDecreasing(policy, sorted)
    ensures SortedBy(policy, Numbered(sorted)) == Numbered(sorted)
  {
    var made := Numbered(sorted);
    forall i, j | 0 <= i < j < |made| ensures !KeyLess(policy, made[j], made[i]) {
      assert !KeyLess(policy, sorted[j], sorted[i]);
    }
    SortedByIsSort(policy, made);
  }

  /** Numbering keeps ids, records and contents. */
  lemma NumberedCorresponds(sorted: seq<Event>, arrival: seq<Event>)
    requires UniqueIds(sorted) && UniqueRecords(sorted) && forall x :: x in sorted <==> x in arrival
    ensures UniqueIds(Numbered(sorted)) && UniqueRecords(Numbered(sorted))
    ensures SameContents(Numbered(sorted), arrival)
  {
    var made := Numbered(sorted);
    forall i, j | 0 <= i < j < |made|
      ensures made[i].id != made[j].id && (made[i].batch, made[i].record) != (made[j].batch, made[j].record)
    {
      assert sorted[i].id != sorted[j].id;
    }
    NumberedMembers(sorted);
    forall e | e in made ensures exists x :: x in arrival && Content(x) == Content(e) {
      var i :| 0 <= i < |sorted| && e == sorted[i].(order := i);
      assert sorted[i] in arrival && Content(sorted[i]) == Content(e);
    }
    forall x | x in arrival ensures exists e :: e in made && Content(x) == Content(e) {
      assert x in sorted;
      var i :| 0 <= i < |sorted| && sorted[i] == x;
      assert made[i] in made && Content(made[i]) == Content(x);
    }
  }

  ghost predicate SameContents(made: seq<Event>, arrival: seq<Event>) {
    && (forall e :: e in made ==> exists x :: x in arrival && Content(x) == Content(e))
    && (forall x :: x in arrival ==> exists e :: e in made && Content(x) == Content(e))
  }

  lemma NumberedMembers(s: seq<Event>)
    ensures forall e :: e in Numbered(s) ==> exists i :: 0 <= i < |s| && e == s[i].(order := i)
    ensures forall i :: 0 <= i < |s| ==> s[i].(order := i) in Numbered(s)
  {
    forall i | 0 <= i < |s| ensures s[i].(order := i) in Numbered(s) {
      assert Numbered(s)[i] == s[i].(order := i);
    }
  }

  lemma NumberedContent(t: Record, arrival: seq<Event>, made: seq<Event>)
    requires ContentAccepted(t.(events := arrival)) && UniqueIds(made) && UniqueRecords(made) && |made| == |arrival|
    requires SameContents(made, arrival)
    ensures ContentAccepted(t.(events := made))
  {}

  function Swap<T>(s: seq<T>, k: nat): seq<T>
    requires k + 1 < |s|
  {
    s[k := s[k + 1]][k + 1 := s[k]]
  }

  /** Without a sorting policy nothing fixes the order: swapping two neighbours and renumbering is
      accepted just as well. */
  lemma OtherPoliciesFixNoOrder(t: Record, k: nat)
    requires Accepted(t) && !Sorting(t.policy) && k + 1 < |t.events|
    ensures var swapped := Numbered(Swap(t.events, k));
            Accepted(t.(events := swapped)) && swapped != t.events
  {
    var exchanged := Swap(t.events, k);
    SwapKeepsUnique(t.events, k);
    RenumberingIsAccepted(t, exchanged);
    assert Numbered(exchanged)[k].id == t.events[k + 1].id != t.events[k].id;
  }

  /** Without a sorting policy, any rearrangement of the events is accepted once renumbered. */
  lemma RenumberingIsAccepted(t: Record, events: seq<Event>)
    requires Accepted(t) && !Sorting(t.policy) && |events| == |t.events|
    requires UniqueIds(events) && UniqueRecords(events) && forall x :: x in events <==> x in t.events
    ensures Accepted(t.(events := Numbered(events)))
  {
    NumberedCorresponds(events, t.events);
    NumberedContent(t, t.events, Numbered(events));
  }

  /** Where the element at i came from. */
  function Swapped(k: nat, i: nat): nat {
    if i == k then k + 1 else if i == k + 1 then k else i
  }

  lemma SwapKeepsUnique(s: seq<Event>, k: nat)
    requires k + 1 < |s| && UniqueIds(s) && UniqueRecords(s)
    ensures UniqueIds(Swap(s, k)) && UniqueRecords(Swap(s, k))
    ensures forall x :: x in Swap(s, k) <==> x in s
  {
    var p := Swap(s, k);
    forall i, j | 0 <= i < j < |p|
      ensures p[i].id != p[j].id && (p[i].batch, p[i].record) != (p[j].batch, p[j].record)
    {
      Differ(s, Swapped(k, i), Swapped(k, j));
    }
    forall x | x in s ensures x in p {
      var i: nat :| i < |s| && s[i] == x;
      assert p[Swapped(k, i)] == x;
    }
  }

  lemma Differ(s: seq<Event>, a: nat, b: nat)
    requires UniqueIds(s) && UniqueRecords(s) && a < |s| && b < |s| && a != b
    ensures s[a].id != s[b].id && (s[a].batch, s[a].record) != (s[b].batch, s[b].record)
  {}
}
