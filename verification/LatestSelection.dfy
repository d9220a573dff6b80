/** Choosing the latest market observation of each stream: a dictionary fold with a comparison that
    uses sequence numbers inside a session and receive time across sessions. */
module LatestSelection {
  import opened Wrappers
  import opened Ordering

  datatype Source = Source(id: string, descriptor: string)

  datatype Instrument = Instrument(id: string, logical: string, reference: string)

  datatype Provenance = Provenance(receivedAt: int, monotonicNs: nat, sequence: Option<nat>,
                                   connection: string, generation: nat)

  /** payload stands for the rest of the content; the id is the digest of all content. */
  datatype Observation = Observation(id: string, source: Source, instrument: Instrument,
                                     provenance: Provenance, kind: string, payload: string)

  datatype StreamKey = StreamKey(source: string, instrument: string, kind: string)

  datatype Comparison = Newer | Older | Same | Ambiguous

  datatype Failure = WrongInstrument | FromTheFuture | AmbiguousLatest

  type Selected = map<StreamKey, Observation>

  function KeyOf(o: Observation): StreamKey {
    StreamKey(o.source.id, o.instrument.id, o.kind)
  }

  function ByNumber(a: int, b: int): Comparison {
    if a > b then Newer else if a < b then Older else Ambiguous
  }

  predicate SameSession(a: Provenance, b: Provenance) {
    a.connection == b.connection && a.generation == b.generation
  }

  function CompareUnsequenced(a: Provenance, b: Provenance): Comparison {
    if a.receivedAt != b.receivedAt then ByNumber(a.receivedAt, b.receivedAt)
    else ByNumber(a.monotonicNs, b.monotonicNs)
  }

  /** _compare_market_observations: how the candidate stands to the current one. */
  function Compare(candidate: Observation, current: Observation): Comparison {
    var a, b := candidate.provenance, current.provenance;
    if candidate.id == current.id then Same
    else if SameSession(a, b) then
      match (a.sequence, b.sequence)
      case (Some(i), Some(j)) => ByNumber(i, j)
      case (None, None) => CompareUnsequenced(a, b)
      case (_, _) => Ambiguous
    else ByNumber(a.receivedAt, b.receivedAt)
  }

  function AdmissionError(logical: string, asOf: int, o: Observation): Option<Failure> {
    if o.instrument.logical != logical then Some(WrongInstrument)
    else if o.provenance.receivedAt > asOf then Some(FromTheFuture)
    else None
  }

  /** One turn of the loop. */
  function Consider(logical: string, asOf: int, selected: Selected, o: Observation): Result<Selected, Failure> {
    if AdmissionError(logical, asOf, o).Some? then Err(AdmissionError(logical, asOf, o).value)
    else if KeyOf(o) !in selected then Ok(selected[KeyOf(o) := o])
    else
      match Compare(o, selected[KeyOf(o)])
      case Ambiguous => Err(AmbiguousLatest)
      case Newer => Ok(selected[KeyOf(o) := o])
      case _ => Ok(selected)
  }

  function Fold(logical: string, asOf: int, selected: Selected, observations: seq<Observation>)
    : Result<Selected, Failure>
    decreases |observations|
  {
    if observations == [] then Ok(selected)
    else
      match Consider(logical, asOf, selected, observations[0])
      case Err(e) => Err(e)
      case Ok(next) => Fold(logical, asOf, next, observations[1..])
  }

  /** Tuple order on stream keys. */
  predicate KeyLess(a: StreamKey, b: StreamKey) {
    || StringLess(a.source, b.source)
    || (a.source == b.source && StringLess(a.instrument, b.instrument))
    || (a.source == b.source && a.instrument == b.instrument && StringLess(a.kind, b.kind))
  }

  lemma KeyLessStrictTotal()
    ensures StrictTotal(KeyLess)
  {
    StringLessStrictTotal();
    forall a, b ensures !(KeyLess(a, b) && KeyLess(b, a)) {
      StringLessAsymmetric(a.source, b.source);
      StringLessAsymmetric(a.instrument, b.instrument);
      StringLessAsymmetric(a.kind, b.kind);
      StringLessAsymmetric(a.source, a.source);
      StringLessAsymmetric(a.instrument, a.instrument);
    }
    forall a, b, c | KeyLess(a, b) && KeyLess(b, c) ensures KeyLess(a, c) {
      KeyLessTransitive(a, b, c);
    }
    forall a: StreamKey, b: StreamKey | a != b ensures KeyLess(a, b) || KeyLess(b, a) {
      if a.source != b.source {
        StringLessConnected(a.source, b.source);
      } else if a.instrument != b.instrument {
        StringLessConnected(a.instrument, b.instrument);
      } else {
        StringLessConnected(a.kind, b.kind);
      }
    }
  }

  lemma KeyLessTransitive(a: StreamKey, b: StreamKey, c: StreamKey)
    requires KeyLess(a, b) && KeyLess(b, c)
    ensures KeyLess(a, c)
  {
    if StringLess(a.source, b.source) && StringLess(b.source, c.source) {
      StringLessTransitive(a.source, b.source, c.source);
    } else if a.source == b.source == c.source {
      if StringLess(a.instrument, b.instrument) && StringLess(b.instrument, c.instrument) {
        StringLessTransitive(a.instrument, b.instrument, c.instrument);
      } else if a.instrument == b.instrument == c.instrument {
        StringLessTransitive(a.kind, b.kind, c.kind);
      }
    }
  }

  /** The dictionary's values in key order. */
  ghost function Listed(selected: Selected): (s: seq<Observation>)
    ensures |s| == |SortedKeys(selected)|
    ensures forall i :: 0 <= i < |s| ==>
            SortedKeys(selected)[i] in selected && s[i] == selected[SortedKeys(selected)[i]]
  {
    var keys := SortedKeys(selected);
    assert forall i :: 0 <= i < |keys| ==> keys[i] in keys;
    seq(|keys|, i requires 0 <= i < |keys| => selected[keys[i]])
  }

  ghost function SortedKeys(selected: Selected): (keys: seq<StreamKey>)
    ensures Ascending(KeyLess, keys) && forall k :: k in keys <==> k in selected
  {
    KeyLessStrictTotal();
    SortedElements(KeyLess, selected.Keys)
  }

  /** select_latest_market_observations on values. */
  ghost function Select(logical: string, asOf: int, observations: seq<Observation>): Result<seq<Observation>, Failure> {
    match Fold(logical, asOf, map[], observations)
    case Err(e) => Err(e)
    case Ok(selected) => Ok(Listed(selected))
  }

  /** select_latest_market_observations: the loop over the dictionary, then the sort. */
  method SelectLatest(logical: string, asOf: int, observations: seq<Observation>)
    returns (r: Result<seq<Observation>, Failure>)
    ensures r == Select(logical, asOf, observations)
  {
    var selected: Selected := map[];
    var i := 0;
    assert observations[0..] == observations;
    while i < |observations|
      invariant 0 <= i <= |observations|
      invariant Fold(logical, asOf, map[], observations) == Fold(logical, asOf, selected, observations[i..])
    {
      var o := observations[i];
      assert observations[i..][1..] == observations[i + 1..];
      var error := AdmissionError(logical, asOf, o);
      if error.Some? {
        return Err(error.value);
      }
      if KeyOf(o) !in selected {
        selected := selected[KeyOf(o) := o];
      } else {
        var comparison := Compare(o, selected[KeyOf(o)]);
        if comparison == Ambiguous {
          return Err(AmbiguousLatest);
        }
        if comparison == Newer {
          selected := selected[KeyOf(o) := o];
        }
      }
      i := i + 1;
    }
    KeyLessStrictTotal();
    var keys := SortSet(KeyLess, selected.Keys);
    assert forall j :: 0 <= j < |keys| ==> keys[j] in keys;
    r := Ok(seq(|keys|, j requires 0 <= j < |keys| => selected[keys[j]]));
    assert r.value == Listed(selected);
  }

  // ---- Incremental selection ----

  lemma {:induction false} FoldAppend(logical: string, asOf: int, selected: Selected, a: seq<Observation>,
                                      b: seq<Observation>)
    ensures Fold(logical, asOf, selected, a + b) ==
            match Fold(logical, asOf, selected, a)
            case Err(e) => Err(e)
            case Ok(mid) => Fold(logical, asOf, mid, b)
    decreases |a|
  {
    if a == [] {
      assert a + b == b;
    } else {
      assert (a + b)[0] == a[0] && (a + b)[1..] == a[1..] + b;
      if Consider(logical, asOf, selected, a[0]).Ok? {
        FoldAppend(logical, asOf, Consider(logical, asOf, selected, a[0]).value, a[1..], b);
      }
    }
  }

  /** Every selected observation sits under its own key and passed the checks. */
  ghost predicate WellKept(logical: string, asOf: int, selected: Selected) {
    forall k :: k in selected ==> KeyOf(selected[k]) == k && AdmissionError(logical, asOf, selected[k]).None?
  }

  lemma {:induction false} FoldKeeps(logical: string, asOf: int, selected: Selected, observations: seq<Observation>)
    requires WellKept(logical, asOf, selected) && Fold(logical, asOf, selected, observations).Ok?
    ensures WellKept(logical, asOf, Fold(logical, asOf, selected, observations).value)
    decreases |observations|
  {
    if observations != [] {
      FoldKeeps(logical, asOf, Consider(logical, asOf, selected, observations[0]).value, observations[1..]);
    }
  }

  /** Folding admissible observations of new, distinct streams just collects them. */
  lemma {:induction false} FoldCollects(logical: string, asOf: int, from: Selected, values: seq<Observation>)
    requires forall i :: 0 <= i < |values| ==>
             AdmissionError(logical, asOf, values[i]).None? && KeyOf(values[i]) !in from
    requires forall i, j :: 0 <= i < j < |values| ==> KeyOf(values[i]) != KeyOf(values[j])
    ensures Fold(logical, asOf, from, values).Ok?
    ensures var all := Fold(logical, asOf, from, values).value;
            && (forall k :: k in from ==> k in all && all[k] == from[k])
            && (forall i :: 0 <= i < |values| ==> KeyOf(values[i]) in all && all[KeyOf(values[i])] == values[i])
            && (forall k :: k in all ==> k in from || exists i :: 0 <= i < |values| && KeyOf(values[i]) == k)
    decreases |values|
  {
    if values != [] {
      var next, rest := from[KeyOf(values[0]) := values[0]], values[1..];
      assert forall i :: 0 <= i < |rest| ==> rest[i] == values[i + 1];
      FoldCollects(logical, asOf, next, rest);
      var all := Fold(logical, asOf, next, rest).value;
      forall i | 0 <= i < |values| ensures KeyOf(values[i]) in all && all[KeyOf(values[i])] == values[i] {
        assert i == 0 || values[i] == rest[i - 1];
      }
      forall k | k in all && k !in from ensures exists i :: 0 <= i < |values| && KeyOf(values[i]) == k {
        if k in next {
          assert KeyOf(values[0]) == k;
        } else {
          var i :| 0 <= i < |rest| && KeyOf(rest[i]) == k;
          assert KeyOf(values[i + 1]) == k;
        }
      }
    }
  }

  lemma ListedKeys(logical: string, asOf: int, selected: Selected)
    requires WellKept(logical, asOf, selected)
    ensures forall i :: 0 <= i < |Listed(selected)| ==>
              && KeyOf(Listed(selected)[i]) in selected
              && Listed(selected)[i] == selected[KeyOf(Listed(selected)[i])]
              && AdmissionError(logical, asOf, Listed(selected)[i]).None?
    ensures forall i, j :: 0 <= i < j < |Listed(selected)| ==>
            KeyLess(KeyOf(Listed(selected)[i]), KeyOf(Listed(selected)[j]))
    ensures forall i, j :: 0 <= i < j < |Listed(selected)| ==> KeyOf(Listed(selected)[i]) != KeyOf(Listed(selected)[j])
    ensures forall k :: k in selected ==> exists i :: 0 <= i < |Listed(selected)| && KeyOf(Listed(selected)[i]) == k
  {
    var keys, values := SortedKeys(selected), Listed(selected);
    KeyLessStrictTotal();
    forall k | k in selected ensures exists i :: 0 <= i < |values| && KeyOf(values[i]) == k {
      var i :| 0 <= i < |keys| && keys[i] == k;
      assert KeyOf(values[i]) == k;
    }
    forall i, j | 0 <= i < j < |values| ensures KeyLess(KeyOf(values[i]), KeyOf(values[j])) {
      assert KeyOf(values[i]) == keys[i] && KeyOf(values[j]) == keys[j];
    }
  }

  lemma FoldListed(logical: string, asOf: int, selected: Selected)
    requires WellKept(logical, asOf, selected)
    ensures Fold(logical, asOf, map[], Listed(selected)) == Ok(selected)
  {
    ListedKeys(logical, asOf, selected);
    FoldRebuilds(logical, asOf, selected, Listed(selected));
  }

  lemma FoldRebuilds(logical: string, asOf: int, selected: Selected, values: seq<Observation>)
    requires forall i :: 0 <= i < |values| ==>
               && KeyOf(values[i]) in selected && values[i] == selected[KeyOf(values[i])]
               && AdmissionError(logical, asOf, values[i]).None?
    requires forall i, j :: 0 <= i < j < |values| ==> KeyOf(values[i]) != KeyOf(values[j])
    requires forall k :: k in selected ==> exists i :: 0 <= i < |values| && KeyOf(values[i]) == k
    ensures Fold(logical, asOf, map[], values) == Ok(selected)
  {
    FoldCollects(logical, asOf, map[], values);
    var all := Fold(logical, asOf, map[], values).value;
    forall k ensures k in all <==> k in selected {
      if k in selected {
        var i :| 0 <= i < |values| && KeyOf(values[i]) == k;
      }
    }
    assert all == selected;
  }

  /** The selection of a longer history can start from the selection of its beginning, failures
      included. */
  lemma IncrementalSelection(logical: string, asOf: int, a: seq<Observation>, b: seq<Observation>)
    ensures Select(logical, asOf, a + b) ==
            match Select(logical, asOf, a)
            case Err(e) => Err(e)
            case Ok(chosen) => Select(logical, asOf, chosen + b)
  {
    FoldAppend(logical, asOf, map[], a, b);
    if Fold(logical, asOf, map[], a).Ok? {
      var mid := Fold(logical, asOf, map[], a).value;
      FoldKeeps(logical, asOf, map[], a);
      FoldListed(logical, asOf, mid);
      FoldAppend(logical, asOf, map[], Listed(mid), b);
    }
  }
}
