/** The cross-venue frame: its checks, and why the frame that is built from selections passes them. */
module MarketFrame {
  import opened Wrappers
  import opened Ordering
  import opened LatestSelection
  import opened HealthSelection

  datatype FrameError = WrongInstrumentInFrame | NewerThanFrame | DuplicateStream | UnsortedObservations
                      | WrongInstrumentInHealth | HealthNewerThanFrame | DuplicateScope | UnsortedHealth
                      | ConflictingSources | ConflictingInstruments

  function Sources(observations: seq<Observation>, health: seq<Health>): seq<Source> {
    seq(|observations|, i requires 0 <= i < |observations| => observations[i].source) +
    seq(|health|, i requires 0 <= i < |health| => health[i].source)
  }

  function Instruments(observations: seq<Observation>, health: seq<Health>): seq<Instrument> {
    seq(|observations|, i requires 0 <= i < |observations| => observations[i].instrument) + Named(health)
  }

  function Named(health: seq<Health>): seq<Instrument> {
    if health == [] then []
    else (match health[0].instrument case Some(i) => [i] case None => []) + Named(health[1..])
  }

  /** One description per id. */
  ghost predicate OneSourcePerId(sources: seq<Source>) {
    forall a, b :: a in sources && b in sources && a.id == b.id ==> a == b
  }

  ghost predicate OneInstrumentPerId(instruments: seq<Instrument>) {
    forall a, b :: a in instruments && b in instruments && a.id == b.id ==> a == b
  }

  ghost predicate AuthorityConsistent(observations: seq<Observation>, health: seq<Health>) {
    OneSourcePerId(Sources(observations, health)) && OneInstrumentPerId(Instruments(observations, health))
  }

  /** The descriptor loop finds a conflict exactly when some id has two descriptions. */
  method CheckSources(sources: seq<Source>) returns (ok: bool)
    ensures ok <==> OneSourcePerId(sources)
  {
    var seen: map<string, Source> := map[];
    var i := 0;
    while i < |sources|
      invariant 0 <= i <= |sources|
      invariant forall j :: 0 <= j < i ==> sources[j].id in seen && seen[sources[j].id] == sources[j]
      invariant forall k :: k in seen ==> seen[k] in sources && seen[k].id == k
    {
      var s := sources[i];
      if s.id !in seen {
        seen := seen[s.id := s];
      } else if seen[s.id] != s {
        assert s in sources;
        return false;
      }
      i := i + 1;
    }
    ok := true;
  }

  method CheckInstruments(instruments: seq<Instrument>) returns (ok: bool)
    ensures ok <==> OneInstrumentPerId(instruments)
  {
    var seen: map<string, Instrument> := map[];
    var i := 0;
    while i < |instruments|
      invariant 0 <= i <= |instruments|
      invariant forall j :: 0 <= j < i ==>
                  instruments[j].id in seen && seen[instruments[j].id] == instruments[j]
      invariant forall k :: k in seen ==> seen[k] in instruments && seen[k].id == k
    {
      var x := instruments[i];
      if x.id !in seen {
        seen := seen[x.id := x];
      } else if seen[x.id] != x {
        assert x in instruments;
        return false;
      }
      i := i + 1;
    }
    ok := true;
  }

  // ---- The frame's checks ----

  ghost predicate ObservationsAccepted(logical: string, asOf: int, observations: seq<Observation>) {
    && (forall i :: 0 <= i < |observations| ==> AdmissionError(logical, asOf, observations[i]).None?)
    && (forall i, j :: 0 <= i < j < |observations| ==> KeyLess(KeyOf(observations[i]), KeyOf(observations[j])))
  }

  ghost predicate HealthAccepted(logical: string, asOf: int, health: seq<Health>) {
    && (forall i :: 0 <= i < |health| ==> HealthError(logical, asOf, health[i]).None?)
    && (forall i, j :: 0 <= i < j < |health| ==> TupleLess(ScopeOf(health[i]), ScopeOf(health[j])))
  }

  /** What the frame requires: one admissible record per stream and one per scope, both in strict key
      order, and one description per source and instrument. */
  ghost predicate FrameAccepts(logical: string, asOf: int, observations: seq<Observation>, health: seq<Health>) {
    && ObservationsAccepted(logical, asOf, observations)
    && HealthAccepted(logical, asOf, health)
    && AuthorityConsistent(observations, health)
  }

  /** sorted(observations, key=stream key) == observations. */
  predicate ObservationsSorted(observations: seq<Observation>) {
    forall i, j :: 0 <= i < j < |observations| ==> !KeyLess(KeyOf(observations[j]), KeyOf(observations[i]))
  }

  predicate HealthSorted(health: seq<Health>) {
    forall i, j :: 0 <= i < j < |health| ==> !TupleLess(ScopeOf(health[j]), ScopeOf(health[i]))
  }

  ghost predicate DistinctStreams(logical: string, asOf: int, observations: seq<Observation>, upTo: nat)
    requires upTo <= |observations|
  {
    && (forall i :: 0 <= i < upTo ==> AdmissionError(logical, asOf, observations[i]).None?)
    && (forall i, j :: 0 <= i < j < upTo ==> KeyOf(observations[i]) != KeyOf(observations[j]))
  }

  /** The observation loop with its key set. */
  method ScanObservations(logical: string, asOf: int, observations: seq<Observation>)
    returns (error: Option<FrameError>)
    ensures error.None? <==> DistinctStreams(logical, asOf, observations, |observations|)
  {
    var keys: set<StreamKey> := {};
    var i := 0;
    while i < |observations|
      invariant 0 <= i <= |observations|
      invariant DistinctStreams(logical, asOf, observations, i)
      invariant forall k :: k in keys <==> exists j :: 0 <= j < i && KeyOf(observations[j]) == k
    {
      var o := observations[i];
      if o.instrument.logical != logical {
        return Some(WrongInstrumentInFrame);
      }
      if o.provenance.receivedAt > asOf {
        return Some(NewerThanFrame);
      }
      if KeyOf(o) in keys {
        return Some(DuplicateStream);
      }
      keys := keys + {KeyOf(o)};
      i := i + 1;
    }
    error := None;
  }

  ghost predicate DistinctScopes(logical: string, asOf: int, health: seq<Health>, upTo: nat)
    requires upTo <= |health|
  {
    && (forall i :: 0 <= i < upTo ==> HealthError(logical, asOf, health[i]).None?)
    && (forall i, j :: 0 <= i < j < upTo ==> ScopeOf(health[i]) != ScopeOf(health[j]))
  }

  /** The health loop with its key set. */
  method ScanHealth(logical: string, asOf: int, health: seq<Health>) returns (error: Option<FrameError>)
    ensures error.None? <==> DistinctScopes(logical, asOf, health, |health|)
  {
    var scopes: set<seq<string>> := {};
    var i := 0;
    while i < |health|
      invariant 0 <= i <= |health|
      invariant DistinctScopes(logical, asOf, health, i)
      invariant forall s :: s in scopes <==> exists j :: 0 <= j < i && ScopeOf(health[j]) == s
    {
      var h := health[i];
      if h.instrument.Some? && h.instrument.value.logical != logical {
        return Some(WrongInstrumentInHealth);
      }
      if h.evaluatedAt > asOf {
        return Some(HealthNewerThanFrame);
      }
      if ScopeOf(h) in scopes {
        return Some(DuplicateScope);
      }
      scopes := scopes + {ScopeOf(h)};
      i := i + 1;
    }
    error := None;
  }

  /** Distinct and sorted is strictly ascending. */
  lemma DistinctAndSorted(logical: string, asOf: int, observations: seq<Observation>, health: seq<Health>)
    ensures DistinctStreams(logical, asOf, observations, |observations|) && ObservationsSorted(observations) <==>
            ObservationsAccepted(logical, asOf, observations)
    ensures DistinctScopes(logical, asOf, health, |health|) && HealthSorted(health) <==>
            HealthAccepted(logical, asOf, health)
  {
    StreamsDistinctAndSorted(logical, asOf, observations);
    ScopesDistinctAndSorted(logical, asOf, health);
  }

  lemma StreamsDistinctAndSorted(logical: string, asOf: int, observations: seq<Observation>)
    ensures DistinctStreams(logical, asOf, observations, |observations|) && ObservationsSorted(observations) <==>
            ObservationsAccepted(logical, asOf, observations)
  {
    KeyLessStrictTotal();
    if ObservationsAccepted(logical, asOf, observations) {
      forall i, j | 0 <= i < j < |observations| ensures KeyOf(observations[i]) != KeyOf(observations[j]) {
        assert KeyLess(KeyOf(observations[i]), KeyOf(observations[j]));
      }
    }
  }

  lemma ScopesDistinctAndSorted(logical: string, asOf: int, health: seq<Health>)
    ensures DistinctScopes(logical, asOf, health, |health|) && HealthSorted(health) <==>
            HealthAccepted(logical, asOf, health)
  {
    TupleLessStrictTotal();
    if HealthAccepted(logical, asOf, health) {
      forall i, j | 0 <= i < j < |health| ensures ScopeOf(health[i]) != ScopeOf(health[j]) {
        assert TupleLess(ScopeOf(health[i]), ScopeOf(health[j]));
      }
    }
  }

  /** The frame's checks in the frame's order: both loops, both sorts, then the authority check. */
  method ValidateFrame(logical: string, asOf: int, observations: seq<Observation>, health: seq<Health>)
    returns (error: Option<FrameError>)
    ensures error.None? <==> FrameAccepts(logical, asOf, observations, health)
  {
    DistinctAndSorted(logical, asOf, observations, health);
    error := ScanObservations(logical, asOf, observations);
    if error.Some? {
      return;
    }
    error := ScanHealth(logical, asOf, health);
    if error.Some? {
      return;
    }
    if !ObservationsSorted(observations) {
      return Some(UnsortedObservations);
    }
    if !HealthSorted(health) {
      return Some(UnsortedHealth);
    }
    error := CheckAuthority(observations, health);
  }

  /** validate_market_frame_authority_consistency. */
  method CheckAuthority(observations: seq<Observation>, health: seq<Health>) returns (error: Option<FrameError>)
    ensures error.None? <==> AuthorityConsistent(observations, health)
  {
    var sources := CheckSources(Sources(observations, health));
    if !sources {
      return Some(ConflictingSources);
    }
    var instruments := CheckInstruments(Instruments(observations, health));
    error := if instruments then None else Some(ConflictingInstruments);
  }

  lemma {:induction false} NamedMembers(health: seq<Health>)
    ensures forall x :: x in Named(health) <==> exists h :: h in health && h.instrument == Some(x)
  {
    if health != [] {
      NamedMembers(health[1..]);
      assert health == [health[0]] + health[1..];
    }
  }

  lemma SourceMembers(observations: seq<Observation>, health: seq<Health>)
    ensures forall s :: s in Sources(observations, health) <==>
              (exists o :: o in observations && o.source == s) || (exists h :: h in health && h.source == s)
    ensures forall x :: x in Instruments(observations, health) <==>
              || (exists o :: o in observations && o.instrument == x)
              || (exists h :: h in health && h.instrument == Some(x))
  {
    NamedMembers(health);
    var fromObservations := seq(|observations|, i requires 0 <= i < |observations| => observations[i].source);
    var fromHealth := seq(|health|, i requires 0 <= i < |health| => health[i].source);
    var instruments := seq(|observations|, i requires 0 <= i < |observations| => observations[i].instrument);
    forall o | o in observations ensures o.source in fromObservations && o.instrument in instruments {
      var i :| 0 <= i < |observations| && observations[i] == o;
      assert fromObservations[i] == o.source && instruments[i] == o.instrument;
    }
    forall h | h in health ensures h.source in fromHealth {
      var i :| 0 <= i < |health| && health[i] == h;
      assert fromHealth[i] == h.source;
    }
  }

  /** Keeping fewer observations and snapshots cannot create a conflict. */
  lemma AuthoritySurvivesSelection(all: seq<Observation>, health: seq<Health>, some: seq<Observation>,
                                   kept: seq<Health>)
    requires AuthorityConsistent(all, health)
    requires forall o :: o in some ==> o in all
    requires forall h :: h in kept ==> h in health
    ensures AuthorityConsistent(some, kept)
  {
    SourceMembers(all, health);
    SourceMembers(some, kept);
  }

  /** Whatever selection returns was in the input. */
  lemma {:induction false} FoldDraws(logical: string, asOf: int, selected: Selected, rest: seq<Observation>)
    requires Fold(logical, asOf, selected, rest).Ok?
    ensures var m := Fold(logical, asOf, selected, rest).value;
            && (forall k :: k in m ==> m[k] in rest || (k in selected && m[k] == selected[k]))
            && (forall k :: k in m <==> k in selected || exists o :: o in rest && KeyOf(o) == k)
    decreases |rest|
  {
    if rest != [] {
      assert rest == [rest[0]] + rest[1..];
      FoldDraws(logical, asOf, Consider(logical, asOf, selected, rest[0]).value, rest[1..]);
    }
  }

  ghost predicate Represented(chosen: seq<Observation>, key: StreamKey) {
    exists i :: 0 <= i < |chosen| && KeyOf(chosen[i]) == key
  }

  /** A selection holds exactly one observation of every input stream, in stream order, none newer
      than the frame. */
  lemma SelectionShape(logical: string, asOf: int, all: seq<Observation>)
    requires Select(logical, asOf, all).Ok?
    ensures var chosen := Select(logical, asOf, all).value;
            && (forall i :: 0 <= i < |chosen| ==> chosen[i] in all && AdmissionError(logical, asOf, chosen[i]).None?)
            && (forall i, j :: 0 <= i < j < |chosen| ==> KeyLess(KeyOf(chosen[i]), KeyOf(chosen[j])))
            && (forall o :: o in all ==> Represented(chosen, KeyOf(o)))
  {
    var m := Fold(logical, asOf, map[], all).value;
    FoldKeeps(logical, asOf, map[], all);
    FoldDraws(logical, asOf, map[], all);
    ListedKeys(logical, asOf, m);
    var chosen := Listed(m);
    forall o | o in all ensures Represented(chosen, KeyOf(o)) {
      assert KeyOf(o) in m;
    }
  }

  // ---- The builder ----

  /** Built from consistent inputs, the two selections pass every check of the frame. */
  lemma SelectionsMakeAFrame(logical: string, asOf: int, all: seq<Observation>, health: seq<Health>)
    requires Select(logical, asOf, all).Ok? && WeighAll(logical, asOf, map[], health).Ok?
    requires AuthorityConsistent(all, health)
    ensures FrameAccepts(logical, asOf, Select(logical, asOf, all).value,
                         ListedHealth(WeighAll(logical, asOf, map[], health).value))
  {
    SelectionShape(logical, asOf, all);
    HealthShape(logical, asOf, health);
    var kept := ListedHealth(WeighAll(logical, asOf, map[], health).value);
    assert forall h :: h in kept ==> h in health;
    AuthoritySurvivesSelection(all, health, Select(logical, asOf, all).value, kept);
  }

  datatype Frame = Frame(observations: seq<Observation>, health: seq<Health>)

  datatype BuildError = Authority(f: FrameError) | Observing(o: Failure) | Monitoring(h: HealthFailure)

  /** build_cross_venue_market_frame: it answers exactly when the inputs agree on their authorities and
      both selections succeed; the frame's own checks never raise on what it built. */
  method BuildFrame(logical: string, asOf: int, all: seq<Observation>, health: seq<Health>)
    returns (r: Result<Frame, BuildError>)
    ensures r.Ok? <==>
            && AuthorityConsistent(all, health)
            && Select(logical, asOf, all).Ok?
            && WeighAll(logical, asOf, map[], health).Ok?
    ensures r.Ok? ==>
              && r.value.observations == Select(logical, asOf, all).value
              && r.value.health == ListedHealth(WeighAll(logical, asOf, map[], health).value)
              && FrameAccepts(logical, asOf, r.value.observations, r.value.health)
  {
    var conflict := CheckAuthority(all, health);
    if conflict.Some? {
      return Err(Authority(conflict.value));
    }
    var selected := SelectLatest(logical, asOf, all);
    if selected.Err? {
      return Err(Observing(selected.error));
    }
    var kept := LatestHealth(logical, asOf, health);
    if kept.Err? {
      return Err(Monitoring(kept.error));
    }
    var listed := SortHealth(kept.value);
    SelectionsMakeAFrame(logical, asOf, all, health);
    var invalid := ValidateFrame(logical, asOf, selected.value, listed);
    assert invalid.None?;
    r := Ok(Frame(selected.value, listed));
  }
}
