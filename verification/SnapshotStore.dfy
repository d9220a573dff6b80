/** The in-memory conversion-rate store: a map by id and, beside it, an index by asset pair. */
module SnapshotStore {
  import opened Wrappers
  import opened Ordering

  datatype Pair = Pair(base: string, target: string)

  /** content stands for rate, trust, health and the rest. */
  datatype Snapshot = Snapshot(id: Option<string>, pair: Pair, capturedAt: int, content: string)

  datatype Error = MissingId | IdCollision

  type ById = map<string, Snapshot>

  // ---- Specification ----

  function PutSnapshot(byId: ById, s: Snapshot): Result<ById, Error> {
    if s.id.None? then Err(MissingId)
    else if s.id.value !in byId then Ok(byId[s.id.value := s])
    else if byId[s.id.value] != s then Err(IdCollision)
    else Ok(byId)
  }

  /** The order max() uses: capture time, then id. */
  predicate Before(a: Snapshot, b: Snapshot)
    requires a.id.Some? && b.id.Some?
  {
    a.capturedAt < b.capturedAt || (a.capturedAt == b.capturedAt && StringLess(a.id.value, b.id.value))
  }

  /** Every snapshot sits under its own id. */
  ghost predicate Keyed(byId: ById) {
    forall k :: k in byId ==> byId[k].id == Some(k)
  }

  predicate Eligible(s: Snapshot, pair: Pair, cutoff: int) {
    s.pair == pair && s.capturedAt <= cutoff
  }

  /** The brute-force answer over the whole store: the last eligible snapshot, if there is one. */
  ghost predicate IsLatest(byId: ById, pair: Pair, cutoff: int, answer: Option<Snapshot>)
    requires Keyed(byId)
  {
    match answer
    case None => forall k :: k in byId ==> !Eligible(byId[k], pair, cutoff)
    case Some(s) =>
      && s.id.Some? && s.id.value in byId && byId[s.id.value] == s && Eligible(s, pair, cutoff)
      && forall k :: k in byId && byId[k] != s && Eligible(byId[k], pair, cutoff) ==> Before(byId[k], s)
  }

  lemma LatestIsUnique(byId: ById, pair: Pair, cutoff: int, one: Option<Snapshot>, two: Option<Snapshot>)
    requires Keyed(byId) && IsLatest(byId, pair, cutoff, one) && IsLatest(byId, pair, cutoff, two)
    ensures one == two
  {
    if one.Some? && two.Some? {
      StringLessAsymmetric(one.value.id.value, two.value.id.value);
    }
  }

  /** The store without some of its snapshots. */
  function Without(byId: ById, ids: set<string>): ById {
    map k | k in byId && k !in ids :: byId[k]
  }

  lemma OneMore(byId: ById, ids: set<string>, k: string)
    requires k in byId && k in ids
    ensures Without(byId, ids - {k}) == Without(byId, ids)[k := byId[k]]
  {}

  // ---- The store ----

  class InMemoryStore {
    var byId: ById
    var idsByPair: map<Pair, set<string>>

    /** The index lists exactly the stored ids of each pair. */
    ghost predicate Valid()
      reads this
    {
      && Keyed(byId)
      && (forall p, k :: p in idsByPair && k in idsByPair[p] ==> k in byId && byId[k].pair == p)
      && (forall k :: k in byId ==> byId[k].pair in idsByPair && k in idsByPair[byId[k].pair])
    }

    constructor ()
      ensures Valid() && byId == map[]
    {
      byId := map[];
      idsByPair := map[];
    }

    /** A new snapshot is added, an equal one changes nothing, and a refused one changes nothing. */
    method Put(s: Snapshot) returns (error: Option<Error>)
      requires Valid()
      modifies this
      ensures Valid()
      ensures match PutSnapshot(old(byId), s)
              case Ok(m) => byId == m && error == None
              case Err(e) => byId == old(byId) && idsByPair == old(idsByPair) && error == Some(e)
      ensures s.id.Some? && s.id.value in old(byId) ==> idsByPair == old(idsByPair)
    {
      if s.id.None? {
        return Some(MissingId);
      }
      var key := s.id.value;
      if key in byId {
        if byId[key] != s {
          return Some(IdCollision);
        }
        return None;
      }
      byId := byId[key := s];
      var ids := if s.pair in idsByPair then idsByPair[s.pair] else {};
      idsByPair := idsByPair[s.pair := ids + {key}];
      error := None;
    }

    /** Looking through the pair's index gives the brute-force answer over the whole store. */
    method LatestForPair(pair: Pair, cutoff: int) returns (answer: Option<Snapshot>)
      requires Valid()
      ensures IsLatest(byId, pair, cutoff, answer)
    {
      var rest := if pair in idsByPair then idsByPair[pair] else {};
      answer := None;
      while rest != {}
        invariant forall k :: k in rest ==> k in byId && byId[k].pair == pair
        invariant IsLatest(Without(byId, rest), pair, cutoff, answer)
        decreases rest
      {
        var k :| k in rest;
        var s := byId[k];
        ghost var seen := Without(byId, rest);
        if s.capturedAt <= cutoff {
          if answer.None? || Before(answer.value, s) {
            LaterReplaces(seen, pair, cutoff, answer, k, s);
            answer := Some(s);
          } else {
            EarlierStays(seen, pair, cutoff, answer.value, k, s);
          }
        }
        OneMore(byId, rest, k);
        rest := rest - {k};
      }
      assert Without(byId, rest) == byId;
    }

    /** All snapshots in id order. */
    method ListSnapshots() returns (listed: seq<Snapshot>)
      requires Valid()
      ensures |listed| == |byId|
      ensures forall i :: 0 <= i < |listed| ==>
              listed[i].id.Some? && listed[i].id.value in byId && byId[listed[i].id.value] == listed[i]
      ensures forall i, j :: 0 <= i < j < |listed| ==> StringLess(listed[i].id.value, listed[j].id.value)
    {
      StringLessStrictTotal();
      var keys := SortSet(StringLess, byId.Keys);
      assert forall i :: 0 <= i < |keys| ==> keys[i] in keys;
      AscendingHasSetSize(keys, byId.Keys);
      var stored := byId;
      listed := seq(|keys|, i requires 0 <= i < |keys| => stored[keys[i]]);
      assert forall i :: 0 <= i < |listed| ==> listed[i].id == Some(keys[i]);
    }
  }

  lemma {:induction false} AscendingHasSetSize(keys: seq<string>, s: set<string>)
    requires Ascending(StringLess, keys) && forall k :: k in keys <==> k in s
    ensures |keys| == |s|
  {
    if keys == [] {
      assert s == {};
    } else {
      StringLessStrictTotal();
      AscendingTail(StringLess, keys);
      assert keys[0] in s;
      AscendingHasSetSize(keys[1..], s - {keys[0]});
    }
  }

  lemma LaterReplaces(seen: ById, pair: Pair, cutoff: int, answer: Option<Snapshot>, k: string, s: Snapshot)
    requires Keyed(seen) && k !in seen && s.id == Some(k) && Eligible(s, pair, cutoff)
    requires IsLatest(seen, pair, cutoff, answer)
    requires answer.None? || Before(answer.value, s)
    ensures IsLatest(seen[k := s], pair, cutoff, Some(s))
  {
    forall j | j in seen && Eligible(seen[j], pair, cutoff) ensures Before(seen[j], s) {
      if seen[j] != answer.value && seen[j].capturedAt == answer.value.capturedAt == s.capturedAt {
        StringLessTransitive(j, answer.value.id.value, k);
      }
    }
  }

  lemma EarlierStays(seen: ById, pair: Pair, cutoff: int, best: Snapshot, k: string, s: Snapshot)
    requires Keyed(seen) && k !in seen && s.id == Some(k)
    requires IsLatest(seen, pair, cutoff, Some(best)) && !Before(best, s)
    ensures IsLatest(seen[k := s], pair, cutoff, Some(best))
  {
    StringLessConnected(best.id.value, k);
  }

  // ---- Histories of puts ----

  /** A refused put raises and leaves the store as it was. */
  function PutAll(byId: ById, puts: seq<Snapshot>): ById {
    if puts == [] then byId
    else
      var n := |puts| - 1;
      var before := PutAll(byId, puts[..n]);
      match PutSnapshot(before, puts[n])
      case Ok(m) => m
      case Err(_) => before
  }

  ghost predicate FirstOfItsId(puts: seq<Snapshot>, i: nat)
    requires i < |puts|
  {
    forall j :: 0 <= j < i ==> puts[j].id != puts[i].id
  }

  ghost predicate HasFirst(puts: seq<Snapshot>, k: string) {
    exists i :: 0 <= i < |puts| && puts[i].id == Some(k) && FirstOfItsId(puts, i)
  }

  /** The store holds under each id the first snapshot put with it. */
  ghost predicate HoldsFirsts(puts: seq<Snapshot>, byId: ById) {
    && (forall i :: 0 <= i < |puts| && puts[i].id.Some? && FirstOfItsId(puts, i) ==>
          puts[i].id.value in byId && byId[puts[i].id.value] == puts[i])
    && (forall k :: k in byId ==> HasFirst(puts, k))
  }

  /** After any puts, the store holds under each id the first snapshot put with it. */
  lemma {:induction false} FirstPutWins(puts: seq<Snapshot>)
    ensures Keyed(PutAll(map[], puts)) && HoldsFirsts(puts, PutAll(map[], puts))
  {
    if puts != [] {
      var n := |puts| - 1;
      FirstPutWins(puts[..n]);
      OnePutMore(puts, PutAll(map[], puts[..n]));
    }
  }

  lemma OnePutMore(puts: seq<Snapshot>, before: ById)
    requires puts != [] && Keyed(before) && HoldsFirsts(puts[..|puts| - 1], before)
    ensures var put := PutSnapshot(before, puts[|puts| - 1]);
            var after := if put.Ok? then put.value else before;
            Keyed(after) && HoldsFirsts(puts, after)
  {
    var n := |puts| - 1;
    var init, last := puts[..n], puts[n];
    forall i | 0 <= i < n ensures FirstOfItsId(puts, i) <==> FirstOfItsId(init, i) {}
    forall k | k in before ensures HasFirst(puts, k) {
      FirstStays(puts, k);
    }
    if last.id.Some? {
      if last.id.value in before {
        KnownIsNotFirst(puts, last.id.value);
      } else {
        IdIsNew(init, before, last.id.value);
        assert FirstOfItsId(puts, n);
      }
    }
  }

  lemma FirstStays(puts: seq<Snapshot>, k: string)
    requires puts != [] && HasFirst(puts[..|puts| - 1], k)
    ensures HasFirst(puts, k)
  {
    var init := puts[..|puts| - 1];
    var i :| 0 <= i < |init| && init[i].id == Some(k) && FirstOfItsId(init, i);
    assert FirstOfItsId(puts, i);
  }

  lemma KnownIsNotFirst(puts: seq<Snapshot>, k: string)
    requires puts != [] && HasFirst(puts[..|puts| - 1], k) && puts[|puts| - 1].id == Some(k)
    ensures !FirstOfItsId(puts, |puts| - 1)
  {
    var init := puts[..|puts| - 1];
    var i :| 0 <= i < |init| && init[i].id == Some(k) && FirstOfItsId(init, i);
    assert puts[i].id == puts[|puts| - 1].id;
  }

  /** An id the store does not hold was never put. */
  lemma IdIsNew(puts: seq<Snapshot>, byId: ById, k: string)
    requires k !in byId
    requires forall i :: 0 <= i < |puts| && puts[i].id.Some? && FirstOfItsId(puts, i) ==> puts[i].id.value in byId
    ensures forall i :: 0 <= i < |puts| ==> puts[i].id != Some(k)
  {
    if exists i :: 0 <= i < |puts| && puts[i].id == Some(k) {
      var i: nat :| i < |puts| && puts[i].id == Some(k);
      FindFirst(puts, i);
    }
  }

  lemma {:induction false} FindFirst(puts: seq<Snapshot>, i: nat)
    requires i < |puts|
    ensures exists j :: 0 <= j <= i && puts[j].id == puts[i].id && FirstOfItsId(puts, j)
  {
    if !FirstOfItsId(puts, i) {
      var j: nat :| j < i && puts[j].id == puts[i].id;
      FindFirst(puts, j);
    }
  }

  /** Ids are digests of the content. */
  ghost predicate IdsIdentify(puts: seq<Snapshot>) {
    forall a, b :: a in puts && b in puts && a.id == b.id ==> a == b
  }

  lemma StoredIsPut(puts: seq<Snapshot>, s: Snapshot)
    requires IdsIdentify(puts) && s.id.Some?
    ensures var byId := PutAll(map[], puts);
            s in puts <==> s.id.value in byId && byId[s.id.value] == s
  {
    FirstPutWins(puts);
    if s in puts {
      var i: nat :| i < |puts| && puts[i] == s;
      FindFirst(puts, i);
      var j :| 0 <= j <= i && puts[j].id == puts[i].id && FirstOfItsId(puts, j);
      assert puts[j] in puts;
    }
  }

  /** The order of the puts, and repeating them, changes no answer the store gives. */
  lemma PutOrderDoesNotMatter(one: seq<Snapshot>, two: seq<Snapshot>)
    requires IdsIdentify(one) && forall s :: s in one <==> s in two
    ensures PutAll(map[], one) == PutAll(map[], two)
  {
    StoreIncluded(one, two);
    StoreIncluded(two, one);
  }

  lemma StoreIncluded(one: seq<Snapshot>, two: seq<Snapshot>)
    requires IdsIdentify(one) && forall s :: s in one <==> s in two
    ensures forall k :: k in PutAll(map[], one) ==>
            k in PutAll(map[], two) && PutAll(map[], two)[k] == PutAll(map[], one)[k]
  {
    FirstPutWins(one);
    forall k | k in PutAll(map[], one)
      ensures k in PutAll(map[], two) && PutAll(map[], two)[k] == PutAll(map[], one)[k]
    {
      var s := PutAll(map[], one)[k];
      StoredIsPut(one, s);
      StoredIsPut(two, s);
    }
  }

  /** The latest among the puts themselves, whatever was indexed. */
  ghost predicate IsLatestPut(puts: seq<Snapshot>, pair: Pair, cutoff: int, answer: Option<Snapshot>) {
    match answer
    case None => forall s :: s in puts && s.id.Some? ==> !Eligible(s, pair, cutoff)
    case Some(s) =>
      && s in puts && s.id.Some? && Eligible(s, pair, cutoff)
      && forall t :: t in puts && t.id.Some? && t != s && Eligible(t, pair, cutoff) ==> Before(t, s)
  }

  /** The store's answer after a history of puts is the maximum over that history. */
  lemma AnswerIsMaximumOfHistory(puts: seq<Snapshot>, pair: Pair, cutoff: int, answer: Option<Snapshot>)
    requires IdsIdentify(puts)
    ensures Keyed(PutAll(map[], puts))
    ensures IsLatest(PutAll(map[], puts), pair, cutoff, answer) <==> IsLatestPut(puts, pair, cutoff, answer)
  {
    FirstPutWins(puts);
    var byId := PutAll(map[], puts);
    forall s: Snapshot | s.id.Some? ensures s in puts <==> s.id.value in byId && byId[s.id.value] == s {
      StoredIsPut(puts, s);
    }
    if IsLatest(byId, pair, cutoff, answer) {
      forall t | t in puts && t.id.Some? && Eligible(t, pair, cutoff)
        ensures answer.Some? && (t == answer.value || Before(t, answer.value))
      {
        assert byId[t.id.value] == t;
      }
    }
    if IsLatestPut(puts, pair, cutoff, answer) {
      forall k | k in byId && Eligible(byId[k], pair, cutoff) ensures byId[k] in puts {
        assert byId[k].id == Some(k);
      }
    }
  }
}
