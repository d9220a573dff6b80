/** When the latest observation does not depend on the order the observations arrive in. */
module SelectionOrder {
  import opened Wrappers
  import opened LatestSelection

  ghost predicate Permutes<T>(p: seq<T>, s: seq<T>) {
    multiset(p) == multiset(s)
  }

  /** Ids are digests of the content: equal ids mean equal observations. */
  ghost predicate IdsIdentify(all: seq<Observation>) {
    forall a, b :: a in all && b in all && a.id == b.id ==> a == b
  }

  ghost predicate Admissible(logical: string, asOf: int, all: seq<Observation>) {
    forall o :: o in all ==> AdmissionError(logical, asOf, o).None?
  }

  ghost predicate PairwiseComparable(all: seq<Observation>) {
    forall a, b :: a in all && b in all && a != b && KeyOf(a) == KeyOf(b) ==> Compare(a, b) != Ambiguous
  }

  /** Beats every other observation of its stream. */
  ghost predicate Winner(all: seq<Observation>, x: Observation) {
    x in all && forall y :: y in all && y != x && KeyOf(y) == KeyOf(x) ==> Compare(x, y) == Newer
  }

  ghost predicate HasWinner(all: seq<Observation>, key: StreamKey) {
    exists x :: Winner(all, x) && KeyOf(x) == key
  }

  ghost predicate EveryStreamHasWinner(all: seq<Observation>) {
    forall o :: o in all ==> HasWinner(all, KeyOf(o))
  }

  /** Selection succeeds, and every reordering of the input selects the same. */
  ghost predicate OrderIndependent(logical: string, asOf: int, all: seq<Observation>) {
    && Select(logical, asOf, all).Ok?
    && forall p :: Permutes(p, all) ==> Select(logical, asOf, p) == Select(logical, asOf, all)
  }

  lemma CompareIsAntisymmetric(a: Observation, b: Observation)
    ensures Compare(a, b) == Newer <==> Compare(b, a) == Older
    ensures Compare(a, b) == Ambiguous <==> Compare(b, a) == Ambiguous
    ensures Compare(a, b) == Same <==> a.id == b.id
  {}

  // ---- Winners make the order irrelevant ----

  /** Everything selected comes from the input, under its own key. */
  ghost predicate Drawn(selected: Selected, all: seq<Observation>) {
    forall k :: k in selected ==> selected[k] in all && KeyOf(selected[k]) == k
  }

  ghost predicate Holds(selected: Selected, x: Observation) {
    KeyOf(x) in selected && selected[KeyOf(x)] == x
  }

  ghost predicate Within(rest: seq<Observation>, all: seq<Observation>) {
    forall o :: o in rest ==> o in all
  }

  ghost predicate Sound(logical: string, asOf: int, all: seq<Observation>) {
    Admissible(logical, asOf, all) && IdsIdentify(all) && PairwiseComparable(all)
  }

  lemma ConsiderNeverFails(logical: string, asOf: int, selected: Selected, o: Observation, all: seq<Observation>)
    requires Sound(logical, asOf, all) && Drawn(selected, all) && o in all
    ensures Consider(logical, asOf, selected, o).Ok?
    ensures var next := Consider(logical, asOf, selected, o).value;
            Drawn(next, all) && next.Keys == selected.Keys + {KeyOf(o)}
  {
    if KeyOf(o) in selected {
      CompareIsAntisymmetric(o, selected[KeyOf(o)]);
    }
  }

  lemma ConsiderKeepsWinner(logical: string, asOf: int, selected: Selected, o: Observation, all: seq<Observation>,
                            x: Observation)
    requires Sound(logical, asOf, all) && Drawn(selected, all) && o in all
    requires Winner(all, x) && (o == x || Holds(selected, x))
    ensures Consider(logical, asOf, selected, o).Ok? && Holds(Consider(logical, asOf, selected, o).value, x)
  {
    ConsiderNeverFails(logical, asOf, selected, o, all);
    CompareIsAntisymmetric(o, x);
  }

  lemma {:induction false} FoldNeverFails(logical: string, asOf: int, selected: Selected, rest: seq<Observation>,
                                          all: seq<Observation>)
    requires Sound(logical, asOf, all) && Drawn(selected, all) && Within(rest, all)
    ensures Fold(logical, asOf, selected, rest).Ok?
    ensures var m := Fold(logical, asOf, selected, rest).value;
            Drawn(m, all) && forall k :: k in m <==> k in selected || exists o :: o in rest && KeyOf(o) == k
    decreases |rest|
  {
    if rest != [] {
      assert rest == [rest[0]] + rest[1..];
      ConsiderNeverFails(logical, asOf, selected, rest[0], all);
      FoldNeverFails(logical, asOf, Consider(logical, asOf, selected, rest[0]).value, rest[1..], all);
    }
  }

  lemma {:induction false} FoldKeepsWinner(logical: string, asOf: int, selected: Selected, rest: seq<Observation>,
                                           all: seq<Observation>, x: Observation)
    requires Sound(logical, asOf, all) && Drawn(selected, all) && Within(rest, all)
    requires Winner(all, x) && (x in rest || Holds(selected, x))
    ensures Fold(logical, asOf, selected, rest).Ok? && Holds(Fold(logical, asOf, selected, rest).value, x)
    decreases |rest|
  {
    if rest != [] {
      assert rest == [rest[0]] + rest[1..];
      ConsiderNeverFails(logical, asOf, selected, rest[0], all);
      if rest[0] == x || Holds(selected, x) {
        ConsiderKeepsWinner(logical, asOf, selected, rest[0], all, x);
      }
      FoldKeepsWinner(logical, asOf, Consider(logical, asOf, selected, rest[0]).value, rest[1..], all, x);
    }
  }

  lemma SameMembers<T>(p: seq<T>, s: seq<T>)
    requires Permutes(p, s)
    ensures forall x :: x in p <==> x in s
  {
    forall x ensures x in p <==> x in s {
      assert x in p <==> x in multiset(p);
      assert x in s <==> x in multiset(s);
    }
  }

  ghost predicate WinnerMap(all: seq<Observation>, m: Selected) {
    && (forall k :: k in m <==> exists o :: o in all && KeyOf(o) == k)
    && (forall k :: k in m ==> Winner(all, m[k]) && KeyOf(m[k]) == k)
  }

  /** With winners, any order folds to the map of winners. */
  lemma FoldIsWinners(logical: string, asOf: int, all: seq<Observation>, p: seq<Observation>)
    requires Sound(logical, asOf, all) && EveryStreamHasWinner(all) && Permutes(p, all)
    ensures Fold(logical, asOf, map[], p).Ok?
    ensures WinnerMap(all, Fold(logical, asOf, map[], p).value)
  {
    SameMembers(p, all);
    FoldNeverFails(logical, asOf, map[], p, all);
    var m := Fold(logical, asOf, map[], p).value;
    forall k | k in m ensures Winner(all, m[k]) && KeyOf(m[k]) == k {
      assert HasWinner(all, KeyOf(m[k]));
      var x :| Winner(all, x) && KeyOf(x) == KeyOf(m[k]);
      FoldKeepsWinner(logical, asOf, map[], p, all, x);
    }
  }

  lemma WinnersAreUnique(all: seq<Observation>, x: Observation, y: Observation)
    requires Winner(all, x) && Winner(all, y) && KeyOf(x) == KeyOf(y)
    ensures x == y
  {
    CompareIsAntisymmetric(x, y);
  }

  lemma WinnerMapIsUnique(all: seq<Observation>, m: Selected, n: Selected)
    requires WinnerMap(all, m) && WinnerMap(all, n)
    ensures m == n
  {
    assert forall k :: k in m <==> k in n;
    forall k | k in m ensures n[k] == m[k] {
      WinnersAreUnique(all, n[k], m[k]);
    }
  }

  lemma WinnersMakeOrderIrrelevant(logical: string, asOf: int, all: seq<Observation>)
    requires Sound(logical, asOf, all) && EveryStreamHasWinner(all)
    ensures OrderIndependent(logical, asOf, all)
  {
    FoldIsWinners(logical, asOf, all, all);
    forall p | Permutes(p, all) ensures Select(logical, asOf, p) == Select(logical, asOf, all) {
      FoldIsWinners(logical, asOf, all, p);
      WinnerMapIsUnique(all, Fold(logical, asOf, map[], p).value, Fold(logical, asOf, map[], all).value);
    }
  }

  // ---- Nothing weaker does ----

  function Copies<T(==)>(s: seq<T>, x: T): seq<T> {
    if s == [] then [] else (if s[0] == x then [x] else []) + Copies(s[1..], x)
  }

  function Others<T(==)>(s: seq<T>, x: T): seq<T> {
    if s == [] then [] else (if s[0] == x then [] else [s[0]]) + Others(s[1..], x)
  }

  lemma MultisetOfAppend<T>(a: seq<T>, b: seq<T>)
    ensures multiset(a + b) == multiset(a) + multiset(b)
  {}

  lemma {:induction false} CopiesAndOthers<T>(s: seq<T>, x: T)
    ensures multiset(s) == multiset(Copies(s, x)) + multiset(Others(s, x))
  {
    if s != [] {
      CopiesAndOthers(s[1..], x);
      assert s == [s[0]] + s[1..];
      MultisetOfAppend([s[0]], s[1..]);
      MultisetOfAppend([s[0]], Copies(s[1..], x));
      MultisetOfAppend([s[0]], Others(s[1..], x));
    }
  }

  lemma {:induction false} OthersMembers<T>(s: seq<T>, x: T)
    ensures forall y :: y in Others(s, x) <==> y in s && y != x
  {
    if s != [] {
      OthersMembers(s[1..], x);
      assert s == [s[0]] + s[1..];
    }
  }

  /** The input with all copies of x first, then all copies of y. */
  function Fronted<T(==)>(s: seq<T>, x: T, y: T): seq<T> {
    Copies(s, x) + (Copies(Others(s, x), y) + Others(Others(s, x), y))
  }

  lemma FrontedPermutes<T>(s: seq<T>, x: T, y: T)
    ensures Permutes(Fronted(s, x, y), s)
  {
    CopiesAndOthers(s, x);
    CopiesAndOthers(Others(s, x), y);
  }

  lemma {:induction false} FoldCopies(logical: string, asOf: int, selected: Selected, x: Observation,
                                      s: seq<Observation>)
    requires AdmissionError(logical, asOf, x).None? && s != [] && forall i :: 0 <= i < |s| ==> s[i] == x
    requires KeyOf(x) !in selected || Compare(x, selected[KeyOf(x)]) == Newer || selected[KeyOf(x)] == x
    ensures Fold(logical, asOf, selected, s) == Ok(selected[KeyOf(x) := x])
    decreases |s|
  {
    assert s[0] == x;
    var next := Consider(logical, asOf, selected, x).value;
    assert next == selected[KeyOf(x) := x];
    if |s| > 1 {
      FoldCopies(logical, asOf, next, x, s[1..]);
      assert next[KeyOf(x) := x] == next;
    } else {
      assert s[1..] == [];
    }
  }

  /** The input with all copies of x first folds to x, then goes on. */
  lemma FoldFronted(logical: string, asOf: int, all: seq<Observation>, x: Observation, y: Observation)
    requires Admissible(logical, asOf, all) && x in all && y in all && x != y
    ensures var ys, rest := Copies(Others(all, x), y), Others(Others(all, x), y);
            && Fold(logical, asOf, map[], Fronted(all, x, y)) == Fold(logical, asOf, map[KeyOf(x) := x], ys + rest)
            && ys != [] && ys[0] == y && (forall i :: 0 <= i < |ys| ==> ys[i] == y) && x !in rest
  {
    FrontedShape(all, x, y);
    var xs, ys, rest := Copies(all, x), Copies(Others(all, x), y), Others(Others(all, x), y);
    FoldAppend(logical, asOf, map[], xs, ys + rest);
    FoldCopies(logical, asOf, map[], x, xs);
    var none: Selected := map[];
    assert none[KeyOf(x) := x] == map[KeyOf(x) := x];
  }

  lemma {:induction false} CopiesShape<T>(s: seq<T>, x: T)
    ensures forall i :: 0 <= i < |Copies(s, x)| ==> Copies(s, x)[i] == x
    ensures x in s <==> Copies(s, x) != []
  {
    if s != [] {
      CopiesShape(s[1..], x);
    }
  }

  lemma FrontedShape<T>(s: seq<T>, x: T, y: T)
    requires x in s && y in s && x != y
    ensures Copies(s, x) != [] && forall i :: 0 <= i < |Copies(s, x)| ==> Copies(s, x)[i] == x
    ensures var ys := Copies(Others(s, x), y); ys != [] && ys[0] == y && forall i :: 0 <= i < |ys| ==> ys[i] == y
    ensures x !in Others(Others(s, x), y)
  {
    OthersMembers(s, x);
    assert y in Others(s, x);
    CopiesShape(s, x);
    CopiesShape(Others(s, x), y);
    OthersMembers(Others(s, x), y);
  }

  lemma {:induction false} FoldNeverReturns(logical: string, asOf: int, selected: Selected, x: Observation,
                                            rest: seq<Observation>)
    requires KeyOf(x) in selected && selected[KeyOf(x)] != x && x !in rest
    requires Fold(logical, asOf, selected, rest).Ok?
    ensures var m := Fold(logical, asOf, selected, rest).value; KeyOf(x) in m && m[KeyOf(x)] != x
    decreases |rest|
  {
    if rest != [] {
      FoldNeverReturns(logical, asOf, Consider(logical, asOf, selected, rest[0]).value, x, rest[1..]);
    }
  }

  /** Putting an incomparable pair first makes selection fail. */
  lemma AmbiguityCanFail(logical: string, asOf: int, all: seq<Observation>, x: Observation, y: Observation)
    requires Admissible(logical, asOf, all) && x in all && y in all && x != y && KeyOf(x) == KeyOf(y)
    requires Compare(y, x) == Ambiguous
    ensures Select(logical, asOf, Fronted(all, x, y)) == Err(AmbiguousLatest)
  {
    FoldFronted(logical, asOf, all, x, y);
    var ys, rest := Copies(Others(all, x), y), Others(Others(all, x), y);
    assert (ys + rest)[0] == y;
  }

  /** Putting x first and then what beats it makes selection end without x. */
  lemma BeatenCanLose(logical: string, asOf: int, all: seq<Observation>, x: Observation, y: Observation)
    requires Admissible(logical, asOf, all) && x in all && y in all && x != y && KeyOf(x) == KeyOf(y)
    requires Compare(y, x) == Newer
    requires Fold(logical, asOf, map[], Fronted(all, x, y)).Ok?
    ensures var m := Fold(logical, asOf, map[], Fronted(all, x, y)).value; KeyOf(x) in m && m[KeyOf(x)] != x
  {
    FoldFronted(logical, asOf, all, x, y);
    var ys, rest := Copies(Others(all, x), y), Others(Others(all, x), y);
    var one: Selected := map[KeyOf(x) := x];
    FoldAppend(logical, asOf, one, ys, rest);
    FoldCopies(logical, asOf, one, y, ys);
    FoldNeverReturns(logical, asOf, one[KeyOf(y) := y], x, rest);
  }

  /** The selection determines the dictionary it lists. */
  lemma SelectionDeterminesFold(logical: string, asOf: int, p: seq<Observation>, q: seq<Observation>)
    requires Select(logical, asOf, p).Ok? && Select(logical, asOf, p) == Select(logical, asOf, q)
    ensures Fold(logical, asOf, map[], p) == Fold(logical, asOf, map[], q)
  {
    FoldKeeps(logical, asOf, map[], p);
    FoldKeeps(logical, asOf, map[], q);
    FoldListed(logical, asOf, Fold(logical, asOf, map[], p).value);
    FoldListed(logical, asOf, Fold(logical, asOf, map[], q).value);
  }

  lemma OrderIndependenceNeedsComparable(logical: string, asOf: int, all: seq<Observation>)
    requires Admissible(logical, asOf, all) && OrderIndependent(logical, asOf, all)
    ensures PairwiseComparable(all)
  {
    forall a, b | a in all && b in all && a != b && KeyOf(a) == KeyOf(b) ensures Compare(a, b) != Ambiguous {
      if Compare(a, b) == Ambiguous {
        AmbiguityCanFail(logical, asOf, all, b, a);
        FrontedPermutes(all, b, a);
      }
    }
  }

  lemma OrderIndependenceNeedsWinners(logical: string, asOf: int, all: seq<Observation>)
    requires Admissible(logical, asOf, all) && IdsIdentify(all) && OrderIndependent(logical, asOf, all)
    ensures EveryStreamHasWinner(all)
  {
    OrderIndependenceNeedsComparable(logical, asOf, all);
    FoldNeverFails(logical, asOf, map[], all, all);
    var m := Fold(logical, asOf, map[], all).value;
    forall o | o in all ensures HasWinner(all, KeyOf(o)) {
      var x := m[KeyOf(o)];
      forall y | y in all && y != x && KeyOf(y) == KeyOf(x) ensures Compare(x, y) == Newer {
        SelectedIsUnbeaten(logical, asOf, all, m, x, y);
      }
      assert Winner(all, x);
    }
  }

  lemma SelectedIsUnbeaten(logical: string, asOf: int, all: seq<Observation>, m: Selected, x: Observation,
                           y: Observation)
    requires Sound(logical, asOf, all) && OrderIndependent(logical, asOf, all)
    requires Fold(logical, asOf, map[], all) == Ok(m) && Holds(m, x)
    requires x in all && y in all && y != x && KeyOf(y) == KeyOf(x)
    ensures Compare(x, y) == Newer
  {
    CompareIsAntisymmetric(x, y);
    if Compare(y, x) == Newer {
      FrontedPermutes(all, x, y);
      SelectionDeterminesFold(logical, asOf, Fronted(all, x, y), all);
      BeatenCanLose(logical, asOf, all, x, y);
    }
  }

  /** The exact condition: same-stream observations are pairwise comparable, and in every stream one
      observation beats all others. */
  lemma OrderIndependentExactly(logical: string, asOf: int, all: seq<Observation>)
    requires Admissible(logical, asOf, all) && IdsIdentify(all)
    ensures OrderIndependent(logical, asOf, all) <==> PairwiseComparable(all) && EveryStreamHasWinner(all)
  {
    if OrderIndependent(logical, asOf, all) {
      OrderIndependenceNeedsComparable(logical, asOf, all);
      OrderIndependenceNeedsWinners(logical, asOf, all);
    }
    if PairwiseComparable(all) && EveryStreamHasWinner(all) {
      WinnersMakeOrderIrrelevant(logical, asOf, all);
    }
  }

  // ---- A condition on the feeds that guarantees winners ----

  /** Inside a session a higher sequence number was never received earlier. */
  ghost predicate SequencesFollowTime(all: seq<Observation>) {
    forall a, b :: a in all && b in all && KeyOf(a) == KeyOf(b)
                   && SameSession(a.provenance, b.provenance)
                   && a.provenance.sequence.Some? && b.provenance.sequence.Some?
                   && a.provenance.sequence.value > b.provenance.sequence.value ==>
      a.provenance.receivedAt >= b.provenance.receivedAt
  }

  lemma NewerIsTransitive(all: seq<Observation>, a: Observation, b: Observation, c: Observation)
    requires PairwiseComparable(all) && SequencesFollowTime(all) && IdsIdentify(all)
    requires a in all && b in all && c in all && KeyOf(a) == KeyOf(b) == KeyOf(c)
    requires Compare(a, b) == Newer && Compare(b, c) == Newer
    ensures Compare(a, c) == Newer
  {
    CompareIsAntisymmetric(a, c);
    CompareIsAntisymmetric(a, b);
  }

  lemma {:induction false} FindWinner(all: seq<Observation>, some: seq<Observation>, key: StreamKey)
    returns (w: Observation)
    requires PairwiseComparable(all) && SequencesFollowTime(all) && IdsIdentify(all)
    requires forall o :: o in some ==> o in all
    requires exists o :: o in some && KeyOf(o) == key
    ensures w in some && KeyOf(w) == key
    ensures forall y :: y in some && y != w && KeyOf(y) == key ==> Compare(w, y) == Newer
  {
    var o, rest := some[0], some[1..];
    assert some == [o] + rest;
    if exists x :: x in rest && KeyOf(x) == key {
      w := FindWinner(all, rest, key);
      if KeyOf(o) == key && o != w {
        CompareIsAntisymmetric(o, w);
        if Compare(o, w) == Newer {
          var beaten := w;
          w := o;
          forall y | y in some && y != w && KeyOf(y) == key ensures Compare(w, y) == Newer {
            if y != beaten {
              NewerIsTransitive(all, w, beaten, y);
            }
          }
        }
      }
    } else {
      w := o;
    }
  }

  /** Comparable observations whose sequence numbers follow time have one latest per stream, for
      every arrival order. */
  lemma TimelySequencesAreOrderIndependent(logical: string, asOf: int, all: seq<Observation>)
    requires Admissible(logical, asOf, all) && IdsIdentify(all)
    requires PairwiseComparable(all) && SequencesFollowTime(all)
    ensures EveryStreamHasWinner(all) && OrderIndependent(logical, asOf, all)
  {
    forall o | o in all ensures HasWinner(all, KeyOf(o)) {
      var w := FindWinner(all, all, KeyOf(o));
      assert Winner(all, w);
    }
    WinnersMakeOrderIrrelevant(logical, asOf, all);
  }

  function Tick(id: string, connection: string, sequence: nat, receivedAt: int): Observation {
    Observation(id, Source("s", ""), Instrument("i", "BTC/USDT", ""),
                Provenance(receivedAt, 0, Some(sequence), connection, 0), "TRADE", "")
  }

  /** A cycle of the comparison has no winner. */
  lemma CyclesHaveNoWinner(a: Observation, b: Observation, c: Observation)
    requires KeyOf(a) == KeyOf(b) == KeyOf(c)
    requires Compare(a, b) == Newer && Compare(b, c) == Newer && Compare(c, a) == Newer
    ensures !HasWinner([a, b, c], KeyOf(a))
  {
    forall x | Winner([a, b, c], x) && KeyOf(x) == KeyOf(a) ensures false {
      assert a in [a, b, c] && b in [a, b, c] && c in [a, b, c];
      var beater := if x == a then c else if x == b then a else b;
      CompareIsAntisymmetric(x, beater);
    }
  }

  /** Comparable is not enough: a sequence that runs against receive time closes a cycle with an
      observation of another session, and the arrival order picks the answer. */
  lemma OutOfTimeSequencesCycle()
    ensures var a, b, c := Tick("a", "one", 2, 1), Tick("b", "one", 1, 3), Tick("c", "two", 0, 2);
            && Sound("BTC/USDT", 3, [a, b, c])
            && Compare(a, b) == Newer && Compare(b, c) == Newer && Compare(c, a) == Newer
            && !OrderIndependent("BTC/USDT", 3, [a, b, c])
  {
    var a, b, c := Tick("a", "one", 2, 1), Tick("b", "one", 1, 3), Tick("c", "two", 0, 2);
    CycleIsSound(a, b, c);
    CyclesHaveNoWinner(a, b, c);
    assert a in [a, b, c];
    OrderIndependentExactly("BTC/USDT", 3, [a, b, c]);
  }

  lemma CycleIsSound(a: Observation, b: Observation, c: Observation)
    requires AdmissionError("BTC/USDT", 3, a).None? && AdmissionError("BTC/USDT", 3, b).None?
    requires AdmissionError("BTC/USDT", 3, c).None?
    requires a.id != b.id && b.id != c.id && c.id != a.id
    requires Compare(a, b) == Newer && Compare(b, c) == Newer && Compare(c, a) == Newer
    ensures Sound("BTC/USDT", 3, [a, b, c])
  {
    CompareIsAntisymmetric(a, b);
    CompareIsAntisymmetric(b, c);
    CompareIsAntisymmetric(c, a);
    assert forall o :: o in [a, b, c] ==> o == a || o == b || o == c;
  }
}
