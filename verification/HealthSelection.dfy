/** Choosing the latest health snapshot of each scope for a frame. */
module HealthSelection {
  import opened Wrappers
  import opened Ordering
  import opened LatestSelection

  /** content stands for state, counters and issues; the id is the digest of all content. */
  datatype Health = Health(id: string, source: Source, instrument: Option<Instrument>, kind: Option<string>,
                           evaluatedAt: int, content: string)

  datatype HealthFailure = WrongHealthInstrument | HealthFromTheFuture | AmbiguousHealth

  type Kept = map<seq<string>, Health>

  /** health_scope_key. */
  function ScopeOf(h: Health): seq<string> {
    [h.source.id]
    + (match h.instrument case None => ["SOURCE", ""] case Some(i) => ["INSTRUMENT", i.id])
    + (match h.kind case None => ["ALL", ""] case Some(k) => ["KIND", k])
  }

  function HealthError(logical: string, asOf: int, h: Health): Option<HealthFailure> {
    if h.instrument.Some? && h.instrument.value.logical != logical then Some(WrongHealthInstrument)
    else if h.evaluatedAt > asOf then Some(HealthFromTheFuture)
    else None
  }

  function Weigh(logical: string, asOf: int, kept: Kept, h: Health): Result<Kept, HealthFailure> {
    if HealthError(logical, asOf, h).Some? then Err(HealthError(logical, asOf, h).value)
    else if ScopeOf(h) !in kept then Ok(kept[ScopeOf(h) := h])
    else
      var current := kept[ScopeOf(h)];
      if h.evaluatedAt > current.evaluatedAt then Ok(kept[ScopeOf(h) := h])
      else if h.evaluatedAt == current.evaluatedAt && h.id != current.id then Err(AmbiguousHealth)
      else Ok(kept)
  }

  function WeighAll(logical: string, asOf: int, kept: Kept, health: seq<Health>): Result<Kept, HealthFailure>
    decreases |health|
  {
    if health == [] then Ok(kept)
    else
      match Weigh(logical, asOf, kept, health[0])
      case Err(e) => Err(e)
      case Ok(next) => WeighAll(logical, asOf, next, health[1..])
  }

  /** _latest_health: the loop over the dictionary. */
  method LatestHealth(logical: string, asOf: int, health: seq<Health>) returns (r: Result<Kept, HealthFailure>)
    ensures r == WeighAll(logical, asOf, map[], health)
  {
    var kept: Kept := map[];
    var i := 0;
    assert health[0..] == health;
    while i < |health|
      invariant 0 <= i <= |health|
      invariant WeighAll(logical, asOf, map[], health) == WeighAll(logical, asOf, kept, health[i..])
    {
      var h := health[i];
      assert health[i..][1..] == health[i + 1..];
      if h.instrument.Some? && h.instrument.value.logical != logical {
        return Err(WrongHealthInstrument);
      }
      if h.evaluatedAt > asOf {
        return Err(HealthFromTheFuture);
      }
      var scope := ScopeOf(h);
      if scope !in kept || h.evaluatedAt > kept[scope].evaluatedAt {
        kept := kept[scope := h];
      } else if h.evaluatedAt == kept[scope].evaluatedAt && h.id != kept[scope].id {
        return Err(AmbiguousHealth);
      }
      i := i + 1;
    }
    r := Ok(kept);
  }

  // ---- What is kept ----

  /** Latest in its scope: everything else of the scope is older, or is the same snapshot. */
  ghost predicate IsLatest(health: seq<Health>, x: Health) {
    && x in health
    && forall h :: h in health && ScopeOf(h) == ScopeOf(x) ==>
         h.evaluatedAt < x.evaluatedAt || (h.evaluatedAt == x.evaluatedAt && h.id == x.id)
  }

  ghost predicate KeepsLatest(logical: string, asOf: int, kept: Kept, health: seq<Health>) {
    && (forall s :: s in kept ==> ScopeOf(kept[s]) == s && IsLatest(health, kept[s]))
    && (forall h :: h in health ==> ScopeOf(h) in kept && HealthError(logical, asOf, h).None?)
  }

  lemma WeighKeepsLatest(logical: string, asOf: int, kept: Kept, seen: seq<Health>, h: Health)
    requires KeepsLatest(logical, asOf, kept, seen) && Weigh(logical, asOf, kept, h).Ok?
    ensures KeepsLatest(logical, asOf, Weigh(logical, asOf, kept, h).value, seen + [h])
  {}

  lemma WeighFirst(logical: string, asOf: int, kept: Kept, rest: seq<Health>) returns (next: Kept)
    requires rest != [] && WeighAll(logical, asOf, kept, rest).Ok?
    ensures Weigh(logical, asOf, kept, rest[0]) == Ok(next)
    ensures WeighAll(logical, asOf, kept, rest) == WeighAll(logical, asOf, next, rest[1..])
  {
    next := Weigh(logical, asOf, kept, rest[0]).value;
  }

  lemma {:induction false} WeighAllKeepsLatest(logical: string, asOf: int, kept: Kept, seen: seq<Health>,
                                               rest: seq<Health>)
    requires KeepsLatest(logical, asOf, kept, seen) && WeighAll(logical, asOf, kept, rest).Ok?
    ensures KeepsLatest(logical, asOf, WeighAll(logical, asOf, kept, rest).value, seen + rest)
    decreases |rest|
  {
    if rest == [] {
      assert seen + rest == seen;
    } else {
      var next := WeighFirst(logical, asOf, kept, rest);
      var more := seen + [rest[0]];
      WeighKeepsLatest(logical, asOf, kept, seen, rest[0]);
      assert more + rest[1..] == seen + rest;
      WeighAllKeepsLatest(logical, asOf, next, more, rest[1..]);
    }
  }

  /** A selection that succeeds keeps, for every scope of the input, the one latest snapshot. */
  lemma KeptIsLatest(logical: string, asOf: int, health: seq<Health>)
    requires WeighAll(logical, asOf, map[], health).Ok?
    ensures KeepsLatest(logical, asOf, WeighAll(logical, asOf, map[], health).value, health)
  {
    WeighAllKeepsLatest(logical, asOf, map[], [], health);
    assert [] + health == health;
  }

  // ---- Order ----

  ghost predicate IdsIdentify(health: seq<Health>) {
    forall a, b :: a in health && b in health && a.id == b.id ==> a == b
  }

  lemma KeptIsDetermined(logical: string, asOf: int, one: seq<Health>, two: seq<Health>, m: Kept, n: Kept)
    requires KeepsLatest(logical, asOf, m, one) && KeepsLatest(logical, asOf, n, two)
    requires IdsIdentify(one) && forall h :: h in one <==> h in two
    ensures m == n
  {
    forall s | s in m ensures s in n && n[s] == m[s] {
      assert m[s] in two && n[s] in one;
    }
    forall s | s in n ensures s in m {
      assert n[s] in one;
    }
  }

  /** The order of the snapshots can decide whether selection raises, never what it keeps. */
  lemma OrderNeverChangesWhatIsKept(logical: string, asOf: int, one: seq<Health>, two: seq<Health>)
    requires IdsIdentify(one) && forall h :: h in one <==> h in two
    requires WeighAll(logical, asOf, map[], one).Ok? && WeighAll(logical, asOf, map[], two).Ok?
    ensures WeighAll(logical, asOf, map[], one) == WeighAll(logical, asOf, map[], two)
  {
    KeptIsLatest(logical, asOf, one);
    KeptIsLatest(logical, asOf, two);
    KeptIsDetermined(logical, asOf, one, two, WeighAll(logical, asOf, map[], one).value,
                     WeighAll(logical, asOf, map[], two).value);
  }

  ghost predicate Tied(a: Health, b: Health) {
    ScopeOf(a) == ScopeOf(b) && a.evaluatedAt == b.evaluatedAt && a.id != b.id
  }

  ghost predicate NoTies(health: seq<Health>) {
    forall a, b :: a in health && b in health ==> !Tied(a, b)
  }

  ghost predicate Admissible(logical: string, asOf: int, health: seq<Health>) {
    forall h :: h in health ==> HealthError(logical, asOf, h).None?
  }

  lemma {:induction false} WithoutTiesItSucceeds(logical: string, asOf: int, kept: Kept, rest: seq<Health>,
                                                 all: seq<Health>)
    requires Admissible(logical, asOf, all) && NoTies(all)
    requires forall h :: h in rest ==> h in all
    requires forall s :: s in kept ==> ScopeOf(kept[s]) == s && kept[s] in all
    ensures WeighAll(logical, asOf, kept, rest).Ok?
    decreases |rest|
  {
    if rest != [] {
      assert rest[0] in all;
      assert ScopeOf(rest[0]) in kept ==> !Tied(rest[0], kept[ScopeOf(rest[0])]);
      WithoutTiesItSucceeds(logical, asOf, Weigh(logical, asOf, kept, rest[0]).value, rest[1..], all);
    }
  }

  /** The input with the elements at i and j in front. */
  function Front<T>(s: seq<T>, i: nat, j: nat): (p: seq<T>)
    requires i < j < |s|
    ensures multiset(p) == multiset(s)
  {
    assert s == s[..i] + [s[i]] + s[i + 1..j] + [s[j]] + s[j + 1..];
    [s[i], s[j]] + (s[..i] + s[i + 1..j] + s[j + 1..])
  }

  /** A tied pair in front makes selection raise. */
  lemma ATieCanFail(logical: string, asOf: int, health: seq<Health>, i: nat, j: nat)
    requires Admissible(logical, asOf, health) && i < j < |health| && Tied(health[i], health[j])
    ensures WeighAll(logical, asOf, map[], Front(health, i, j)).Err?
  {
    var p, a, b := Front(health, i, j), health[i], health[j];
    assert a in health && b in health && p[0] == a && p[1..][0] == b;
    var none: Kept := map[];
    assert Weigh(logical, asOf, none, a) == Ok(none[ScopeOf(a) := a]);
    assert Weigh(logical, asOf, none[ScopeOf(a) := a], b).Err?;
  }

  ghost predicate SucceedsInEveryOrder(logical: string, asOf: int, health: seq<Health>) {
    forall p :: multiset(p) == multiset(health) ==> WeighAll(logical, asOf, map[], p).Ok?
  }

  /** Selection succeeds in every order exactly when all snapshots are admissible and no two of one
      scope are tied, even long before the latest. */
  lemma SucceedsInEveryOrderExactly(logical: string, asOf: int, health: seq<Health>)
    ensures SucceedsInEveryOrder(logical, asOf, health) <==> Admissible(logical, asOf, health) && NoTies(health)
  {
    if SucceedsInEveryOrder(logical, asOf, health) {
      KeptIsLatest(logical, asOf, health);
      if !NoTies(health) {
        var a, b :| a in health && b in health && Tied(a, b);
        var i: nat :| i < |health| && health[i] == a;
        var j: nat :| j < |health| && health[j] == b;
        var low, high := if i < j then i else j, if i < j then j else i;
        ATieCanFail(logical, asOf, health, low, high);
      }
    }
    if Admissible(logical, asOf, health) && NoTies(health) {
      forall p | multiset(p) == multiset(health) ensures WeighAll(logical, asOf, map[], p).Ok? {
        SameMembers(p, health);
        WithoutTiesItSucceeds(logical, asOf, map[], p, health);
      }
    }
  }

  // ---- Some order ----

  ghost predicate SucceedsInSomeOrder(logical: string, asOf: int, health: seq<Health>) {
    exists p :: multiset(p) == multiset(health) && WeighAll(logical, asOf, map[], p).Ok?
  }

  /** Every scope has one snapshot that is later than all others of the scope. */
  ghost predicate EveryScopeHasLatest(health: seq<Health>) {
    forall h :: h in health ==> HasLatest(health, ScopeOf(h))
  }

  ghost predicate HasLatest(health: seq<Health>, scope: seq<string>) {
    exists x :: IsLatest(health, x) && ScopeOf(x) == scope
  }

  /** The snapshots that are latest in their scope, or those that are not, in input order. */
  ghost function Pick(s: seq<Health>, all: seq<Health>, latest: bool): (p: seq<Health>)
    ensures forall h :: h in p ==> h in s && IsLatest(all, h) == latest
  {
    if s == [] then []
    else (if IsLatest(all, s[0]) == latest then [s[0]] else []) + Pick(s[1..], all, latest)
  }

  lemma {:induction false} PickSplits(s: seq<Health>, all: seq<Health>)
    ensures multiset(Pick(s, all, true)) + multiset(Pick(s, all, false)) == multiset(s)
    ensures forall h :: h in s ==> h in Pick(s, all, IsLatest(all, h))
  {
    if s != [] {
      assert s == [s[0]] + s[1..];
      PickSplits(s[1..], all);
    }
  }

  lemma {:induction false} WeighAppend(logical: string, asOf: int, kept: Kept, a: seq<Health>, b: seq<Health>)
    requires WeighAll(logical, asOf, kept, a).Ok?
    ensures WeighAll(logical, asOf, kept, a + b) ==
            WeighAll(logical, asOf, WeighAll(logical, asOf, kept, a).value, b)
    decreases |a|
  {
    if a == [] {
      assert a + b == b;
    } else {
      assert (a + b)[0] == a[0] && (a + b)[1..] == a[1..] + b;
      var next := WeighFirst(logical, asOf, kept, a);
      WeighAppend(logical, asOf, next, a[1..], b);
    }
  }

  ghost predicate HoldsLatest(all: seq<Health>, kept: Kept) {
    forall s :: s in kept ==> ScopeOf(kept[s]) == s && IsLatest(all, kept[s])
  }

  /** Latest snapshots never clash: two of one scope are the same snapshot. */
  lemma {:induction false} WeighLatest(logical: string, asOf: int, all: seq<Health>, kept: Kept, s: seq<Health>)
    requires HoldsLatest(all, kept)
    requires forall h :: h in s ==> IsLatest(all, h) && HealthError(logical, asOf, h).None?
    ensures WeighAll(logical, asOf, kept, s).Ok?
    ensures var m := WeighAll(logical, asOf, kept, s).value;
            && HoldsLatest(all, m)
            && (forall k :: k in kept ==> k in m)
            && (forall h :: h in s ==> ScopeOf(h) in m)
    decreases |s|
  {
    if s != [] {
      LatestIsTaken(logical, asOf, all, kept, s[0]);
      WeighLatest(logical, asOf, all, Weigh(logical, asOf, kept, s[0]).value, s[1..]);
    }
  }

  lemma LatestIsTaken(logical: string, asOf: int, all: seq<Health>, kept: Kept, h: Health)
    requires HoldsLatest(all, kept) && IsLatest(all, h) && HealthError(logical, asOf, h).None?
    ensures Weigh(logical, asOf, kept, h).Ok?
    ensures var m := Weigh(logical, asOf, kept, h).value;
            HoldsLatest(all, m) && ScopeOf(h) in m && forall k :: k in kept ==> k in m
  {}

  /** Older snapshots change nothing once the latest are in. */
  lemma {:induction false} WeighOlder(logical: string, asOf: int, kept: Kept, s: seq<Health>)
    requires forall h :: h in s ==>
               && HealthError(logical, asOf, h).None? && ScopeOf(h) in kept
               && h.evaluatedAt < kept[ScopeOf(h)].evaluatedAt
    ensures WeighAll(logical, asOf, kept, s) == Ok(kept)
    decreases |s|
  {
    if s != [] {
      assert Weigh(logical, asOf, kept, s[0]) == Ok(kept);
      WeighOlder(logical, asOf, kept, s[1..]);
    }
  }

  lemma LatestFirstSucceeds(logical: string, asOf: int, health: seq<Health>)
    requires Admissible(logical, asOf, health) && EveryScopeHasLatest(health)
    ensures WeighAll(logical, asOf, map[], Pick(health, health, true) + Pick(health, health, false)).Ok?
  {
    var latest, older := Pick(health, health, true), Pick(health, health, false);
    PickSplits(health, health);
    WeighLatest(logical, asOf, health, map[], latest);
    var kept := WeighAll(logical, asOf, map[], latest).value;
    WeighAppend(logical, asOf, map[], latest, older);
    AllOlderFit(logical, asOf, health, kept, older);
    WeighOlder(logical, asOf, kept, older);
  }

  lemma AllOlderFit(logical: string, asOf: int, health: seq<Health>, kept: Kept, older: seq<Health>)
    requires Admissible(logical, asOf, health) && EveryScopeHasLatest(health) && HoldsLatest(health, kept)
    requires forall x :: IsLatest(health, x) ==> ScopeOf(x) in kept
    requires forall h :: h in older ==> h in health && !IsLatest(health, h)
    ensures forall h :: h in older ==>
              && HealthError(logical, asOf, h).None? && ScopeOf(h) in kept
              && h.evaluatedAt < kept[ScopeOf(h)].evaluatedAt
  {
    forall h | h in older ensures ScopeOf(h) in kept && h.evaluatedAt < kept[ScopeOf(h)].evaluatedAt {
      assert HasLatest(health, ScopeOf(h));
      OlderFits(health, kept, h);
    }
  }

  lemma OlderFits(health: seq<Health>, kept: Kept, h: Health)
    requires h in health && !IsLatest(health, h) && HasLatest(health, ScopeOf(h)) && HoldsLatest(health, kept)
    requires forall x :: IsLatest(health, x) ==> ScopeOf(x) in kept
    ensures ScopeOf(h) in kept && h.evaluatedAt < kept[ScopeOf(h)].evaluatedAt
  {
    var x :| IsLatest(health, x) && ScopeOf(x) == ScopeOf(h);
    OlderThanLatest(health, h, kept[ScopeOf(h)]);
  }

  lemma OlderThanLatest(health: seq<Health>, h: Health, x: Health)
    requires h in health && !IsLatest(health, h) && IsLatest(health, x) && ScopeOf(x) == ScopeOf(h)
    ensures h.evaluatedAt < x.evaluatedAt
  {}

  /** Selection succeeds in some order exactly when all snapshots are admissible and every scope has
      one latest. Together with the condition for every order this says when order decides: when every
      scope has one latest, but older snapshots are tied. */
  lemma SucceedsInSomeOrderExactly(logical: string, asOf: int, health: seq<Health>)
    ensures SucceedsInSomeOrder(logical, asOf, health) <==>
            Admissible(logical, asOf, health) && EveryScopeHasLatest(health)
  {
    if SucceedsInSomeOrder(logical, asOf, health) {
      var p :| multiset(p) == multiset(health) && WeighAll(logical, asOf, map[], p).Ok?;
      SameMembers(p, health);
      KeptIsLatest(logical, asOf, p);
      var kept := WeighAll(logical, asOf, map[], p).value;
      forall h | h in health ensures HasLatest(health, ScopeOf(h)) {
        assert IsLatest(p, kept[ScopeOf(h)]);
        assert IsLatest(health, kept[ScopeOf(h)]);
      }
    }
    if Admissible(logical, asOf, health) && EveryScopeHasLatest(health) {
      var latest, older := Pick(health, health, true), Pick(health, health, false);
      LatestFirstSucceeds(logical, asOf, health);
      PickSplits(health, health);
      assert multiset(latest + older) == multiset(health);
    }
  }

  lemma SameMembers(p: seq<Health>, s: seq<Health>)
    requires multiset(p) == multiset(s)
    ensures forall h :: h in p <==> h in s
  {
    forall h ensures h in p <==> h in s {
      assert h in p <==> h in multiset(p);
      assert h in s <==> h in multiset(s);
    }
  }

  function Report(id: string, evaluatedAt: int): Health {
    Health(id, Source("s", ""), None, None, evaluatedAt, "")
  }

  /** Two tied reports and a later one: raising or not depends on which comes first. */
  lemma OrderCanDecide()
    ensures var a, b, c := Report("a", 1), Report("b", 1), Report("c", 3);
            && multiset([c, a, b]) == multiset([a, b, c])
            && WeighAll("BTC/USDT", 3, map[], [c, a, b]).Ok?
            && WeighAll("BTC/USDT", 3, map[], [a, b, c]) == Err(AmbiguousHealth)
  {
    var a, b, c := Report("a", 1), Report("b", 1), Report("c", 3);
    var none: Kept := map[];
    WeighOlder("BTC/USDT", 3, none[ScopeOf(c) := c], [a, b]);
    assert [c, a, b][1..] == [a, b] && [a, b, c][1..][0] == b;
    assert Weigh("BTC/USDT", 3, none, c) == Ok(none[ScopeOf(c) := c]);
    assert Weigh("BTC/USDT", 3, none, a) == Ok(none[ScopeOf(a) := a]);
  }

  // ---- In scope order ----

  ghost function SortedScopes(kept: Kept): (scopes: seq<seq<string>>)
    ensures Ascending(TupleLess, scopes) && forall s :: s in scopes <==> s in kept
  {
    TupleLessStrictTotal();
    SortedElements(TupleLess, kept.Keys)
  }

  /** tuple(sorted(selected_health, key=health_scope_key)). */
  ghost function ListedHealth(kept: Kept): (s: seq<Health>)
    ensures |s| == |SortedScopes(kept)|
    ensures forall i :: 0 <= i < |s| ==> SortedScopes(kept)[i] in kept && s[i] == kept[SortedScopes(kept)[i]]
  {
    var scopes := SortedScopes(kept);
    assert forall i :: 0 <= i < |scopes| ==> scopes[i] in scopes;
    seq(|scopes|, i requires 0 <= i < |scopes| => kept[scopes[i]])
  }

  method SortHealth(kept: Kept) returns (s: seq<Health>)
    ensures s == ListedHealth(kept)
  {
    TupleLessStrictTotal();
    var scopes := SortSet(TupleLess, kept.Keys);
    assert forall i :: 0 <= i < |scopes| ==> scopes[i] in scopes;
    s := seq(|scopes|, i requires 0 <= i < |scopes| => kept[scopes[i]]);
    assert s == ListedHealth(kept);
  }

  /** One latest snapshot of every scope, in scope order. */
  lemma HealthShape(logical: string, asOf: int, health: seq<Health>)
    requires WeighAll(logical, asOf, map[], health).Ok?
    ensures var listed := ListedHealth(WeighAll(logical, asOf, map[], health).value);
            && (forall i :: 0 <= i < |listed| ==>
                  IsLatest(health, listed[i]) && HealthError(logical, asOf, listed[i]).None?)
            && (forall i, j :: 0 <= i < j < |listed| ==> TupleLess(ScopeOf(listed[i]), ScopeOf(listed[j])))
            && (forall h :: h in health ==> exists i :: 0 <= i < |listed| && ScopeOf(listed[i]) == ScopeOf(h))
  {
    KeptIsLatest(logical, asOf, health);
    var kept := WeighAll(logical, asOf, map[], health).value;
    var scopes, listed := SortedScopes(kept), ListedHealth(kept);
    forall i | 0 <= i < |listed|
      ensures ScopeOf(listed[i]) == scopes[i] && IsLatest(health, listed[i])
      ensures HealthError(logical, asOf, listed[i]).None?
    {
      assert scopes[i] in kept;
    }
    forall h | h in health ensures exists i :: 0 <= i < |listed| && ScopeOf(listed[i]) == ScopeOf(h) {
      assert ScopeOf(h) in scopes;
      var i :| 0 <= i < |scopes| && scopes[i] == ScopeOf(h);
      assert ScopeOf(listed[i]) == ScopeOf(h);
    }
  }
}
