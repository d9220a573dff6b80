/** Readiness of an asset conversion: from one rate, from an inverted rate, or by multiplying the
    rates of a connected chain of ready conversions. */
module Conversion {
  import opened Wrappers

  datatype EvidenceKind = DIRECT_PAIR_RATE | INVERSE_PAIR_RATE | TRIANGULATED_PAIR_RATE | MANUAL_OFFICIAL_RATE
                        | REFERENCE_INDEX_VALUE | UNKNOWN_EVIDENCE

  datatype Trust = OFFICIAL | MANUAL_REVIEW_REQUIRED | TEST_ONLY | UNTRUSTED | UNKNOWN_TRUST

  datatype Health = HEALTHY | DEGRADED | UNAVAILABLE | UNKNOWN_HEALTH

  datatype Reason =
    | READY
    | POLICY_DISABLED
    | FROM_ASSET_MISSING
    | TO_ASSET_MISSING
    | SAME_ASSET_DIRECT_MATCH
    | CONVERSION_RATE_MISSING
    | CONVERSION_PAIR_MISMATCH
    | CONVERSION_DIRECTION_NOT_ALLOWED
    | CONVERSION_RATE_STALE
    | CONVERSION_RATE_FUTURE_DATED
    | CONVERSION_SOURCE_UNTRUSTED
    | CONVERSION_SOURCE_UNHEALTHY
    | CONVERSION_SPREAD_TOO_WIDE
    | TRIANGULATION_NOT_ALLOWED
    | TRIANGULATION_LEG_MISSING
    | TRIANGULATION_LEG_NOT_READY

  datatype Compatibility = DIRECT_SAME_ASSET | DIRECT_RATE | INVERSE_RATE | TRIANGULATED_RATE | NOT_COMPATIBLE | UNKNOWN

  /** Times are microseconds. */
  datatype Snapshot = Snapshot(base: string, target: string, rate: real, observedAt: int, capturedAt: int,
                               trust: Trust, health: Health, evidence: EvidenceKind,
                               bid: Option<real>, ask: Option<real>, spreadBps: Option<real>,
                               sourceRecord: Option<string>)

  datatype Policy = Policy(disabled: bool, base: Option<string>, target: Option<string>, maxRateAgeMs: int,
                           requireSourceRecord: bool, allowedTrust: set<Trust>, allowedHealth: set<Health>,
                           allowSameAsset: bool, allowInverse: bool, allowTriangulation: bool,
                           requireBidAsk: bool, maxSpreadBps: Option<real>)

  datatype Decision = Decision(base: Option<string>, target: Option<string>, ready: bool, reason: Reason,
                               compatibility: Compatibility, rate: Option<real>)

  /** What the decision record accepts at construction. */
  predicate ValidDecision(d: Decision) {
    && (d.rate.Some? ==> d.rate.value > 0.0)
    && (d.ready <==> d.reason == READY)
    && (d.ready ==> d.compatibility !in {UNKNOWN, NOT_COMPATIBLE})
  }

  predicate ValidSnapshot(s: Snapshot) {
    s.rate > 0.0 && s.base != s.target && s.capturedAt >= s.observedAt
  }

  function Refused(base: Option<string>, target: Option<string>, reason: Reason,
                   compatibility: Compatibility): Decision {
    Decision(base, target, false, reason, compatibility, None)
  }

  function Granted(base: string, target: string, compatibility: Compatibility, rate: real): Decision {
    Decision(Some(base), Some(target), true, READY, compatibility, Some(rate))
  }

  // ---- One rate ----

  function SnapshotRejection(policy: Policy, checkedAt: int, s: Snapshot): Option<Reason> {
    if s.observedAt > checkedAt || s.capturedAt > checkedAt then Some(CONVERSION_RATE_FUTURE_DATED)
    else if (checkedAt - s.observedAt) / 1000 > policy.maxRateAgeMs then Some(CONVERSION_RATE_STALE)
    else if s.trust !in policy.allowedTrust then Some(CONVERSION_SOURCE_UNTRUSTED)
    else if s.health !in policy.allowedHealth then Some(CONVERSION_SOURCE_UNHEALTHY)
    else if policy.requireSourceRecord && s.sourceRecord.None? then Some(CONVERSION_RATE_MISSING)
    else if policy.requireBidAsk && (s.bid.None? || s.ask.None?) then Some(CONVERSION_RATE_MISSING)
    else if policy.maxSpreadBps.Some? && s.spreadBps.Some? && s.spreadBps.value > policy.maxSpreadBps.value then
      Some(CONVERSION_SPREAD_TOO_WIDE)
    else None
  }

  predicate DirectEvidence(e: EvidenceKind) {
    e in {DIRECT_PAIR_RATE, MANUAL_OFFICIAL_RATE, REFERENCE_INDEX_VALUE}
  }

  predicate InverseEvidence(e: EvidenceKind) {
    e in {DIRECT_PAIR_RATE, INVERSE_PAIR_RATE, MANUAL_OFFICIAL_RATE, REFERENCE_INDEX_VALUE}
  }

  function Direct(policy: Policy, checkedAt: int, base: string, target: string, s: Snapshot): Decision {
    var rejection := SnapshotRejection(policy, checkedAt, s);
    if s.base != base || s.target != target then
      Refused(Some(base), Some(target), CONVERSION_PAIR_MISMATCH, NOT_COMPATIBLE)
    else if !DirectEvidence(s.evidence) then Refused(Some(base), Some(target), CONVERSION_RATE_MISSING, NOT_COMPATIBLE)
    else if rejection.Some? then Refused(Some(base), Some(target), rejection.value, NOT_COMPATIBLE)
    else Granted(base, target, DIRECT_RATE, s.rate)
  }

  function Inverse(policy: Policy, checkedAt: int, base: string, target: string, s: Snapshot): Decision
    requires ValidSnapshot(s)
  {
    var rejection := SnapshotRejection(policy, checkedAt, s);
    if !policy.allowInverse then Refused(Some(base), Some(target), CONVERSION_DIRECTION_NOT_ALLOWED, NOT_COMPATIBLE)
    else if s.base != target || s.target != base then
      Refused(Some(base), Some(target), CONVERSION_PAIR_MISMATCH, NOT_COMPATIBLE)
    else if !InverseEvidence(s.evidence) then Refused(Some(base), Some(target), CONVERSION_RATE_MISSING, NOT_COMPATIBLE)
    else if rejection.Some? then Refused(Some(base), Some(target), rejection.value, NOT_COMPATIBLE)
    else Granted(base, target, INVERSE_RATE, 1.0 / s.rate)
  }

  // ---- A chain of rates ----

  function Times(x: real, y: real): real {
    x * y
  }

  lemma TimesGroups(x: real, y: real, z: real)
    ensures Times(x, Times(y, z)) == Times(Times(x, y), z)
    ensures Times(x, 1.0) == x && Times(1.0, x) == x && Times(x, y) == Times(y, x)
  {}

  lemma TimesPositive(x: real, y: real)
    requires x > 0.0 && y > 0.0
    ensures Times(x, y) > 0.0
  {}

  datatype Walk = Arrived(at: string, rate: real) | Broken(leg: nat, reason: Reason)

  /** The loop over the legs, from leg i on. */
  function WalkFrom(legs: seq<Decision>, i: nat, current: string, rate: real): Walk
    requires i <= |legs|
    decreases |legs| - i
  {
    if i == |legs| then Arrived(current, rate)
    else if !legs[i].ready then Broken(i, TRIANGULATION_LEG_NOT_READY)
    else if legs[i].base.None? || legs[i].target.None? then Broken(i, TRIANGULATION_LEG_MISSING)
    else if legs[i].base.value != current then Broken(i, CONVERSION_PAIR_MISMATCH)
    else if legs[i].rate.None? then Broken(i, TRIANGULATION_LEG_MISSING)
    else WalkFrom(legs, i + 1, legs[i].target.value, Times(rate, legs[i].rate.value))
  }

  function Triangulated(policy: Policy, base: string, target: string, legs: seq<Decision>): Decision {
    if !policy.allowTriangulation then Refused(Some(base), Some(target), TRIANGULATION_NOT_ALLOWED, NOT_COMPATIBLE)
    else
      match WalkFrom(legs, 0, base, 1.0)
      case Broken(_, reason) => Refused(Some(base), Some(target), reason, NOT_COMPATIBLE)
      case Arrived(at, rate) =>
        if at != target then Refused(Some(base), Some(target), CONVERSION_PAIR_MISMATCH, NOT_COMPATIBLE)
        else Granted(base, target, TRIANGULATED_RATE, rate)
  }

  /** _triangulated_decision, with its two loop variables. */
  method TriangulatedDecision(policy: Policy, base: string, target: string, legs: seq<Decision>) returns (d: Decision)
    ensures d == Triangulated(policy, base, target, legs)
  {
    if !policy.allowTriangulation {
      return Refused(Some(base), Some(target), TRIANGULATION_NOT_ALLOWED, NOT_COMPATIBLE);
    }
    var current, rate := base, 1.0;
    var i := 0;
    while i < |legs|
      invariant 0 <= i <= |legs|
      invariant WalkFrom(legs, 0, base, 1.0) == WalkFrom(legs, i, current, rate)
    {
      var leg := legs[i];
      if !leg.ready {
        return Refused(Some(base), Some(target), TRIANGULATION_LEG_NOT_READY, NOT_COMPATIBLE);
      }
      if leg.base.None? || leg.target.None? {
        return Refused(Some(base), Some(target), TRIANGULATION_LEG_MISSING, NOT_COMPATIBLE);
      }
      if leg.base.value != current {
        return Refused(Some(base), Some(target), CONVERSION_PAIR_MISMATCH, NOT_COMPATIBLE);
      }
      if leg.rate.None? {
        return Refused(Some(base), Some(target), TRIANGULATION_LEG_MISSING, NOT_COMPATIBLE);
      }
      rate := Times(rate, leg.rate.value);
      current := leg.target.value;
      i := i + 1;
    }
    if current != target {
      return Refused(Some(base), Some(target), CONVERSION_PAIR_MISMATCH, NOT_COMPATIBLE);
    }
    d := Granted(base, target, TRIANGULATED_RATE, rate);
  }

  predicate PolicyPairAllows(policy: Policy, base: string, target: string) {
    (policy.base.Some? ==> policy.base.value == base) && (policy.target.Some? ==> policy.target.value == target)
  }

  datatype Evidence = Evidence(direct: Option<Snapshot>, inverse: Option<Snapshot>, legs: seq<Decision>)

  predicate ValidEvidence(e: Evidence) {
    && (e.direct.Some? ==> ValidSnapshot(e.direct.value))
    && (e.inverse.Some? ==> ValidSnapshot(e.inverse.value))
    && forall d :: d in e.legs ==> ValidDecision(d)
  }

  /** evaluate_asset_conversion_readiness. */
  function Evaluate(policy: Policy, checkedAt: int, base: Option<string>, target: Option<string>, e: Evidence): Decision
    requires ValidEvidence(e)
  {
    if policy.disabled then Refused(base, target, POLICY_DISABLED, UNKNOWN)
    else if base.None? then Refused(base, target, FROM_ASSET_MISSING, UNKNOWN)
    else if target.None? then Refused(base, target, TO_ASSET_MISSING, UNKNOWN)
    else if !PolicyPairAllows(policy, base.value, target.value) then
      Refused(base, target, CONVERSION_PAIR_MISMATCH, NOT_COMPATIBLE)
    else if base == target then
      if policy.allowSameAsset then Granted(base.value, base.value, DIRECT_SAME_ASSET, 1.0)
      else Refused(base, base, SAME_ASSET_DIRECT_MATCH, NOT_COMPATIBLE)
    else if e.direct.Some? then Direct(policy, checkedAt, base.value, target.value, e.direct.value)
    else if e.inverse.Some? then Inverse(policy, checkedAt, base.value, target.value, e.inverse.value)
    else if e.legs != [] then Triangulated(policy, base.value, target.value, e.legs)
    else Refused(base, target, CONVERSION_RATE_MISSING, UNKNOWN)
  }

  // ---- Paths ----

  predicate UsableLeg(d: Decision) {
    d.ready && d.base.Some? && d.target.Some? && d.rate.Some?
  }

  /** The legs are usable and lead from one asset to the other without a break. */
  ghost predicate Path(legs: seq<Decision>, base: string, target: string) {
    && legs != []
    && (forall i :: 0 <= i < |legs| ==> UsableLeg(legs[i]))
    && legs[0].base.value == base
    && legs[|legs| - 1].target.value == target
    && (forall i :: 0 < i < |legs| ==> legs[i - 1].target == legs[i].base)
  }

  function RateOf(d: Decision): real {
    if d.rate.Some? then d.rate.value else 1.0
  }

  function Product(legs: seq<Decision>): real {
    if legs == [] then 1.0 else Times(RateOf(legs[0]), Product(legs[1..]))
  }

  lemma {:induction false} ProductPositive(legs: seq<Decision>)
    requires forall i :: 0 <= i < |legs| ==> ValidDecision(legs[i])
    ensures Product(legs) > 0.0
  {
    if legs != [] {
      assert ValidDecision(legs[0]);
      ProductPositive(legs[1..]);
      TimesPositive(RateOf(legs[0]), Product(legs[1..]));
    }
  }

  lemma {:induction false} ProductAppend(a: seq<Decision>, b: seq<Decision>)
    ensures Product(a + b) == Times(Product(a), Product(b))
  {
    if a == [] {
      assert a + b == b;
      TimesGroups(Product(b), 1.0, 1.0);
    } else {
      assert (a + b)[1..] == a[1..] + b;
      ProductAppend(a[1..], b);
      TimesGroups(RateOf(a[0]), Product(a[1..]), Product(b));
    }
  }

  // ---- The walk follows paths ----

  predicate Takes(leg: Decision, current: string) {
    UsableLeg(leg) && leg.base.value == current
  }

  lemma PathCons(legs: seq<Decision>, base: string, target: string)
    requires legs != []
    ensures Path(legs, base, target) <==>
            && Takes(legs[0], base)
            && (if |legs| == 1 then legs[0].target.value == target else Path(legs[1..], legs[0].target.value, target))
  {
    var rest := legs[1..];
    if Path(legs, base, target) && |legs| > 1 {
      assert legs[0].target == legs[1].base;
      forall i | 0 < i < |rest| ensures rest[i - 1].target == rest[i].base {
        assert legs[i].target == legs[i + 1].base;
      }
    }
    if |legs| > 1 && Takes(legs[0], base) && Path(rest, legs[0].target.value, target) {
      forall i | 0 < i < |legs| ensures legs[i - 1].target == legs[i].base {
        assert legs[i] == rest[i - 1];
      }
      forall i | 0 <= i < |legs| ensures UsableLeg(legs[i]) {
        assert i == 0 || legs[i] == rest[i - 1];
      }
    }
  }

  /** The walk arrives exactly along paths, and collects the product of their rates. */
  lemma {:induction false} WalkMeaning(legs: seq<Decision>, i: nat, current: string, rate: real, target: string)
    requires i < |legs|
    ensures var w := WalkFrom(legs, i, current, rate);
            && (Path(legs[i..], current, target) <==> w.Arrived? && w.at == target)
            && (w.Arrived? ==> w.rate == Times(rate, Product(legs[i..])))
            && (w.Broken? ==> w.reason != READY)
    decreases |legs| - i
  {
    var leg := legs[i];
    assert legs[i..][0] == leg && legs[i..][1..] == legs[i + 1..];
    PathCons(legs[i..], current, target);
    if Takes(leg, current) {
      TimesGroups(rate, leg.rate.value, Product(legs[i + 1..]));
      if i + 1 < |legs| {
        WalkMeaning(legs, i + 1, leg.target.value, Times(rate, leg.rate.value), target);
      } else {
        assert legs[i + 1..] == [];
        TimesGroups(leg.rate.value, 1.0, 1.0);
      }
    }
  }

  /** A walk that breaks reports the first leg that cannot be taken: the legs before it are a path
      to where it stands, and it does not start there ready and rated. */
  lemma {:induction false} WalkBreaksAtFirstBadLeg(legs: seq<Decision>, i: nat, current: string, rate: real)
    returns (at: string)
    requires i <= |legs| && WalkFrom(legs, i, current, rate).Broken?
    ensures var k := WalkFrom(legs, i, current, rate).leg;
            && i <= k < |legs| && !Takes(legs[k], at)
            && (if i == k then at == current else Path(legs[i..k], current, at))
    decreases |legs| - i
  {
    at := current;
    if i < |legs| && Takes(legs[i], current) {
      at := WalkBreaksAtFirstBadLeg(legs, i + 1, legs[i].target.value, Times(rate, legs[i].rate.value));
      var k := WalkFrom(legs, i, current, rate).leg;
      assert legs[i..k][1..] == legs[i + 1..k];
      PathCons(legs[i..k], current, at);
    }
  }

  // ---- Main results ----

  /** Triangulation is path composition: for distinct assets and no single rate at hand, the answer
      is READY exactly when policy and pair allow it and the legs are a path from one asset to the
      other, and then the rate is the product of the legs' rates. */
  lemma ChainReadyExactlyOnPaths(policy: Policy, checkedAt: int, base: string, target: string, legs: seq<Decision>)
    requires ValidEvidence(Evidence(None, None, legs)) && base != target
    ensures var d := Evaluate(policy, checkedAt, Some(base), Some(target), Evidence(None, None, legs));
            && ValidDecision(d)
            && (d.ready <==> !policy.disabled && PolicyPairAllows(policy, base, target) && policy.allowTriangulation
                             && Path(legs, base, target))
            && (d.ready ==> d == Granted(base, target, TRIANGULATED_RATE, Product(legs)) && Product(legs) > 0.0)
  {
    ProductPositive(legs);
    if legs != [] {
      WalkMeaning(legs, 0, base, 1.0, target);
      assert legs[0..] == legs;
      TimesGroups(Product(legs), 1.0, 1.0);
    }
  }

  /** Every answer is a decision the record accepts, so answers can serve as legs. */
  lemma AnswersAreValid(policy: Policy, checkedAt: int, base: Option<string>, target: Option<string>, e: Evidence)
    requires ValidEvidence(e)
    ensures ValidDecision(Evaluate(policy, checkedAt, base, target, e))
  {
    if base.Some? && target.Some? && base != target && e.direct.None? && e.inverse.None? {
      ChainReadyExactlyOnPaths(policy, checkedAt, base.value, target.value, e.legs);
    }
    if e.inverse.Some? {
      InversePositive(e.inverse.value.rate);
    }
  }

  lemma InversePositive(x: real)
    requires x > 0.0
    ensures 1.0 / x > 0.0
    ensures Times(x, 1.0 / x) == 1.0
  {}

  lemma {:induction false} PathAppend(a: seq<Decision>, b: seq<Decision>, base: string, middle: string, target: string)
    requires Path(a, base, middle) && Path(b, middle, target)
    ensures Path(a + b, base, target)
  {
    PathCons(a, base, middle);
    assert (a + b)[0] == a[0] && (a + b)[1..] == a[1..] + b;
    PathCons(a + b, base, target);
    if |a| == 1 {
      assert a[1..] + b == b;
    } else {
      PathAppend(a[1..], b, a[0].target.value, middle, target);
    }
  }

  /** Two chains end to end are one chain, and its rate is the product of theirs. */
  lemma ChainsCompose(policy: Policy, checkedAt: int, base: string, middle: string, target: string,
                      first: seq<Decision>, second: seq<Decision>)
    requires ValidEvidence(Evidence(None, None, first + second))
    requires Path(first, base, middle) && Path(second, middle, target) && base != target
    requires !policy.disabled && policy.allowTriangulation && PolicyPairAllows(policy, base, target)
    ensures Evaluate(policy, checkedAt, Some(base), Some(target), Evidence(None, None, first + second)) ==
            Granted(base, target, TRIANGULATED_RATE, Times(Product(first), Product(second)))
  {
    PathAppend(first, second, base, middle, target);
    ProductAppend(first, second);
    ChainReadyExactlyOnPaths(policy, checkedAt, base, target, first + second);
  }

  /** A leg that is itself a chain may be replaced by its own legs: one form is ready exactly when the
      other is, with the same answer. */
  lemma FlatteningKeepsTheAnswer(policy: Policy, inner: Policy, checkedAt: int, innerCheckedAt: int,
                                 base: string, target: string, from: string, to: string,
                                 before: seq<Decision>, nested: seq<Decision>, after: seq<Decision>)
    requires ValidEvidence(Evidence(None, None, before + nested + after)) && ValidEvidence(Evidence(None, None, nested))
    requires from != to && base != target
    requires Evaluate(inner, innerCheckedAt, Some(from), Some(to), Evidence(None, None, nested)).ready
    ensures var leg := Evaluate(inner, innerCheckedAt, Some(from), Some(to), Evidence(None, None, nested));
            && ValidEvidence(Evidence(None, None, before + [leg] + after))
            && var one := Evaluate(policy, checkedAt, Some(base), Some(target),
                                   Evidence(None, None, before + [leg] + after));
               var two := Evaluate(policy, checkedAt, Some(base), Some(target),
                                   Evidence(None, None, before + nested + after));
               (one.ready <==> two.ready) && (one.ready ==> one == two)
  {
    var leg := Evaluate(inner, innerCheckedAt, Some(from), Some(to), Evidence(None, None, nested));
    ChainReadyExactlyOnPaths(inner, innerCheckedAt, from, to, nested);
    var short, long := before + [leg] + after, before + nested + after;
    assert forall d :: d in short ==> d == leg || d in long;
    ChainReadyExactlyOnPaths(policy, checkedAt, base, target, short);
    ChainReadyExactlyOnPaths(policy, checkedAt, base, target, long);
    FlattenPath(before, leg, nested, after, base, target);
    FlattenProduct(before, leg, nested, after);
  }

  lemma FlattenProduct(before: seq<Decision>, leg: Decision, nested: seq<Decision>, after: seq<Decision>)
    requires leg.rate == Some(Product(nested))
    ensures Product(before + [leg] + after) == Product(before + nested + after)
  {
    ProductAppend(before + [leg], after);
    ProductAppend(before, [leg]);
    ProductAppend(before + nested, after);
    ProductAppend(before, nested);
    assert [leg][1..] == [];
    TimesGroups(Product(nested), 1.0, 1.0);
  }

  lemma {:induction false} PathSplit(a: seq<Decision>, b: seq<Decision>, base: string, target: string, from: string,
                                     to: string)
    requires Path(a, from, to)
    ensures Path(a + b, base, target) <==> base == from && if b == [] then to == target else Path(b, to, target)
  {
    PathCons(a, from, to);
    PathCons(a + b, base, target);
    assert (a + b)[0] == a[0] && (a + b)[1..] == a[1..] + b;
    if |a| == 1 {
      assert a[1..] + b == b;
    } else {
      PathSplit(a[1..], b, a[0].target.value, target, a[0].target.value, to);
    }
  }

  lemma {:induction false} FlattenPath(before: seq<Decision>, leg: Decision, nested: seq<Decision>,
                                       after: seq<Decision>, base: string, target: string)
    requires UsableLeg(leg) && Path(nested, leg.base.value, leg.target.value)
    ensures Path(before + [leg] + after, base, target) <==> Path(before + nested + after, base, target)
    decreases |before|
  {
    var short, long := before + [leg] + after, before + nested + after;
    if before == [] {
      assert short == [leg] + after && long == nested + after;
      PathCons([leg], leg.base.value, leg.target.value);
      PathSplit([leg], after, base, target, leg.base.value, leg.target.value);
      PathSplit(nested, after, base, target, leg.base.value, leg.target.value);
    } else {
      assert short[0] == before[0] && short[1..] == before[1..] + [leg] + after;
      assert long[0] == before[0] && long[1..] == before[1..] + nested + after;
      PathCons(short, base, target);
      PathCons(long, base, target);
      if Takes(before[0], base) {
        FlattenPath(before[1..], leg, nested, after, before[0].target.value, target);
      }
    }
  }

  // ---- There and back ----

  /** A rate usable forwards is usable backwards exactly when the policy allows inversion, and the
      two rates are exact reciprocals. */
  lemma InverseMirrorsDirect(policy: Policy, checkedAt: int, s: Snapshot)
    requires ValidSnapshot(s) && Direct(policy, checkedAt, s.base, s.target, s).ready
    ensures var back := Inverse(policy, checkedAt, s.target, s.base, s);
            && (back.ready <==> policy.allowInverse)
            && (back.ready ==> Times(RateOf(Direct(policy, checkedAt, s.base, s.target, s)), RateOf(back)) == 1.0)
  {
    InversePositive(s.rate);
  }

  /** One rate, with the policy and the time it is judged by. */
  datatype Hop = Hop(policy: Policy, checkedAt: int, snapshot: Snapshot)

  /** The evaluator's answer for the rate's own pair. */
  function Out(hop: Hop): Decision
    requires ValidSnapshot(hop.snapshot)
  {
    Evaluate(hop.policy, hop.checkedAt, Some(hop.snapshot.base), Some(hop.snapshot.target),
             Evidence(Some(hop.snapshot), None, []))
  }

  /** The evaluator's answer for the pair turned round, from the same rate. */
  function Back(hop: Hop): Decision
    requires ValidSnapshot(hop.snapshot)
  {
    Evaluate(hop.policy, hop.checkedAt, Some(hop.snapshot.target), Some(hop.snapshot.base),
             Evidence(None, Some(hop.snapshot), []))
  }

  /** The policy permits the inverted use of the rate. */
  predicate Reversible(hop: Hop) {
    hop.policy.allowInverse && PolicyPairAllows(hop.policy, hop.snapshot.target, hop.snapshot.base)
  }

  ghost predicate ValidHops(hops: seq<Hop>) {
    forall i :: 0 <= i < |hops| ==> ValidSnapshot(hops[i].snapshot)
  }

  function Outward(hops: seq<Hop>): seq<Decision>
    requires ValidHops(hops)
  {
    if hops == [] then [] else [Out(hops[0])] + Outward(hops[1..])
  }

  function Homeward(hops: seq<Hop>): seq<Decision>
    requires ValidHops(hops)
  {
    if hops == [] then [] else Homeward(hops[1..]) + [Back(hops[0])]
  }

  /** A usable leg can be walked back exactly when its policy permits it, between the same assets and at
      the exact reciprocal. */
  lemma HopReturns(hop: Hop)
    requires ValidSnapshot(hop.snapshot) && UsableLeg(Out(hop))
    ensures UsableLeg(Back(hop)) <==> Reversible(hop)
    ensures Out(hop).base == Back(hop).target == Some(hop.snapshot.base)
    ensures Out(hop).target == Back(hop).base == Some(hop.snapshot.target)
    ensures Reversible(hop) ==> Times(RateOf(Out(hop)), RateOf(Back(hop))) == 1.0
  {
    InverseMirrorsDirect(hop.policy, hop.checkedAt, hop.snapshot);
  }

  /** The legs home are a path back from the end to the start exactly when every hop permits it, and
      then the two products are reciprocal. */
  lemma {:induction false} PathsReturn(hops: seq<Hop>, base: string, target: string)
    requires ValidHops(hops) && Path(Outward(hops), base, target)
    ensures Path(Homeward(hops), target, base) <==> forall i :: 0 <= i < |hops| ==> Reversible(hops[i])
    ensures Path(Homeward(hops), target, base) ==> Times(Product(Outward(hops)), Product(Homeward(hops))) == 1.0
  {
    var hop, rest, out := hops[0], hops[1..], Outward(hops);
    var middle := hop.snapshot.target;
    assert out[0] == Out(hop) && out[1..] == Outward(rest);
    PathCons(out, base, target);
    HopReturns(hop);
    ProductAppend(Homeward(rest), [Back(hop)]);
    SingleLeg(Back(hop), middle, base);
    assert (forall i :: 0 <= i < |hops| ==> Reversible(hops[i])) <==>
           Reversible(hop) && forall i :: 0 <= i < |rest| ==> Reversible(rest[i]);
    if rest == [] {
      assert Homeward(hops) == [Back(hop)];
      TimesGroups(RateOf(Out(hop)), 1.0, 1.0);
    } else {
      PathsReturn(rest, middle, target);
      PathBreaksInTwo(Homeward(rest), [Back(hop)], target, middle, base);
      if Path(Homeward(hops), target, base) {
        Cancel(RateOf(Out(hop)), Product(Outward(rest)), Product(Homeward(rest)), RateOf(Back(hop)));
      }
    }
  }

  lemma SingleLeg(leg: Decision, base: string, target: string)
    requires leg.base == Some(base) && leg.target == Some(target)
    ensures Path([leg], base, target) <==> UsableLeg(leg)
    ensures Product([leg]) == RateOf(leg)
  {
    assert [leg][1..] == [];
    TimesGroups(RateOf(leg), 1.0, 1.0);
  }

  /** A path whose last leg starts at the middle is a path to the middle, then that leg. */
  lemma PathBreaksInTwo(a: seq<Decision>, b: seq<Decision>, base: string, middle: string, target: string)
    requires a != [] && |b| == 1 && b[0].base == Some(middle) && b[0].target == Some(target)
    ensures Path(a + b, base, target) <==> Path(a, base, middle) && Path(b, middle, target)
  {
    if Path(a + b, base, target) {
      var c := a + b;
      assert c[|a|] == b[0] && forall i :: 0 <= i < |a| ==> c[i] == a[i];
      assert c[|a| - 1].target == c[|a|].base;
    }
    if Path(a, base, middle) && Path(b, middle, target) {
      PathAppend(a, b, base, middle, target);
    }
  }

  lemma {:induction false} AnswersAreLegs(hops: seq<Hop>)
    requires ValidHops(hops)
    ensures forall d :: d in Outward(hops) || d in Homeward(hops) ==> ValidDecision(d)
  {
    if hops != [] {
      var s := hops[0].snapshot;
      AnswersAreValid(hops[0].policy, hops[0].checkedAt, Some(s.base), Some(s.target), Evidence(Some(s), None, []));
      AnswersAreValid(hops[0].policy, hops[0].checkedAt, Some(s.target), Some(s.base), Evidence(None, Some(s), []));
      AnswersAreLegs(hops[1..]);
    }
  }

  /** There and back: when a chain of single rates is READY, the chain of the same rates turned round is
      READY exactly when the policy allows the reversed pair and every hop permits its inverse; and then
      the two rates are exact reciprocals. */
  lemma ThereAndBack(policy: Policy, checkedAt: int, hops: seq<Hop>, base: string, target: string)
    requires ValidHops(hops) && base != target
    requires ValidEvidence(Evidence(None, None, Outward(hops)))
    requires Evaluate(policy, checkedAt, Some(base), Some(target), Evidence(None, None, Outward(hops))).ready
    ensures ValidEvidence(Evidence(None, None, Homeward(hops)))
    ensures var there := Evaluate(policy, checkedAt, Some(base), Some(target), Evidence(None, None, Outward(hops)));
            var back := Evaluate(policy, checkedAt, Some(target), Some(base), Evidence(None, None, Homeward(hops)));
            && (back.ready <==>
                  && PolicyPairAllows(policy, target, base)
                  && forall i :: 0 <= i < |hops| ==> Reversible(hops[i]))
            && (back.ready ==> Times(RateOf(there), RateOf(back)) == 1.0)
  {
    AnswersAreLegs(hops);
    ChainReadyExactlyOnPaths(policy, checkedAt, base, target, Outward(hops));
    ChainReadyExactlyOnPaths(policy, checkedAt, target, base, Homeward(hops));
    PathsReturn(hops, base, target);
  }

  lemma Cancel(x: real, p: real, q: real, y: real)
    requires Times(x, y) == 1.0 && Times(p, q) == 1.0
    ensures Times(Times(x, p), Times(q, y)) == 1.0
  {
    TimesGroups(Times(x, p), q, y);
    TimesGroups(x, p, q);
    TimesGroups(x, 1.0, 1.0);
  }
}
