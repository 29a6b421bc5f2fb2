/** Updates and rotations of a validator set in any order, on lists of
    validators: the invariant that they keep (`types/validator_set.go`). */
module ValidatorRuns {
  import opened Basics
  import opened Int64
  import opened Sums
  import opened Sorting
  import opened Validators
  import opened ProposerPriority
  import opened ProposerFairness
  import opened ValidatorChanges
  import opened ChangeProcessing
  import opened ChangeMerge
  import opened ValidatorUpdates

  /** The order of a set: power descending, then address ascending. */
  predicate ByPower(a: Validator, b: Validator) {
    a.power > b.power || (a.power == b.power && Less(a.address, b.address))
  }

  ghost predicate PowerSorted(vs: seq<Validator>) {
    forall i, j :: 0 <= i < j < |vs| ==> ByPower(vs[i], vs[j])
  }

  /** No priority of a set in use is above 3.75 times the maximal total. */
  const PriorityCeiling: int := MaxTotalVotingPower * 15 / 4

  /** The state between operations: members as promised, sorted, priorities
      centred and inside a window that leaves room for the next operation. */
  ghost predicate Settled(vs: seq<Validator>) {
    && Members(vs) && PowerSorted(vs)
    && (|vs| > 0 ==> SumCentred(vs) && Within(vs, -2 * Total(vs), PriorityCeiling))
  }

  lemma ByPowerOrders()
    ensures StrictWeakOrder(ByPower)
  {
    forall a, b ensures !(ByPower(a, b) && ByPower(b, a)) { LessTotal(a.address, b.address); }
    forall a, b, c | !ByPower(b, a) && !ByPower(c, b) ensures !ByPower(c, a) {
      LessTotal(a.address, b.address);
      LessTotal(b.address, c.address);
      LessTotal(a.address, c.address);
      if Less(a.address, b.address) && Less(b.address, c.address) {
        LessTransitive(a.address, b.address, c.address);
      }
    }
  }

  lemma PrecedesTransitive(a: Validator, b: Validator, c: Validator)
    requires Precedes(a, b) && Precedes(b, c)
    ensures Precedes(a, c)
  {
    if a.priority == b.priority == c.priority { LessTransitive(a.address, b.address, c.address); }
  }

  /** Distinct members with power and 64-bit numbers: what every operation of
      the code leaves, whatever became of the priorities. */
  ghost predicate Sane(vs: seq<Validator>) { Members(vs) && AllInInt64(vs) }

  // ---- The invariant across the operations ----

  /** The window leaves room for `diff + diffMax - 1` in `RescalePriorities`. */
  lemma WindowFits(vs: seq<Validator>)
    requires |vs| > 0 && Members(vs) && Within(vs, -9 * MaxTotalVotingPower / 4, PriorityCeiling)
    ensures Sane(vs) && SpreadFits(vs)
  {
    TotalBounds(vs);
  }

  lemma SettledFits(vs: seq<Validator>)
    requires Settled(vs)
    ensures Sane(vs) && Within(vs, -9 * MaxTotalVotingPower / 4, PriorityCeiling) && (|vs| > 0 ==> SpreadFits(vs))
  {
    TotalBounds(vs);
    if |vs| > 0 { WindowFits(vs); }
  }

  /** After so many steps the priorities are below the ceiling again: by their
      number, or by the logarithmic bound, which does not depend on it. */
  ghost predicate HasRoom(total: int, n: nat, times: nat) {
    times == 1 || RoomyByCount(total, times, PriorityCeiling) || EndsByLog(total, n)
  }

  predicate EndsByLog(total: int, n: nat) {
    (total as real) * (1.0 + Harmonic(n)) <= PriorityCeiling as real
  }

  /** For up to eight validators that is always so. */
  lemma EightHaveRoom(vs: seq<Validator>, times: nat)
    requires Members(vs) && |vs| <= 8
    ensures HasRoom(Total(vs), |vs|, times)
  {
    HarmonicOfEight();
    HarmonicMonotone(|vs|, 8);
    SumAtLeast(Powers(vs), 0);
    ScaleReal(Total(vs) as real, 1.0 + Harmonic(|vs|), 3.72);
    CeilingHolds(Total(vs));
    assert EndsByLog(Total(vs), |vs|);
  }

  lemma CeilingHolds(total: int)
    requires total <= MaxTotalVotingPower
    ensures (total as real) * 3.72 <= PriorityCeiling as real
  {
    assert (total * 372) as real <= (PriorityCeiling * 100) as real;
  }

  lemma RoomIsRoomy(vs: seq<Validator>, times: nat)
    requires Members(vs) && HasRoom(Total(vs), |vs|, times)
    ensures Roomy(Total(vs), |vs|, times, MaxInt64)
  {
    var total := Total(vs);
    if EndsByLog(total, |vs|) {
      assert (total as real) * (2.0 + Harmonic(|vs|)) == (total as real) * (1.0 + Harmonic(|vs|)) + total as real;
    } else {
      assert RoomyByCount(total, times, MaxInt64);
    }
  }

  /** A run of `times` steps ends inside the window if there is room. */
  lemma RunStaysSettled(vs: seq<Validator>, states: seq<seq<Validator>>, picks: seq<int>)
    requires |vs| > 0 && Members(vs) && PowerSorted(vs) && |picks| > 0
    requires ClippedRun(states, picks) && states[0] == Normalized(vs)
    requires HasRoom(Total(vs), |vs|, |picks|)
    ensures Settled(states[|picks|]) && SameMembers(vs, states[|picks|])
  {
    var k := |picks|;
    RoomIsRoomy(vs, k);
    RunIsExact(vs, states, picks, k, k);
    NormalizedBounds(vs);
    RunKeepsMembers(vs, states, picks, k);
    EndOfRun(vs, states[k], PrioritiesOf(states), picks);
  }

  lemma EndOfRun(vs: seq<Validator>, last: seq<Validator>, ps: seq<seq<int>>, picks: seq<int>)
    requires |vs| > 0 && Members(vs) && PowerSorted(vs) && |picks| > 0
    requires ExactRun(ps, Powers(vs), picks, |picks|) && ps[0] == Priorities(Normalized(vs))
    requires ps[|picks|] == Priorities(last) && SameMembers(vs, last)
    requires HasRoom(Total(vs), |vs|, |picks|)
    ensures Settled(last)
  {
    SameMembersKeeps(vs, last);
    EndWithin(vs, last, ps, picks);
    SameOrder(vs, last);
  }

  lemma EndWithin(vs: seq<Validator>, last: seq<Validator>, ps: seq<seq<int>>, picks: seq<int>)
    requires |vs| > 0 && Members(vs) && |picks| > 0
    requires ExactRun(ps, Powers(vs), picks, |picks|) && ps[0] == Priorities(Normalized(vs))
    requires ps[|picks|] == Priorities(last) && |last| == |vs|
    requires HasRoom(Total(vs), |vs|, |picks|)
    ensures SumCentred(last) && Within(last, -2 * Total(vs), PriorityCeiling)
  {
    var k := |picks|;
    RunStaysCentred(vs, ps, picks, k);
    forall i | 0 <= i < |last| ensures last[i].priority <= PriorityCeiling {
      EndFits(vs, ps, picks, k, i);
    }
  }

  lemma EndFits(vs: seq<Validator>, ps: seq<seq<int>>, picks: seq<int>, k: nat, i: nat)
    requires |vs| > 0 && Members(vs) && i < |vs|
    requires ExactRun(ps, Powers(vs), picks, k) && ps[0] == Priorities(Normalized(vs))
    requires HasRoom(Total(vs), |vs|, k)
    ensures |ps[k]| == |vs| && ps[k][i] <= PriorityCeiling
  {
    StartBounds(vs);
    if EndsByLog(Total(vs), |vs|) {
      ClimbIsLogarithmic(ps, Powers(vs), picks, k, i);
      LogBelowCeiling(ps[k][i], Total(vs), |vs|);
    } else {
      ClimbIsLinear(ps, Powers(vs), picks, k, i);
      CountBelowCeiling(Total(vs), k);
    }
  }

  lemma LogBelowCeiling(x: int, total: int, n: nat)
    requires AtMostLog(x, total, n) && EndsByLog(total, n)
    ensures x <= PriorityCeiling
  {}

  lemma CountBelowCeiling(total: int, k: nat)
    requires total <= MaxTotalVotingPower && (k == 1 || RoomyByCount(total, k, PriorityCeiling))
    ensures 2 * total + k * total <= PriorityCeiling
  {
    assert (k + 2) * total == k * total + 2 * total;
  }

  lemma SameOrder(vs: seq<Validator>, last: seq<Validator>)
    requires SameMembers(vs, last) && PowerSorted(vs)
    ensures PowerSorted(last)
  {
    forall i, j | 0 <= i < j < |last| ensures ByPower(last[i], last[j]) {
      assert ByPower(vs[i], vs[j]);
    }
  }

  /** The merged list of an accepted change: members as promised, and priorities
      in the same range as before where that has room for a newcomer. */
  lemma UpdatedFits(vs: seq<Validator>, changes: seq<Validator>, allowDeletes: bool, m: seq<Validator>, lo: int, hi: int)
    requires Members(vs) && Within(vs, lo, hi) && lo <= -9 * MaxTotalVotingPower / 4 && 0 <= hi
    requires Accepts(vs, changes, allowDeletes) && Merges(vs, changes, m)
    ensures |m| > 0 && Members(m) && Within(m, lo, hi)
    ensures Total(m) == Total(Applied(vs, changes))
  {
    AscendingDistinct(m);
    TotalPermutation(m, Updated(vs, changes));
    UpdatedTotals(vs, changes);
    forall i | 0 <= i < |m| ensures 1 <= m[i].power && lo <= m[i].priority <= hi {
      assert m[i] in multiset(m);
      UpdatedMemberFits(vs, changes, m[i], lo, hi);
    }
  }

  /** The list that `updateWithChangeSet` rescales. */
  ghost predicate Merges(vs: seq<Validator>, changes: seq<Validator>, m: seq<Validator>) {
    && 0 <= UpdatedTotal(vs, changes) <= 2 * MaxTotalVotingPower
    && Ascending(m) && multiset(m) == multiset(Updated(vs, changes))
  }

  /** The priorities before rescaling: whoever was in the set keeps its own, and
      a newcomer starts 1.125 times the total behind, rounded, where the total
      counts the updates and not yet the removals. */
  lemma MergedPriorities(vs: seq<Validator>, changes: seq<Validator>, m: seq<Validator>, v: Validator)
    requires DistinctAddresses(vs) && DistinctAddresses(changes) && Merges(vs, changes, m) && v in m
    ensures forall i :: 0 <= i < |vs| && vs[i].address == v.address ==> v.priority == vs[i].priority
    ensures var total := Total(vs) + Sum(Deltas(vs, Positive(changes)));
      !HasAddress(vs, v.address) ==> -9 * total <= 8 * v.priority <= -9 * total + 7
  {
    var total := UpdatedTotal(vs, changes);
    assert v in multiset(m);
    assert v in Updated(vs, changes);
    IncomingDistinct(vs, total, changes);
    AppliedMembers(vs, Incoming(vs, total, changes), v);
    if v in vs { OnlyOne(vs, v); } else { NewcomerBehind(vs, total, changes, v); }
  }

  lemma OnlyOne(vs: seq<Validator>, v: Validator)
    requires DistinctAddresses(vs) && v in vs
    ensures HasAddress(vs, v.address) && forall i :: 0 <= i < |vs| && vs[i].address == v.address ==> vs[i] == v
  {
    var j :| 0 <= j < |vs| && vs[j] == v;
  }

  lemma NewcomerBehind(vs: seq<Validator>, total: int, changes: seq<Validator>, v: Validator)
    requires DistinctAddresses(vs) && v in Incoming(vs, total, changes) && total >= 0
    ensures forall i :: 0 <= i < |vs| && vs[i].address == v.address ==> v.priority == vs[i].priority
    ensures !HasAddress(vs, v.address) ==> -9 * total <= 8 * v.priority <= -9 * total + 7
  {
    var present := GetByAddress(vs, v.address);
    if present.Some? { OnlyOne(vs, present.value); }
  }

  lemma MergedIsSane(vs: seq<Validator>, changes: seq<Validator>, allowDeletes: bool, m: seq<Validator>)
    requires Sane(vs) && Accepts(vs, changes, allowDeletes) && Merges(vs, changes, m)
    ensures |m| > 0 && Sane(m)
  {
    UpdatedFits(vs, changes, allowDeletes, m, MinInt64, MaxInt64);
    TotalBounds(m);
  }

  lemma UpdatedTotals(vs: seq<Validator>, changes: seq<Validator>)
    requires DistinctAddresses(vs) && DistinctAddresses(changes) && Applied(vs, changes) != []
    ensures Updated(vs, changes) != [] && Total(Updated(vs, changes)) == Total(Applied(vs, changes))
  {
    var total := UpdatedTotal(vs, changes);
    var all := Incoming(vs, total, changes);
    IncomingDistinct(vs, total, changes);
    NotEmptied(vs, changes, all);
    SameDeltas(vs, total, changes);
  }

  lemma SameDeltas(vs: seq<Validator>, total: int, changes: seq<Validator>)
    requires DistinctAddresses(vs) && DistinctAddresses(changes)
    ensures Total(Applied(vs, Incoming(vs, total, changes))) == Total(Applied(vs, changes))
  {
    var all := Incoming(vs, total, changes);
    IncomingDistinct(vs, total, changes);
    AppliedTotal(vs, all);
    AppliedTotal(vs, changes);
    forall i | 0 <= i < |changes| ensures Deltas(vs, all)[i] == Deltas(vs, changes)[i] {
      assert all[i].power == changes[i].power && all[i].address == changes[i].address;
    }
    assert Deltas(vs, all) == Deltas(vs, changes);
  }

  lemma UpdatedMemberFits(vs: seq<Validator>, changes: seq<Validator>, v: Validator, lo: int, hi: int)
    requires Members(vs) && Within(vs, lo, hi) && WellFormedChanges(changes) && v in Updated(vs, changes)
    requires 0 <= UpdatedTotal(vs, changes) <= 2 * MaxTotalVotingPower && lo <= -9 * MaxTotalVotingPower / 4 && 0 <= hi
    ensures 1 <= v.power && lo <= v.priority <= hi
  {
    var total := UpdatedTotal(vs, changes);
    var all := Incoming(vs, total, changes);
    IncomingDistinct(vs, total, changes);
    AppliedMembers(vs, all, v);
    if v in all && v.power != 0 {
      IncomingFits(vs, total, changes, v, lo, hi);
    } else {
      MemberFits(vs, v, lo, hi);
    }
  }

  lemma MemberFits(vs: seq<Validator>, v: Validator, lo: int, hi: int)
    requires Members(vs) && Within(vs, lo, hi) && v in vs
    ensures 1 <= v.power && lo <= v.priority <= hi
  {
    var i :| 0 <= i < |vs| && vs[i] == v;
    assert vs[i].power >= 1;
  }

  lemma IncomingFits(vs: seq<Validator>, total: int, changes: seq<Validator>, v: Validator, lo: int, hi: int)
    requires Members(vs) && Within(vs, lo, hi) && WellFormedChanges(changes)
    requires 0 <= total <= 2 * MaxTotalVotingPower && lo <= -9 * MaxTotalVotingPower / 4 && 0 <= hi
    requires v in Incoming(vs, total, changes) && v.power != 0
    ensures 1 <= v.power && lo <= v.priority <= hi
  {
    var all := Incoming(vs, total, changes);
    var i :| 0 <= i < |all| && all[i] == v;
    assert changes[i] in changes && v.power == changes[i].power;
    var present := GetByAddress(vs, v.address);
    if present.Some? { MemberFits(vs, present.value, lo, hi); }
  }

  lemma NotEmptied(vs: seq<Validator>, changes: seq<Validator>, all: seq<Validator>)
    requires DistinctAddresses(changes) && DistinctAddresses(all) && |all| == |changes|
    requires forall i :: 0 <= i < |all| ==> all[i] == changes[i].(priority := all[i].priority)
    requires Applied(vs, changes) != []
    ensures Applied(vs, all) != []
  {
    var v := Applied(vs, changes)[0];
    assert v in Applied(vs, changes);
    AppliedMembers(vs, changes, v);
    if v in changes && v.power != 0 {
      var i :| 0 <= i < |changes| && changes[i] == v;
      assert all[i] in all;
      AppliedMembers(vs, all, all[i]);
    } else {
      forall i | 0 <= i < |all| ensures all[i].address != v.address { assert changes[i].address == all[i].address; }
      AppliedMembers(vs, all, v);
    }
  }

  /** Sorting a normalized list settles it. */
  lemma SortedSettles(m: seq<Validator>, s: seq<Validator>)
    requires |m| > 0 && Members(m)
    requires multiset(s) == multiset(Normalized(m)) && SortedBy(s, ByPower)
    ensures Settled(s) && |s| == |m| && Total(s) == Total(m) && Within(s, -2 * Total(m), 2 * Total(m))
  {
    var n := Normalized(m);
    NormalizedBounds(m);
    TotalPermutation(s, n);
    DistinctPermutation(n, s);
    PrioritySumPermutation(s, n);
    TotalBounds(m);
    forall i | 0 <= i < |s|
      ensures 1 <= s[i].power && -2 * Total(m) <= s[i].priority <= 2 * Total(m)
    {
      assert s[i] in multiset(s);
      assert s[i] in n;
      var j :| 0 <= j < |n| && n[j] == s[i];
    }
    forall i, j | 0 <= i < j < |s| ensures ByPower(s[i], s[j]) {
      assert !ByPower(s[j], s[i]);
      LessTotal(s[i].address, s[j].address);
    }
  }

  lemma PrioritySumPermutation(a: seq<Validator>, b: seq<Validator>)
    requires multiset(a) == multiset(b)
    ensures Sum(Priorities(a)) == Sum(Priorities(b))
  {
    PrioritySumIsSumBy(a);
    PrioritySumIsSumBy(b);
    SumByPermutation((v: Validator) => v.priority, a, b);
  }

  lemma {:induction false} PrioritySumIsSumBy(vs: seq<Validator>)
    ensures Sum(Priorities(vs)) == SumBy((v: Validator) => v.priority, vs)
  {
    if |vs| > 0 {
      var n := |vs| - 1;
      PrioritySumIsSumBy(vs[..n]);
      assert Priorities(vs)[..n] == Priorities(vs[..n]);
    }
  }

  // ---- Runs ----

  /** One operation of the code: an accepted change list, or any number of
      rotation steps. */
  datatype Operation = Change(changes: seq<Validator>) | Rotate(times: nat)

  ghost predicate ChangesTo(before: seq<Validator>, changes: seq<Validator>, allowDeletes: bool, after: seq<Validator>) {
    Accepts(before, changes, allowDeletes) && SortedBy(after, ByPower) && exists m :: Installs(before, changes, m, after)
  }

  /** A changed set goes down in power, and among equals up in address. */
  lemma ChangedOrder(before: seq<Validator>, changes: seq<Validator>, allowDeletes: bool, after: seq<Validator>, i: nat, j: nat)
    requires ChangesTo(before, changes, allowDeletes, after) && i < j < |after|
    ensures after[i].power >= after[j].power
    ensures after[i].power == after[j].power ==> !Less(after[j].address, after[i].address)
  {
    assert !ByPower(after[j], after[i]);
  }

  ghost predicate Installs(before: seq<Validator>, changes: seq<Validator>, m: seq<Validator>, after: seq<Validator>) {
    Merges(before, changes, m) && |m| > 0 && Sane(m) && multiset(after) == multiset(Normalized64(m))
  }

  ghost predicate RotatesTo(before: seq<Validator>, times: nat, after: seq<Validator>) {
    times > 0 && exists states, picks :: RotationRun(before, times, states, picks, after)
  }

  ghost predicate RotationRun(before: seq<Validator>, times: nat, states: seq<seq<Validator>>, picks: seq<int>, after: seq<Validator>) {
    && |before| > 0 && Sane(before) && |picks| == times && ClippedRun(states, picks)
    && states[0] == Normalized64(before) && states[times] == after
  }

  ghost predicate Performs(before: seq<Validator>, op: Operation, after: seq<Validator>) {
    match op
    case Change(changes) => ChangesTo(before, changes, true, after)
    case Rotate(times) => RotatesTo(before, times, after)
  }

  /** A rotation that takes the exact steps from the exact normalization: no
      clip branch, however the steps went. */
  ghost predicate RotatedExactly(before: seq<Validator>, times: nat, after: seq<Validator>) {
    forall states, picks :: RotationRun(before, times, states, picks, after) ==>
      states[0] == Normalized(before) && ExactRun(PrioritiesOf(states), Powers(before), picks, times)
  }

  lemma RotationIsExact(before: seq<Validator>, times: nat, after: seq<Validator>)
    requires |before| > 0 && Sane(before) && SpreadFits(before) && Roomy(Total(before), |before|, times, MaxInt64)
    ensures RotatedExactly(before, times, after)
  {
    forall states, picks | RotationRun(before, times, states, picks, after)
      ensures states[0] == Normalized(before) && ExactRun(PrioritiesOf(states), Powers(before), picks, times)
    {
      NormalizedIsExact(before);
      RunIsExact(before, states, picks, times, times);
    }
  }

  lemma RotationSettles(before: seq<Validator>, times: nat, after: seq<Validator>)
    requires RotatesTo(before, times, after) && SpreadFits(before) && PowerSorted(before) && HasRoom(Total(before), |before|, times)
    ensures Settled(after)
  {
    var states, picks :| RotationRun(before, times, states, picks, after);
    NormalizedIsExact(before);
    RunStaysSettled(before, states, picks);
  }

  lemma ChangeSettles(before: seq<Validator>, changes: seq<Validator>, allowDeletes: bool, after: seq<Validator>)
    requires Settled(before) && ChangesTo(before, changes, allowDeletes, after)
    ensures Settled(after) && Within(after, -2 * Total(after), 2 * Total(after))
  {
    var m :| Installs(before, changes, m, after);
    SettledFits(before);
    UpdatedFits(before, changes, allowDeletes, m, -9 * MaxTotalVotingPower / 4, PriorityCeiling);
    WindowFits(m);
    NormalizedIsExact(m);
    SortedSettles(m, after);
  }

  /** Updates, and rotations that have room, keep the invariant. */
  lemma OperationKeepsSettled(before: seq<Validator>, op: Operation, after: seq<Validator>)
    requires Settled(before) && Performs(before, op, after)
    requires op.Rotate? ==> HasRoom(Total(before), |before|, op.times)
    ensures Settled(after)
  {
    match op {
      case Change(changes) => ChangeSettles(before, changes, true, after);
      case Rotate(times) =>
        SettledFits(before);
        RotationSettles(before, times, after);
    }
  }

  /** All operations, with room or without, leave a list to go on with. */
  lemma OperationKeepsSane(before: seq<Validator>, op: Operation, after: seq<Validator>)
    requires Performs(before, op, after)
    ensures Sane(after) && |after| > 0 && (op.Change? || PowerSorted(before) ==> PowerSorted(after))
  {
    match op {
      case Change(changes) =>
        var m :| Installs(before, changes, m, after);
        SortedIsSane(m, after);
      case Rotate(times) =>
        var states, picks :| RotationRun(before, times, states, picks, after);
        RunKeepsMembers(before, states, picks, times);
        ClippedStepAt(states, picks, times - 1);
        StepIsSane(before, states[times - 1], picks[times - 1], after);
        if PowerSorted(before) { SameOrder(before, after); }
    }
  }

  lemma StepIsSane(vs: seq<Validator>, before: seq<Validator>, m: int, after: seq<Validator>)
    requires Members(vs) && SameMembers(vs, after) && ClippedStep(before, m, after)
    ensures Sane(after)
  {
    SameMembersKeeps(vs, after);
  }

  lemma SortedIsSane(m: seq<Validator>, s: seq<Validator>)
    requires |m| > 0 && Sane(m) && multiset(s) == multiset(Normalized64(m)) && SortedBy(s, ByPower)
    ensures |s| > 0 && Sane(s) && PowerSorted(s)
  {
    var n := Normalized64(m);
    SameMembersKeeps(m, n);
    SortedPermutation(n, s);
  }

  lemma SortedPermutation(n: seq<Validator>, s: seq<Validator>)
    requires |n| > 0 && Sane(n) && multiset(s) == multiset(n) && SortedBy(s, ByPower)
    ensures |s| == |n| && Sane(s) && PowerSorted(s)
  {
    assert |s| == |multiset(s)| == |n|;
    TotalPermutation(s, n);
    DistinctPermutation(n, s);
    forall i | 0 <= i < |s| ensures 1 <= s[i].power && InInt64(s[i].power) && InInt64(s[i].priority) {
      assert s[i] in multiset(s);
      assert s[i] in n;
    }
    forall i, j | 0 <= i < j < |s| ensures ByPower(s[i], s[j]) {
      assert !ByPower(s[j], s[i]);
      LessTotal(s[i].address, s[j].address);
    }
  }

  /** Updates and single rotations leave every priority in [-2T, 3T]. */
  lemma OperationIsTight(before: seq<Validator>, op: Operation, after: seq<Validator>)
    requires Settled(before) && Performs(before, op, after) && (op.Rotate? ==> op.times == 1)
    ensures Within(after, -2 * Total(after), 3 * Total(after))
  {
    OperationKeepsSettled(before, op, after);
    match op {
      case Change(changes) =>
        ChangeSettles(before, changes, true, after);
        TotalBounds(after);
      case Rotate(times) =>
        var states, picks :| RotationRun(before, 1, states, picks, after);
        SettledFits(before);
        NormalizedIsExact(before);
        OneStepIsTight(before, states, picks, after);
    }
  }

  lemma OneStepIsTight(vs: seq<Validator>, states: seq<seq<Validator>>, picks: seq<int>, after: seq<Validator>)
    requires |vs| > 0 && Members(vs) && |picks| == 1 && ClippedRun(states, picks)
    requires states[0] == Normalized(vs) && states[1] == after
    ensures Within(after, -2 * Total(after), 3 * Total(after))
  {
    RoomIsRoomy(vs, 1);
    RunIsExact(vs, states, picks, 1, 1);
    NormalizedBounds(vs);
    RunKeepsMembers(vs, states, picks, 1);
    SameMembersKeeps(vs, after);
    StartBounds(vs);
    RunStaysCentred(vs, PrioritiesOf(states), picks, 1);
    forall i | 0 <= i < |after| ensures after[i].priority <= 3 * Total(after) {
      ClimbIsLinear(PrioritiesOf(states), Powers(vs), picks, 1, i);
    }
  }

  /** A run of the code's operations. */
  ghost predicate IsRun(run: seq<seq<Validator>>, ops: seq<Operation>) {
    |run| == |ops| + 1 && forall j :: 0 <= j < |ops| ==> Performs(run[j], ops[j], run[j + 1])
  }

  /** Every rotation among the first k operations has room. */
  ghost predicate RoomAlong(run: seq<seq<Validator>>, ops: seq<Operation>, k: nat)
    requires |run| == |ops| + 1 && k <= |ops|
  {
    forall j :: 0 <= j < k && ops[j].Rotate? ==> HasRoom(Total(run[j]), |run[j]|, ops[j].times)
  }

  lemma {:induction false} SettledAlong(run: seq<seq<Validator>>, ops: seq<Operation>, k: nat)
    requires IsRun(run, ops) && k <= |ops| && Settled(run[0]) && RoomAlong(run, ops, k)
    ensures Settled(run[k])
  {
    if k > 0 {
      var j := k - 1;
      SettledAlong(run, ops, j);
      assert Performs(run[j], ops[j], run[j + 1]);
      OperationKeepsSettled(run[j], ops[j], run[j + 1]);
    }
  }

  /** Every state of every run from a settled set is settled as long as rotations
      have room, and a rotation with room takes no clip branch. */
  lemma RunsStaySettled(run: seq<seq<Validator>>, ops: seq<Operation>, k: nat)
    requires IsRun(run, ops) && k < |ops| && Settled(run[0]) && RoomAlong(run, ops, k + 1)
    ensures Settled(run[k]) && Settled(run[k + 1])
    ensures ops[k].Rotate? ==> RotatedExactly(run[k], ops[k].times, run[k + 1])
  {
    SettledAlong(run, ops, k);
    SettledAlong(run, ops, k + 1);
    if ops[k].Rotate? {
      assert Performs(run[k], ops[k], run[k + 1]);
      SettledFits(run[k]);
      RoomIsRoomy(run[k], ops[k].times);
      RotationIsExact(run[k], ops[k].times, run[k + 1]);
    }
  }

  /** With at most eight validators no condition on the steps is left. */
  lemma {:induction false} RunsOfFewStaySettled(run: seq<seq<Validator>>, ops: seq<Operation>, k: nat)
    requires IsRun(run, ops) && k <= |ops| && Settled(run[0]) && forall j :: 0 <= j <= k ==> |run[j]| <= 8
    ensures Settled(run[k])
  {
    if k > 0 {
      var j := k - 1;
      RunsOfFewStaySettled(run, ops, j);
      OperationAt(run, ops, j);
      FewOperationSettles(run[j], ops[j], run[k]);
    }
  }

  lemma OperationAt(run: seq<seq<Validator>>, ops: seq<Operation>, j: nat)
    requires IsRun(run, ops) && j < |ops|
    ensures Performs(run[j], ops[j], run[j + 1])
  {}

  lemma FewOperationSettles(before: seq<Validator>, op: Operation, after: seq<Validator>)
    requires Settled(before) && |before| <= 8 && Performs(before, op, after)
    ensures Settled(after)
  {
    EightHaveRoom(before, if op.Rotate? then op.times else 1);
    OperationKeepsSettled(before, op, after);
  }

  /** Whatever the steps and the powers: with at most two hundred validators a
      rotation from a settled set takes no clip branch. */
  lemma RotationOfFewIsExact(before: seq<Validator>, times: nat, after: seq<Validator>)
    requires Settled(before) && 0 < |before| <= 200
    ensures RotatedExactly(before, times, after)
  {
    SettledFits(before);
    FewAreRoomy(before, times);
    RotationIsExact(before, times, after);
  }

  /** Every run of the code, with room or without, goes through lists of
      distinct members with power and 64-bit numbers. */
  lemma RunsStaySane(run: seq<seq<Validator>>, ops: seq<Operation>, k: nat)
    requires IsRun(run, ops) && 0 < k <= |ops|
    ensures Sane(run[k]) && |run[k]| > 0
  {
    assert Performs(run[k - 1], ops[k - 1], run[k - 1 + 1]);
    OperationKeepsSane(run[k - 1], ops[k - 1], run[k]);
  }

  lemma RoomSettles(vs: seq<Validator>, times: nat, states: seq<seq<Validator>>, picks: seq<int>, after: seq<Validator>)
    requires times > 0 && RotationRun(vs, times, states, picks, after)
    ensures SpreadFits(vs) && PowerSorted(vs) && HasRoom(Total(vs), |vs|, times) ==> Settled(after)
  {
    if SpreadFits(vs) && PowerSorted(vs) && HasRoom(Total(vs), |vs|, times) {
      assert RotatesTo(vs, times, after);
      RotationSettles(vs, times, after);
    }
  }
}
