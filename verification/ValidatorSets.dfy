/** The validator set of `types/validator_set.go` and its methods. */
module ValidatorSets {
  import opened Basics
  import opened Int64
  import opened Sums
  import opened Sorting
  import opened Validators
  import opened ProposerPriority
  import opened ProposerFairness
  import opened ValidatorChanges
  import opened ValidatorUpdates
  import opened ValidatorRuns

  class ValidatorSet {
    var validators: seq<Validator>
    var proposer: Option<Validator>
    var totalVotingPower: int

    ghost predicate Valid()
      reads this
    {
      Settled(validators) && totalVotingPower == Total(validators)
    }

    /** What every operation leaves, whatever became of the priorities. */
    ghost predicate Usable()
      reads this
    {
      Sane(validators) && totalVotingPower == Total(validators)
    }

    constructor Empty()
      ensures Valid() && validators == [] && proposer == None
    {
      validators, proposer, totalVotingPower := [], None, 0;
    }

    /** `NewValidatorSet`; null where the source panics. */
    static method New(valz: seq<Validator>) returns (r: ValidatorSet?)
      ensures r == null <==> valz != [] && !Accepts([], valz, false)
      ensures r != null ==> fresh(r) && r.Valid()
      ensures r != null ==> if valz == [] then r.validators == [] else
        exists start :: ChangesTo([], valz, false, start) && RotatesTo(start, 1, r.validators)
    {
      var s := new ValidatorSet.Empty();
      var ok := s.UpdateWithChangeSet(valz, false);
      if !ok { return null; }
      if |valz| > 0 {
        ghost var start := s.validators;
        assert ChangesTo([], valz, false, start);
        SettledFits(start);
        var _, _ := s.IncrementProposerPriority(1);
        assert RotatesTo(start, 1, s.validators);
      }
      r := s;
    }

    /** `updateTotalVotingPower`; its panic is the dead branch. */
    method UpdateTotalVotingPower()
      requires Members(validators)
      modifies this`totalVotingPower
      ensures totalVotingPower == Total(validators)
    {
      var sum := 0;
      for i := 0 to |validators|
        invariant sum == Total(validators[..i]) && 0 <= sum <= MaxTotalVotingPower
        modifies {}
      {
        PrefixTotal(validators, i);
        sum := SafeAddClip(sum, validators[i].power);
        if sum > MaxTotalVotingPower {
          assert false;
        }
      }
      assert validators[..|validators|] == validators;
      totalVotingPower := sum;
    }

    /** `TotalVotingPower`: a zero cache is recomputed. */
    method TotalVotingPower() returns (t: int)
      requires Members(validators) && (totalVotingPower == 0 || totalVotingPower == Total(validators))
      modifies this`totalVotingPower
      ensures t == totalVotingPower == Total(validators)
    {
      if totalVotingPower == 0 {
        UpdateTotalVotingPower();
      }
      t := totalVotingPower;
    }

    /** `computeMaxMinPriorityDiff` */
    method ComputeMaxMinPriorityDiff() returns (diff: int)
      requires |validators| > 0 && AllInInt64(validators)
      ensures diff == Diff64(validators)
    {
      var max, min := Extremes();
      diff := Abs64(Wrap64(max - min));
    }

    method Extremes() returns (max: int, min: int)
      requires |validators| > 0 && AllInInt64(validators)
      ensures max == MaxPriority(validators) && min == MinPriority(validators)
    {
      max, min := MinInt64, MaxInt64;
      for i := 0 to |validators|
        invariant i == 0 ==> max == MinInt64 && min == MaxInt64
        invariant i > 0 ==> max == MaxPriority(validators[..i]) && min == MinPriority(validators[..i])
      {
        ExtremesStep(validators, i);
        if validators[i].priority < min { min := validators[i].priority; }
        if validators[i].priority > max { max := validators[i].priority; }
      }
      assert validators[..|validators|] == validators;
    }

    /** `RescalePriorities`; it panics when the ratio is zero, before anything is
        changed. */
    method RescalePriorities(diffMax: int) returns (panics: bool)
      requires |validators| > 0 && AllInInt64(validators) && diffMax <= MaxInt64
      modifies this`validators
      ensures panics <==> RescalePanics(old(validators), diffMax)
      ensures validators == Rescaled64(old(validators), diffMax)
    {
      if diffMax <= 0 { return false; }
      var diff := ComputeMaxMinPriorityDiff();
      var ratio := Ratio64(diff, diffMax);
      if diff > diffMax {
        if ratio == 0 { return true; }
        DivideAll(ratio);
      }
      panics := false;
    }

    method DivideAll(ratio: int)
      requires ratio != 0
      modifies this`validators
      ensures validators == Divided64(old(validators), ratio)
    {
      ghost var target := Divided64(validators, ratio);
      for i := 0 to |validators|
        invariant |validators| == |old(validators)|
        invariant forall j :: 0 <= j < i ==> validators[j] == target[j]
        invariant forall j :: i <= j < |validators| ==> validators[j] == old(validators)[j]
      {
        validators := validators[i := validators[i].(priority := Div64(validators[i].priority, ratio))];
      }
      assert validators == target;
    }

    /** `computeAvgProposerPriority`: exact, so its panic cannot happen. */
    method ComputeAvgProposerPriority() returns (avg: int)
      requires |validators| > 0
      ensures avg == Average(validators)
    {
      var sum := 0;
      for i := 0 to |validators|
        invariant sum == Sum(Priorities(validators[..i]))
      {
        assert Priorities(validators[..i + 1])[..i] == Priorities(validators[..i]);
        sum := sum + validators[i].priority;
      }
      assert validators[..|validators|] == validators;
      avg := FloorDiv(sum, |validators|);
    }

    /** `shiftByAvgProposerPriority` */
    method ShiftByAvgProposerPriority()
      requires |validators| > 0 && AllInInt64(validators)
      modifies this`validators
      ensures validators == Centred64(old(validators))
    {
      var avg := ComputeAvgProposerPriority();
      AverageInInt64(validators);
      ghost var target := Centred64(validators);
      for i := 0 to |validators|
        invariant |validators| == |target| == |old(validators)|
        invariant forall j :: 0 <= j < i ==> validators[j] == target[j]
        invariant forall j :: i <= j < |validators| ==> validators[j] == old(validators)[j]
      {
        validators := validators[i := validators[i].(priority := SafeSubClip(validators[i].priority, avg))];
      }
      assert validators == target;
    }

    /** Rescale to twice the total, then centre: common to both operations. */
    method RescaleAndCentre()
      requires Usable() && |validators| > 0
      modifies this`validators, this`totalVotingPower
      ensures validators == Normalized64(old(validators)) && totalVotingPower == old(totalVotingPower)
    {
      var total := TotalVotingPower();
      WindowNeverPanics(validators, 2 * total);
      var panics := RescalePriorities(PriorityWindowSizeFactor * total);
      if panics { assert false; }
      ShiftByAvgProposerPriority();
    }

    /** `getValWithMostPriority`; the panic on identical validators is dead. */
    method GetValWithMostPriority() returns (m: int)
      requires |validators| > 0 && DistinctAddresses(validators)
      ensures IsMost(validators, m)
      ensures forall j :: 0 <= j < |validators| && j != m ==>
        && validators[j].priority <= validators[m].priority
        && (validators[j].priority == validators[m].priority ==> Less(validators[m].address, validators[j].address))
    {
      m := 0;
      for i := 1 to |validators|
        invariant 0 <= m < i
        invariant forall j :: 0 <= j < i && j != m ==> Precedes(validators[m], validators[j])
      {
        var v, other := validators[m], validators[i];
        LessTotal(v.address, other.address);
        if v.priority < other.priority || (v.priority == other.priority && Less(other.address, v.address)) {
          forall j | 0 <= j < i ensures Precedes(other, validators[j]) {
            if j != m { PrecedesTransitive(other, v, validators[j]); }
          }
          m := i;
        }
      }
    }

    /** `incrementProposerPriority` */
    method IncrementOnce() returns (m: int)
      requires |validators| > 0 && Members(validators) && AllInInt64(validators)
      requires totalVotingPower == Total(validators)
      modifies this`validators, this`totalVotingPower
      ensures ClippedStep(old(validators), m, validators)
      ensures Members(validators) && AllInInt64(validators) && |validators| == |old(validators)|
      ensures totalVotingPower == Total(validators) == old(totalVotingPower)
    {
      ghost var vs, target := validators, Credited(validators);
      TotalBounds(vs);
      for i := 0 to |validators|
        invariant |validators| == |target| == |vs|
        invariant forall j :: 0 <= j < i ==> validators[j] == target[j]
        invariant forall j :: i <= j < |validators| ==> validators[j] == vs[j]
        modifies this`validators
      {
        validators := validators[i := validators[i].(priority := SafeAddClip(validators[i].priority, validators[i].power))];
      }
      assert validators == target;
      SameMembersKeeps(vs, validators);
      m := GetValWithMostPriority();
      var total := TotalVotingPower();
      validators := validators[m := validators[m].(priority := SafeSubClip(validators[m].priority, total))];
      SameMembersKeeps(vs, validators);
    }

    /** `IncrementProposerPriority`. Whatever `times` and the priorities are, the
        new ones are those of `times` code steps from the list normalized in 64
        bits. If the spread fits, and there is room for the steps, as there
        always is for one, the set is settled afterwards. */
    method IncrementProposerPriority(times: int) returns (ghost states: seq<seq<Validator>>, ghost picks: seq<int>)
      requires Usable() && |validators| > 0 && times > 0
      modifies this
      ensures Usable() && RotationRun(old(validators), times, states, picks, validators)
      ensures 0 <= picks[times - 1] < |validators| && proposer == Some(validators[picks[times - 1]])
      ensures SpreadFits(old(validators)) && PowerSorted(old(validators)) && HasRoom(Total(old(validators)), |old(validators)|, times) ==> Valid()
    {
      ghost var vs := validators;
      RescaleAndCentre();
      SameMembersKeeps(vs, validators);
      var m;
      m, states, picks := Rotate(times);
      proposer := Some(validators[m]);
      RoomSettles(vs, times, states, picks, validators);
    }

    /** The loop of `IncrementProposerPriority`. */
    method Rotate(times: int) returns (m: int, ghost states: seq<seq<Validator>>, ghost picks: seq<int>)
      requires Usable() && |validators| > 0 && times > 0
      modifies this`validators, this`totalVotingPower
      ensures Usable() && |picks| == times && ClippedRun(states, picks)
      ensures states[0] == old(validators) && states[times] == validators
      ensures m == picks[times - 1] && 0 <= m < |validators|
    {
      states, picks := [validators], [];
      m := -1;
      for i := 0 to times
        invariant |picks| == i && ClippedRun(states, picks)
        invariant states[0] == old(validators) && states[i] == validators
        invariant Usable() && |validators| > 0
        invariant i > 0 ==> m == picks[i - 1] && 0 <= m < |validators|
      {
        m := IncrementOnce();
        ExtendClippedRun(states, picks, m, validators);
        states, picks := states + [validators], picks + [m];
      }
    }

    /** `updateWithChangeSet`. From any priorities it installs the merged list
        normalized in 64 bits; a settled set is settled afterwards. */
    method UpdateWithChangeSet(changes: seq<Validator>, allowDeletes: bool) returns (ok: bool)
      requires Usable()
      modifies this
      ensures Usable() && proposer == old(proposer) && (old(Valid()) ==> Valid())
      ensures ok <==> changes == [] || Accepts(old(validators), changes, allowDeletes)
      ensures !ok || changes == [] ==> validators == old(validators)
      ensures ok && changes != [] ==> ChangesTo(old(validators), changes, allowDeletes, validators)
    {
      if |changes| == 0 { return true; }
      ghost var before := validators;
      var merged;
      ok, merged := MergeChanges(validators, changes, allowDeletes);
      if !ok { return; }
      MergedIsSane(before, changes, allowDeletes, merged);
      Install(merged);
      assert Installs(before, changes, merged, validators);
      if Settled(before) { ChangeSettles(before, changes, allowDeletes, validators); }
    }

    /** The last part of `updateWithChangeSet`: total, rescaling, order. */
    method Install(merged: seq<Validator>)
      requires |merged| > 0 && Sane(merged)
      modifies this`validators, this`totalVotingPower
      ensures Usable() && multiset(validators) == multiset(Normalized64(merged)) && SortedBy(validators, ByPower)
    {
      validators := merged;
      UpdateTotalVotingPower();
      RescaleAndCentre();
      SameMembersKeeps(merged, validators);
      ByPowerOrders();
      ghost var normal := validators;
      validators := Sort(validators, ByPower);
      SortedPermutation(normal, validators);
      TotalPermutation(validators, normal);
    }
  }

  lemma ExtremesStep(vs: seq<Validator>, i: nat)
    requires i < |vs|
    ensures MaxPriority(vs[..i + 1]) == if i == 0 || MaxPriority(vs[..i]) < vs[i].priority then vs[i].priority else MaxPriority(vs[..i])
    ensures MinPriority(vs[..i + 1]) == if i == 0 || MinPriority(vs[..i]) > vs[i].priority then vs[i].priority else MinPriority(vs[..i])
  {
    assert vs[..i + 1][..i] == vs[..i];
  }

  lemma PrefixTotal(vs: seq<Validator>, i: nat)
    requires i < |vs| && Members(vs)
    ensures Total(vs[..i + 1]) == Total(vs[..i]) + vs[i].power <= MaxTotalVotingPower
    ensures vs[i].power <= MaxTotalVotingPower
  {
    assert vs[..i + 1] == vs[..i] + [vs[i]];
    TotalAppend(vs[..i], vs[i]);
    RestTotal(vs, i + 1);
    TotalBounds(vs);
  }

  lemma RestTotal(vs: seq<Validator>, i: nat)
    requires i <= |vs| && forall j :: 0 <= j < |vs| ==> 1 <= vs[j].power
    ensures Total(vs[..i]) <= Total(vs)
  {
    assert Powers(vs) == Powers(vs[..i]) + Powers(vs[i..]);
    SumConcat(Powers(vs[..i]), Powers(vs[i..]));
    SumAtLeast(Powers(vs[i..]), 0);
  }

  lemma ExtendClippedRun(states: seq<seq<Validator>>, picks: seq<int>, m: int, next: seq<Validator>)
    requires ClippedRun(states, picks) && ClippedStep(states[|picks|], m, next)
    ensures ClippedRun(states + [next], picks + [m])
  {
    var s, p := states + [next], picks + [m];
    forall k | 0 <= k < |p| ensures ClippedStep(s[k], p[k], s[k + 1]) {
      if k < |picks| { assert ClippedStep(states[k], picks[k], states[k + 1]); }
    }
  }
}
