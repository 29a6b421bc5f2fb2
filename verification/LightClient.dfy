/** Skipping verification of the light client (`light/client.go`). */
module LightClient {
  import opened Basics
  import opened Int64
  import opened LightBlocks

  const SkippingNumerator: int := 9
  const SkippingDenominator: int := 16

  /** `schedule`, in 64 bits. */
  function Schedule(verified: int, failed: int): int {
    Wrap64(verified + Div64(Wrap64(Wrap64(failed - verified) * SkippingNumerator), SkippingDenominator))
  }

  /** Nine sixteenths of the gap above the verified height where the product fits.
      It never passes the failed height, and it lies strictly between two heights
      that are not adjacent exactly when the 64-bit product is large enough, as
      it is for every gap that the product fits. */
  lemma ScheduleIff(verified: int, failed: int)
    requires 0 <= verified && verified + 2 <= failed <= MaxInt64
    ensures Schedule(verified, failed) < failed
    ensures verified < Schedule(verified, failed) <==> Wrap64((failed - verified) * SkippingNumerator) >= SkippingDenominator
    ensures (failed - verified) * 9 <= MaxInt64 ==> Schedule(verified, failed) == verified + (failed - verified) * 9 / 16
    ensures (failed - verified) * SkippingNumerator <= MaxInt64 ==> verified < Schedule(verified, failed)
  {
    var product := Wrap64((failed - verified) * SkippingNumerator);
    assert -0x800_0000_0000_0000 <= Div64(product, SkippingDenominator) <= 0x7FF_FFFF_FFFF_FFFF;
  }

  /** A gap beyond a ninth of the range whose product wraps below zero. */
  lemma ScheduleFallsBack()
    ensures Schedule(1, 0x1000_0000_0000_0001) == 1 - 0x700_0000_0000_0000
  {
    assert Wrap64(0x1000_0000_0000_0000 * SkippingNumerator) == -0x7000_0000_0000_0000;
  }

  /** A provider; `None` stands for every error it can return. */
  type Provider = int -> Option<LightBlock>

  /** A provider that answers with the block it was asked for. */
  ghost predicate Answers(source: Provider) {
    forall h {:trigger source(h)} :: source(h).Some? ==> source(h).value.header.height == h
  }

  datatype Result =
    | Verified(trace: seq<LightBlock>)
    | Failed(from: LightBlock, to: LightBlock, verdict: Verdict)
    | NoBlock(height: int)
    | FellBack(from: LightBlock, to: LightBlock, verdict: Verdict)

  /** How a block is judged against a trusted one. */
  type Judge = (LightBlock, LightBlock) -> Verdict

  function JudgeOf(c: Client): Judge {
    (a, b) => Verify(c, a, b)
  }

  /** Each block of the trace verifies against the one before. */
  ghost predicate Trace(judge: Judge, trace: seq<LightBlock>) {
    |trace| > 0 && forall i :: 0 < i < |trace| ==> judge(trace[i - 1], trace[i]) == Ok
  }

  lemma TraceGrows(judge: Judge, trace: seq<LightBlock>, b: LightBlock)
    requires Trace(judge, trace) && judge(trace[|trace| - 1], b) == Ok
    ensures Trace(judge, trace + [b])
  {
    var longer := trace + [b];
    forall i | 0 < i < |longer| ensures judge(longer[i - 1], longer[i]) == Ok {
      if i < |trace| { assert longer[i - 1] == trace[i - 1] && longer[i] == trace[i]; }
    }
  }

  /** The cache goes down in height from the target and stays above what is
      verified; what was requested is in it or was passed. */
  ghost predicate Cache(cache: seq<LightBlock>, verified: int, requested: seq<int>) {
    && (forall i :: 0 < i < |cache| ==> verified < cache[i].header.height)
    && (forall i, j :: 0 <= i < j < |cache| ==> cache[i].header.height > cache[j].header.height)
    && (forall r :: 0 <= r < |requested| ==> requested[r] <= verified || InCache(cache, requested[r]))
    && forall r, s :: 0 <= r < s < |requested| ==> requested[r] != requested[s]
  }

  ghost predicate InCache(cache: seq<LightBlock>, h: int) {
    exists i :: 0 < i < |cache| && cache[i].header.height == h
  }

  /** A height between what is verified and the cache was never asked for. */
  lemma NotRequested(cache: seq<LightBlock>, verified: int, requested: seq<int>, h: int)
    requires Cache(cache, verified, requested) && |cache| > 0 && verified < h < cache[|cache| - 1].header.height
    ensures h !in requested
  {
    forall r | 0 <= r < |requested| ensures requested[r] != h {
      if requested[r] > verified {
        var i :| 0 < i < |cache| && cache[i].header.height == requested[r];
        assert cache[i].header.height >= cache[|cache| - 1].header.height;
      }
    }
  }

  /** A block below the whole cache is new. */
  lemma RequestNew(cache: seq<LightBlock>, verified: int, requested: seq<int>, b: LightBlock)
    requires Cache(cache, verified, requested) && |cache| > 0
    requires verified < b.header.height < cache[|cache| - 1].header.height
    ensures Cache(cache + [b], verified, requested + [b.header.height])
  {
    var h, longer := b.header.height, cache + [b];
    NotRequested(cache, verified, requested, h);
    assert longer[|cache|].header.height == h;
    forall r | 0 <= r < |requested| && requested[r] > verified ensures InCache(longer, requested[r]) {
      var i :| 0 < i < |cache| && cache[i].header.height == requested[r];
      assert longer[i].header.height == requested[r];
    }
    assert InCache(longer, h);
  }

  /** Everything below a verified block is dropped or passed. */
  lemma VerifyDrops(cache: seq<LightBlock>, verified: int, requested: seq<int>, depth: nat)
    requires Cache(cache, verified, requested) && 0 < depth < |cache|
    ensures verified < cache[depth].header.height < cache[0].header.height
    ensures Cache(cache[..depth], cache[depth].header.height, requested)
  {
    var kept, h := cache[..depth], cache[depth].header.height;
    forall r | 0 <= r < |requested| && requested[r] > h ensures InCache(kept, requested[r]) {
      var i :| 0 < i < |cache| && cache[i].header.height == requested[r];
      assert kept[i].header.height == requested[r];
    }
  }

  /** The judge of a client: it asks for trust only in blocks at least two
      heights ahead, and accepts only blocks ahead. */
  ghost predicate LooksAhead(judge: Judge) {
    forall a, b :: && (judge(a, b) == CantBeTrusted ==> b.header.height >= a.header.height + 2)
                   && (judge(a, b) == Ok ==> b.header.height > a.header.height)
  }

  /** Where to look next between two heights. */
  type Scheduler = (int, int) -> int

  /** It stays below the failed height, and above the verified one for gaps that
      the product fits. */
  ghost predicate Schedules(schedule: Scheduler) {
    forall v, f {:trigger schedule(v, f)} :: 0 <= v && v + 2 <= f <= MaxInt64 ==>
      schedule(v, f) < f && (schedule(v, f) <= v ==> (f - v) * SkippingNumerator > MaxInt64)
  }

  /** The heights asked for were answered, and lie between the two. */
  ghost predicate Answered(source: Provider, requested: seq<int>, from: int, to: int) {
    forall i :: 0 <= i < |requested| ==> from < requested[i] < to && source(requested[i]).Some?
  }

  /** The two blocks of which the second cannot be trusted yet, for which a pivot
      between them is looked for. */
  datatype Gap = Gap(from: LightBlock, to: LightBlock)

  /** Every height was asked for because of a gap, and is where the schedule puts
      the pivot of that gap. */
  ghost predicate Needed(judge: Judge, schedule: Scheduler, gaps: seq<Gap>, heights: seq<int>) {
    |gaps| == |heights| && forall i :: 0 <= i < |gaps| ==> Pivots(judge, schedule, gaps[i], heights[i])
  }

  ghost predicate Pivots(judge: Judge, schedule: Scheduler, gap: Gap, height: int) {
    judge(gap.from, gap.to) == CantBeTrusted && height == schedule(gap.from.header.height, gap.to.header.height)
  }

  /** All heights asked for, the last of them perhaps in vain or behind. */
  function Asked(r: Result, requested: seq<int>): seq<int> {
    match r
    case NoBlock(height) => requested + [height]
    case FellBack(_, to, _) => requested + [to.header.height]
    case _ => requested
  }

  /** The trusted block is compared with the target first, and the rest depends on
      that verdict: a target that cannot be trusted yet is the first gap to find
      a pivot for, and without gaps the verdict is final. */
  ghost predicate FirstVerdict(judge: Judge, trusted: LightBlock, target: LightBlock, r: Result, gaps: seq<Gap>) {
    var verdict := judge(trusted, target);
    if gaps != [] then verdict == CantBeTrusted && gaps[0] == Gap(trusted, target)
    else r == if verdict == Ok then Verified([trusted, target]) else Failed(trusted, target, verdict)
  }

  /** Before the first gap nothing has happened. */
  ghost predicate Begun(judge: Judge, trusted: LightBlock, target: LightBlock, gaps: seq<Gap>, trace: seq<LightBlock>, cache: seq<LightBlock>) {
    if gaps != [] then judge(trusted, target) == CantBeTrusted && gaps[0] == Gap(trusted, target)
    else trace == [trusted] && cache == [target]
  }

  /** A gap below the cache is noted with its pivot. */
  lemma NoteGap(judge: Judge, schedule: Scheduler, trusted: LightBlock, target: LightBlock, gaps: seq<Gap>, requested: seq<int>,
                trace: seq<LightBlock>, cache: seq<LightBlock>, height: int)
    requires |trace| > 0 && |cache| > 0 && Begun(judge, trusted, target, gaps, trace, cache) && Needed(judge, schedule, gaps, requested)
    requires Pivots(judge, schedule, Gap(trace[|trace| - 1], cache[|cache| - 1]), height)
    ensures var more := gaps + [Gap(trace[|trace| - 1], cache[|cache| - 1])];
      Needed(judge, schedule, more, requested + [height]) && more[0] == Gap(trusted, target) && judge(trusted, target) == CantBeTrusted
  {}

  /** A trace from the trusted block to the last one verified, below the target. */
  ghost predicate Reached(judge: Judge, trusted: LightBlock, target: LightBlock, trace: seq<LightBlock>, verified: LightBlock) {
    && Trace(judge, trace) && trace[0] == trusted && trace[|trace| - 1] == verified
    && trusted.header.height <= verified.header.height
    && (verified != trusted ==> verified.header.height < target.header.height)
  }

  lemma ReachMore(judge: Judge, trusted: LightBlock, target: LightBlock, trace: seq<LightBlock>, verified: LightBlock, b: LightBlock)
    requires Reached(judge, trusted, target, trace, verified) && judge(verified, b) == Ok
    requires verified.header.height < b.header.height < target.header.height
    ensures Reached(judge, trusted, target, trace + [b], b)
  {
    TraceGrows(judge, trace, b);
  }

  lemma AnswerMore(source: Provider, requested: seq<int>, from: int, to: int, height: int)
    requires Answered(source, requested, from, to) && from < height < to && source(height).Some?
    ensures Answered(source, requested + [height], from, to)
  {}

  /** Looking for the pivot of a gap below the cache; a pivot that fell back behind
      the verified height is refused next, so the search ends with it. */
  method FindPivot(judge: Judge, schedule: Scheduler, source: Provider, verified: LightBlock, cache: seq<LightBlock>, ghost requested: seq<int>)
    returns (height: int, interim: Option<LightBlock>, end: Option<Result>)
    requires Answers(source) && LooksAhead(judge) && Schedules(schedule)
    requires |cache| > 0 && Cache(cache, verified.header.height, requested) && judge(verified, cache[|cache| - 1]) == CantBeTrusted
    requires 0 <= verified.header.height && cache[0].header.height <= MaxInt64
    ensures height == schedule(verified.header.height, cache[|cache| - 1].header.height)
    ensures interim == source(height)
    ensures interim.None? ==> end == Some(NoBlock(height))
    ensures interim.Some? && end.None? ==>
      && verified.header.height < height < cache[|cache| - 1].header.height <= cache[0].header.height
      && interim.value.header.height == height && Cache(cache + [interim.value], verified.header.height, requested + [height])
    ensures interim.Some? && end.Some? ==>
      && end == Some(FellBack(verified, interim.value, judge(verified, interim.value)))
      && interim.value.header.height == height <= verified.header.height
      && (cache[0].header.height - verified.header.height) * SkippingNumerator > MaxInt64
  {
    height := schedule(verified.header.height, cache[|cache| - 1].header.height);
    interim := source(height);
    end := None;
    if interim.None? {
      end := Some(NoBlock(height));
    } else if height <= verified.header.height {
      end := Some(FellBack(verified, interim.value, judge(verified, interim.value)));
    } else {
      RequestNew(cache, verified.header.height, requested, interim.value);
    }
  }

  /** The loop of `verifySkipping`. It ends for every judge that looks ahead. */
  method Skip(judge: Judge, schedule: Scheduler, source: Provider, trusted: LightBlock, target: LightBlock)
    returns (r: Result, requested: seq<int>, ghost gaps: seq<Gap>)
    requires Answers(source) && LooksAhead(judge) && Schedules(schedule)
    requires 0 <= trusted.header.height && target.header.height <= MaxInt64
    ensures r.Verified? ==> Trace(judge, r.trace) && r.trace[0] == trusted && r.trace[|r.trace| - 1] == target
    ensures r.Failed? || r.FellBack? ==> r.verdict == judge(r.from, r.to) && r.verdict != Ok && r.verdict != CantBeTrusted
    ensures r.FellBack? ==> r.to.header.height <= r.from.header.height
    ensures r.FellBack? ==> (target.header.height - trusted.header.height) * SkippingNumerator > MaxInt64
    ensures r.NoBlock? ==> source(r.height).None?
    ensures forall i, j :: 0 <= i < j < |requested| ==> requested[i] != requested[j]
    ensures Answered(source, requested, trusted.header.height, target.header.height)
    ensures Needed(judge, schedule, gaps, Asked(r, requested))
    ensures FirstVerdict(judge, trusted, target, r, gaps)
  {
    var cache, depth: nat, verified, trace := [target], 0, trusted, [trusted];
    requested, gaps := [], [];
    while true
      invariant depth < |cache| && cache[0] == target
      invariant Cache(cache, verified.header.height, requested)
      invariant Reached(judge, trusted, target, trace, verified)
      invariant Answered(source, requested, trusted.header.height, target.header.height)
      invariant Needed(judge, schedule, gaps, requested)
      invariant Begun(judge, trusted, target, gaps, trace, cache)
      decreases target.header.height - verified.header.height, cache[depth].header.height - verified.header.height
    {
      var verdict := judge(verified, cache[depth]);
      if verdict == Ok {
        if depth == 0 {
          TraceGrows(judge, trace, target);
          return Verified(trace + [target]), requested, gaps;
        }
        VerifyDrops(cache, verified.header.height, requested, depth);
        ReachMore(judge, trusted, target, trace, verified, cache[depth]);
        verified, cache := cache[depth], cache[..depth];
        depth, trace := 0, trace + [verified];
      } else if verdict == CantBeTrusted {
        if depth == |cache| - 1 {
          var pivotHeight, interim, end := FindPivot(judge, schedule, source, verified, cache, requested);
          NoteGap(judge, schedule, trusted, target, gaps, requested, trace, cache, pivotHeight);
          gaps := gaps + [Gap(verified, cache[depth])];
          if end.Some? { return end.value, requested, gaps; }
          AnswerMore(source, requested, trusted.header.height, target.header.height, pivotHeight);
          requested := requested + [pivotHeight];
          cache := cache + [interim.value];
        }
        depth := depth + 1;
      } else {
        return Failed(verified, cache[depth], verdict), requested, gaps;
      }
    }
  }

  /** `verifySkipping`. Against every provider that answers with the height it
      was asked for it ends, asks for no height twice on its way, and on success
      returns a trace of verified blocks from the trusted one to the target. It
      asks for a block exactly where one cannot be trusted yet, the target
      first, and at the height the schedule says. */
  method VerifySkipping(c: Client, source: Provider, trusted: LightBlock, target: LightBlock)
    returns (r: Result, requested: seq<int>, ghost gaps: seq<Gap>)
    requires Answers(source) && 0 <= trusted.header.height && target.header.height <= MaxInt64
    ensures r.Verified? ==> Trace(JudgeOf(c), r.trace) && r.trace[0] == trusted && r.trace[|r.trace| - 1] == target
    ensures r.Failed? || r.FellBack? ==> r.verdict == Verify(c, r.from, r.to) && r.verdict != Ok && r.verdict != CantBeTrusted
    ensures r.FellBack? ==> (target.header.height - trusted.header.height) * SkippingNumerator > MaxInt64
    ensures r.NoBlock? ==> source(r.height).None?
    ensures forall i, j :: 0 <= i < j < |requested| ==> requested[i] != requested[j]
    ensures Answered(source, requested, trusted.header.height, target.header.height)
    ensures Needed(JudgeOf(c), Schedule, gaps, Asked(r, requested))
    ensures FirstVerdict(JudgeOf(c), trusted, target, r, gaps)
  {
    forall a, b ensures && (JudgeOf(c)(a, b) == CantBeTrusted ==> b.header.height >= a.header.height + 2)
                        && (JudgeOf(c)(a, b) == Ok ==> b.header.height > a.header.height) {
      VerdictOrders(c, a, b);
    }
    forall v, f | 0 <= v && v + 2 <= f <= MaxInt64
      ensures Schedule(v, f) < f && (Schedule(v, f) <= v ==> (f - v) * SkippingNumerator > MaxInt64)
    {
      ScheduleIff(v, f);
    }
    r, requested, gaps := Skip(JudgeOf(c), Schedule, source, trusted, target);
  }

  // ---- What a trace means ----

  /** Heights and times go up strictly along a trace. */
  lemma {:induction false} TraceIncreases(c: Client, trace: seq<LightBlock>, i: nat, j: nat)
    requires Trace(JudgeOf(c), trace) && i < j < |trace|
    ensures trace[i].header.height < trace[j].header.height && trace[i].header.time < trace[j].header.time
    ensures trace[i].header.chainID == trace[j].header.chainID
  {
    assert JudgeOf(c)(trace[j - 1], trace[j]) == Ok;
    VerdictOrders(c, trace[j - 1], trace[j]);
    if i < j - 1 { TraceIncreases(c, trace, i, j - 1); }
  }
}
