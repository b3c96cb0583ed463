/**
  The fallback ladder of src/fit.rs: which (context, KV type, offload, batch) profiles
  are tried, in which order, and the planner that walks down it.
 */
module FitLadder {
  import opened Prelude
  import opened EmbeddingBatches
  import opened Sorting

  // ----- Sorted, deduplicated step lists -------------------------------------

  /** Numbers are their own sort key. */
  function Itself(): nat -> int {
    (x: nat) => x
  }

  /** `dedup`: drop an element equal to the one before it. */
  function Dedup(xs: seq<nat>): seq<nat> {
    if |xs| <= 1 then xs
    else if xs[|xs| - 1] == xs[|xs| - 2] then Dedup(xs[..|xs| - 1])
    else Dedup(xs[..|xs| - 1]) + [xs[|xs| - 1]]
  }

  function Reverse(xs: seq<nat>): seq<nat> {
    if xs == [] then [] else [xs[|xs| - 1]] + Reverse(xs[..|xs| - 1])
  }

  /** `sort_unstable`, `dedup`, `reverse`. */
  function Descending(xs: seq<nat>): seq<nat> {
    Reverse(Dedup(Sort(Itself(), xs)))
  }

  ghost predicate StrictlyDescends(xs: seq<nat>) {
    forall i, j :: 0 <= i < j < |xs| ==> xs[i] > xs[j]
  }

  ghost predicate StrictlyClimbs(xs: seq<nat>) {
    forall i, j :: 0 <= i < j < |xs| ==> xs[i] < xs[j]
  }

  lemma AppendClimbs(xs: seq<nat>, x: nat)
    requires StrictlyClimbs(xs) && (xs != [] ==> xs[|xs| - 1] < x)
    ensures StrictlyClimbs(xs + [x])
  {
  }

  lemma SameElementsSnoc(a: seq<nat>, b: seq<nat>, x: nat)
    requires SameElements(a, b)
    ensures SameElements(a + [x], b + [x])
    ensures x in b ==> SameElements(a, b + [x])
  {
  }

  ghost predicate Climbs(xs: seq<nat>) {
    forall i, j :: 0 <= i < j < |xs| ==> xs[i] <= xs[j]
  }

  lemma AscendingClimbs(xs: seq<nat>)
    requires Ascends(Itself(), xs)
    ensures Climbs(xs)
  {
    forall i, j | 0 <= i < j < |xs|
      ensures xs[i] <= xs[j]
    {
      assert Itself()(xs[i]) <= Itself()(xs[j]);
    }
  }

  lemma DedupStep(before: seq<nat>, xs: seq<nat>)
    requires |xs| > 1 && Climbs(xs)
    requires SameElements(before, xs[..|xs| - 1]) && StrictlyClimbs(before)
    requires before != [] && before[|before| - 1] == xs[|xs| - 2]
    ensures var last := xs[|xs| - 1];
            var after := if last == xs[|xs| - 2] then before else before + [last];
            SameElements(after, xs) && after[|after| - 1] == last && StrictlyClimbs(after)
  {
    var init, last := xs[..|xs| - 1], xs[|xs| - 1];
    assert xs == init + [last] && init[|init| - 1] == xs[|xs| - 2] && init[|init| - 1] in init;
    SameElementsSnoc(before, init, last);
    if last != xs[|xs| - 2] {
      AppendClimbs(before, last);
    }
  }

  lemma {:induction false} DedupDistinct(xs: seq<nat>)
    requires Climbs(xs)
    ensures SameElements(Dedup(xs), xs)
    ensures xs != [] ==> Dedup(xs) != [] && Dedup(xs)[|Dedup(xs)| - 1] == xs[|xs| - 1]
    ensures StrictlyClimbs(Dedup(xs))
  {
    if |xs| <= 1 {
    } else {
      DedupDistinct(xs[..|xs| - 1]);
      DedupStep(Dedup(xs[..|xs| - 1]), xs);
    }
  }

  lemma PrependDescends(x: nat, xs: seq<nat>)
    requires StrictlyDescends(xs) && forall y <- xs :: y < x
    ensures StrictlyDescends([x] + xs)
  {
    var all := [x] + xs;
    forall i, j | 0 <= i < j < |all|
      ensures all[i] > all[j]
    {
      assert xs[j - 1] in xs;
      if i > 0 {
        assert xs[i - 1] > xs[j - 1];
      }
    }
  }

  lemma {:induction false} ReverseFlips(xs: seq<nat>)
    requires StrictlyClimbs(xs)
    ensures StrictlyDescends(Reverse(xs)) && SameElements(Reverse(xs), xs)
  {
    if xs == [] {
    } else {
      var init, last := xs[..|xs| - 1], xs[|xs| - 1];
      assert xs == init + [last];
      ReverseFlips(init);
      forall y <- Reverse(init)
        ensures y < last
      {
        var i :| 0 <= i < |init| && init[i] == y;
        assert xs[i] < xs[|init|];
      }
      PrependDescends(last, Reverse(init));
    }
  }

  /** The step list is strictly descending and has exactly the given values. */
  lemma DescendingSorts(xs: seq<nat>)
    ensures StrictlyDescends(Descending(xs)) && SameElements(Descending(xs), xs)
  {
    var sorted := Sort(Itself(), xs);
    SortSorts(Itself(), xs);
    AscendingClimbs(sorted);
    DedupDistinct(sorted);
    ReverseFlips(Dedup(sorted));
  }

  lemma {:induction false} DedupLength(xs: seq<nat>)
    ensures |Dedup(xs)| <= |xs|
  {
    if |xs| <= 1 {
    } else {
      DedupLength(xs[..|xs| - 1]);
    }
  }

  lemma {:induction false} ReverseLength(xs: seq<nat>)
    ensures |Reverse(xs)| == |xs|
  {
    if xs == [] {
    } else {
      ReverseLength(xs[..|xs| - 1]);
    }
  }

  lemma DescendingLength(xs: seq<nat>)
    ensures |Descending(xs)| <= |xs|
  {
    SortSorts(Itself(), xs);
    DedupLength(Sort(Itself(), xs));
    ReverseLength(Dedup(Sort(Itself(), xs)));
  }

  /** A value, then three quarters, half and a quarter of it, rounded down and clamped to a floor. */
  function FourSteps(value: nat, floor: nat): seq<nat> {
    Descending([Max(value, floor), Max(value * 3 / 4, floor), Max(value / 2, floor), Max(value / 4, floor)])
  }

  lemma DescendingBetween(xs: seq<nat>, floor: nat)
    requires xs != [] && forall s <- xs :: floor <= s <= xs[0]
    ensures StrictlyDescends(Descending(xs)) && 1 <= |Descending(xs)| <= |xs|
    ensures forall s <- Descending(xs) :: floor <= s <= xs[0]
    ensures Descending(xs)[0] == xs[0]
  {
    DescendingSorts(xs);
    DescendingLength(xs);
    assert xs[0] in Descending(xs);
    assert Descending(xs)[0] in xs;
  }

  lemma FourStepsDescend(value: nat, floor: nat)
    ensures StrictlyDescends(FourSteps(value, floor)) && 1 <= |FourSteps(value, floor)| <= 4
    ensures forall s <- FourSteps(value, floor) :: floor <= s <= Max(value, floor)
    ensures FourSteps(value, floor)[0] == Max(value, floor)
  {
    var steps := [Max(value, floor), Max(value * 3 / 4, floor), Max(value / 2, floor), Max(value / 4, floor)];
    DescendingBetween(steps, floor);
  }

  // ----- Inputs --------------------------------------------------------------

  /** What the planner reads of the hardware, the model and the configuration. */
  datatype Request = Request(
    freeVram: u64, reserve: u32, maxAttempts: u32,
    fileSize: u64, blockCount: Option<u32>, requestedContext: u32, contextFloor: Option<u32>,
    nglPinned: bool, pinnedNgl: Option<u32>, pooling: bool,
    splitMode: Option<string>, tensorSplit: Option<string>)

  datatype FitPlan = FitPlan(
    contextSize: nat, ngl: nat, splitMode: Option<string>, tensorSplit: Option<string>,
    cacheType: Option<string>, attempt: nat, batchSize: Option<nat>, ubatchSize: Option<nat>)

  const CONTEXT_MINIMUM: nat := 4096
  const POOLING_MINIMUM: nat := 2048
  const ALL_LAYERS: nat := 999

  function UsableVram(q: Request): nat {
    SaturatingSub(q.freeVram, q.reserve)
  }

  function Headroom(q: Request): nat {
    SaturatingSub(UsableVram(q), q.fileSize)
  }

  function BalancedEmbeddingContext(headroom: nat): nat {
    if headroom > 8 * 1024 then 16384
    else if headroom >= 3 * 1024 then 8192
    else if headroom >= 1536 then 4096
    else 2048
  }

  function RequestedContext(q: Request): nat {
    if q.pooling then Min(q.requestedContext, BalancedEmbeddingContext(Headroom(q))) else q.requestedContext
  }

  function MinContext(q: Request): nat {
    Max(if q.pooling then POOLING_MINIMUM else Max(CONTEXT_MINIMUM, 512), OrDefault(q.contextFloor, 0))
  }

  function Attempts(q: Request): nat {
    Max(q.maxAttempts, 1)
  }

  /** The ratios 1, 3/4, 1/2 and 1/4, rounded down and clamped to the floor. */
  function ContextSteps(q: Request): seq<nat> {
    FourSteps(RequestedContext(q), MinContext(q))
  }

  function Layers(q: Request): nat {
    Max(OrDefault(q.blockCount, ALL_LAYERS), 1)
  }

  /** The layers whose share of the file fits the usable VRAM, rounded down. */
  function LayerShare(q: Request): nat {
    SaturatingMul(Layers(q), UsableVram(q)) / if q.fileSize == 0 then 1 else q.fileSize
  }

  /** Pinned value, full offload, or the share of the layers that fits. */
  function DefaultNgl(q: Request): nat {
    if q.nglPinned then OrDefault(q.pinnedNgl, ALL_LAYERS)
    else if q.fileSize <= UsableVram(q) || q.blockCount.None? then ALL_LAYERS
    else
      var n := LayerShare(q);
      Min(if n < U32_LIMIT then n else Layers(q), Layers(q))
  }

  function ClampEmbeddingBatch(batch: nat, ubatch: nat): (r: (nat, nat))
    ensures EMBEDDING_BATCH_FLOOR <= r.1 <= r.0 && batch <= r.0
  {
    var b := Max(batch, EMBEDDING_BATCH_FLOOR);
    (b, Min(Max(ubatch, EMBEDDING_BATCH_FLOOR), b))
  }

  function BaseBatch(q: Request): (nat, nat) {
    if Headroom(q) > 8 * 1024 then ClampEmbeddingBatch(4096, 4096)
    else ClampEmbeddingBatch(EMBEDDING_BATCH_FLOOR, EMBEDDING_BATCH_FLOOR)
  }

  function BatchSteps(q: Request): seq<nat> {
    FourSteps(BaseBatch(q).0, EMBEDDING_BATCH_FLOOR)
  }

  // ----- One rung ------------------------------------------------------------

  predicate ReducesOffload(q: Request, k: nat) {
    DefaultNgl(q) > 1
    && (k == Attempts(q) - 1
        || (q.fileSize > UsableVram(q) && q.blockCount.Some? && k >= SaturatingSub(Attempts(q), 3)))
  }

  function NglAt(q: Request, k: nat): nat {
    if !ReducesOffload(q, k) then DefaultNgl(q)
    else
      var base := Max(if q.blockCount.Some? then Max(q.blockCount.value, 1) else DefaultNgl(q), 1);
      var reduced := base * Max(SaturatingSub(Attempts(q), k), 1) / (Attempts(q) + 1);
      Max(Min(reduced, SaturatingSub(DefaultNgl(q), 1)), 1)
  }

  /** The step for rung `k` (the last one once they run out), with `-ub` tracking `-b`. */
  function BatchFrom(steps: seq<nat>, defaultUbatch: nat, k: nat): (r: (nat, nat))
    ensures EMBEDDING_BATCH_FLOOR <= r.1 <= r.0
  {
    var i := Min(k, SaturatingSub(|steps|, 1));
    var batch := if 0 <= i < |steps| then steps[i] else EMBEDDING_BATCH_FLOOR;
    ClampEmbeddingBatch(batch, Min(defaultUbatch, batch))
  }

  function BatchAt(q: Request, k: nat): (r: (nat, nat))
    ensures EMBEDDING_BATCH_FLOOR <= r.1 <= r.0
  {
    BatchFrom(BatchSteps(q), BaseBatch(q).1, k)
  }

  /** Default KV first, then the one fallback type. */
  const KV_SEQUENCE: seq<Option<string>> := [None, Some("q8_0")]

  /** The plan pushed as number `k` (from 0) for one context and KV type. */
  function MakePlan(q: Request, context: nat, cacheType: Option<string>, k: nat): FitPlan {
    var (batch, ubatch) := BatchAt(q, k);
    FitPlan(context, NglAt(q, k), q.splitMode, q.tensorSplit, cacheType, k + 1,
            if q.pooling then Some(batch) else None, if q.pooling then Some(ubatch) else None)
  }

  /** The k-th profile: contexts outermost, then default and q8_0 KV. */
  function Rung(q: Request, k: nat): FitPlan
    requires k / 2 < |ContextSteps(q)|
  {
    MakePlan(q, ContextSteps(q)[k / 2], KV_SEQUENCE[k % 2], k)
  }

  // ----- The ladder ----------------------------------------------------------

  /** The first `max(1, maxAttempts)` of the pairs of contexts and KV types. */
  function LadderLength(q: Request): nat {
    Min(Attempts(q), 2 * |ContextSteps(q)|)
  }

  function Ladder(q: Request): seq<FitPlan> {
    Rungs(q, LadderLength(q))
  }

  function Rungs(q: Request, n: nat): seq<FitPlan>
    requires n <= 2 * |ContextSteps(q)|
  {
    seq(n, k requires 0 <= k < n => Rung(q, k))
  }

  lemma RungsSnoc(q: Request, n: nat, c: nat, j: nat)
    requires n == 2 * c + j && j < 2 && c < |ContextSteps(q)|
    ensures Rungs(q, n + 1) == Rungs(q, n) + [MakePlan(q, ContextSteps(q)[c], KV_SEQUENCE[j], n)]
  {
    assert n / 2 == c && n % 2 == j;
    RungsOneMore(q, n);
  }

  lemma RungsOneMore(q: Request, n: nat)
    requires n < 2 * |ContextSteps(q)|
    ensures Rungs(q, n + 1) == Rungs(q, n) + [Rung(q, n)]
  {
    var more, before := Rungs(q, n + 1), Rungs(q, n);
    forall k | 0 <= k < n
      ensures more[k] == before[k]
    {
      assert more[k] == Rung(q, k);
    }
    assert more[n] == Rung(q, n);
    assert more == before + [Rung(q, n)];
  }

  /** The nested loops of `build_fallback_ladder`; its last-resort plan is never needed. */
  method BuildFallbackLadder(q: Request) returns (plans: seq<FitPlan>)
    ensures plans == Ladder(q) && plans != []
  {
    var maxAttempts := Attempts(q);
    var steps := ContextSteps(q);
    plans := [];
    FourStepsDescend(RequestedContext(q), MinContext(q));
    for c := 0 to |steps|
      invariant plans == Rungs(q, Min(maxAttempts, 2 * c))
    {
      var j := 0;
      while j < |KV_SEQUENCE|
        invariant 0 <= j <= 2
        invariant plans == Rungs(q, Min(maxAttempts, 2 * c + j))
      {
        if |plans| >= maxAttempts {
          break;
        }
        var k := |plans|;
        RungsSnoc(q, k, c, j);
        plans := plans + [MakePlan(q, steps[c], KV_SEQUENCE[j], k)];
        j := j + 1;
      }
    }
  }

  // ----- Properties of the ladder --------------------------------------------

  /** Contexts strictly descend and never go below the floor; the first is the request, clamped. */
  lemma ContextsDescend(q: Request)
    ensures StrictlyDescends(ContextSteps(q)) && ContextSteps(q) != []
    ensures forall c <- ContextSteps(q) :: c >= MinContext(q) >= OrDefault(q.contextFloor, 0)
    ensures ContextSteps(q)[0] == Max(RequestedContext(q), MinContext(q))
  {
    FourStepsDescend(RequestedContext(q), MinContext(q));
  }

  /** No pair of context and KV type is tried twice. */
  lemma NoProfileTwice(q: Request, i: nat, j: nat)
    requires i < j < LadderLength(q)
    ensures Ladder(q)[i].contextSize >= Ladder(q)[j].contextSize
    ensures Ladder(q)[i].contextSize == Ladder(q)[j].contextSize ==> Ladder(q)[i].cacheType != Ladder(q)[j].cacheType
  {
    ContextsDescend(q);
    if i / 2 == j / 2 {
      assert i % 2 == 0 && j % 2 == 1;
    }
  }

  lemma DivMonotone(a: nat, b: nat, d: nat)
    requires a <= b && d > 0
    ensures a / d <= b / d
  {
    if b / d < a / d {
      MulMonotone(b / d + 1, a / d, d);
    }
  }

  lemma NglAtNeverIncreases(q: Request, k: nat)
    requires k + 1 < LadderLength(q)
    ensures NglAt(q, k + 1) <= NglAt(q, k)
  {
    if ReducesOffload(q, k) {
      var base := Max(if q.blockCount.Some? then Max(q.blockCount.value, 1) else DefaultNgl(q), 1);
      var now, next := Max(SaturatingSub(Attempts(q), k), 1), Max(SaturatingSub(Attempts(q), k + 1), 1);
      MulMonotone(next, now, base);
      DivMonotone(base * next, base * now, Attempts(q) + 1);
    }
  }

  /** The offload never increases from one rung to the next. */
  lemma NglNeverIncreases(q: Request, k: nat)
    requires k + 1 < |Ladder(q)|
    ensures Ladder(q)[k + 1].ngl <= Ladder(q)[k].ngl
  {
    NglAtNeverIncreases(q, k);
  }

  lemma FloorTimes(a: nat, b: nat)
    requires b > 0
    ensures a / b * b <= a
  {
  }

  lemma NglAtFitsVram(q: Request, k: nat)
    requires !q.nglPinned && q.blockCount.Some? && q.fileSize > UsableVram(q)
    ensures NglAt(q, k) * q.fileSize <= Layers(q) * UsableVram(q)
  {
    FloorTimes(SaturatingMul(Layers(q), UsableVram(q)), q.fileSize);
    assert NglAt(q, k) <= DefaultNgl(q) <= LayerShare(q) by {
      ShareBelowLayers(q);
    }
    MulMonotone(NglAt(q, k), LayerShare(q), q.fileSize);
  }

  /** When the weights do not fit and nothing is pinned, no rung asks for more than the layers that fit. */
  lemma OffloadFitsVram(q: Request, k: nat)
    requires !q.nglPinned && q.blockCount.Some? && q.fileSize > UsableVram(q) && k < |Ladder(q)|
    ensures Ladder(q)[k].ngl * q.fileSize <= Layers(q) * UsableVram(q)
  {
    NglAtFitsVram(q, k);
  }

  /** The u64 quotient never reaches the u32 limit, so the conversion never falls back to all layers. */
  lemma ShareBelowLayers(q: Request)
    requires q.fileSize > UsableVram(q)
    ensures LayerShare(q) <= Layers(q) < U32_LIMIT
  {
    QuotientBound(SaturatingMul(Layers(q), UsableVram(q)), Layers(q), UsableVram(q), q.fileSize);
  }

  lemma QuotientBound(share: nat, layers: nat, usable: nat, size: nat)
    requires share <= layers * usable && usable < size
    ensures share / size <= layers
  {
    MulMonotone(usable, size, layers);
    FloorTimes(share, size);
    if layers < share / size {
      MulMonotone(layers + 1, share / size, size);
    }
  }

  /** Reduced rungs only occur on short ladders, so `steps + 1` and the u32 cast cannot overflow. */
  lemma ReductionInRange(q: Request, k: nat)
    requires k < LadderLength(q) && ReducesOffload(q, k)
    ensures Attempts(q) + 1 <= k + 4 < U32_LIMIT
    ensures NglAt(q, k) < U32_LIMIT
  {
    FourStepsDescend(RequestedContext(q), MinContext(q));
  }

  // ----- The ladder through the request --------------------------------------

  /** Two strictly descending lists of the same values are the same list. */
  lemma {:induction false} DescendingUnique(a: seq<nat>, b: seq<nat>)
    requires StrictlyDescends(a) && StrictlyDescends(b) && SameElements(a, b)
    ensures a == b
  {
    if a == [] && b == [] {
    } else {
      assert (a != [] ==> a[0] in b) && (b != [] ==> b[0] in a);
      FirstIsLargest(a);
      FirstIsLargest(b);
      assert a[0] == b[0];
      DescendingUnique(a[1..], b[1..]);
      assert a == [a[0]] + a[1..] && b == [b[0]] + b[1..];
    }
  }

  lemma FirstIsLargest(a: seq<nat>)
    requires StrictlyDescends(a) && a != []
    ensures forall x <- a :: x == a[0] || x < a[0]
    ensures StrictlyDescends(a[1..])
    ensures forall x :: x in a[1..] <==> x in a && x != a[0]
  {
    assert a == [a[0]] + a[1..];
  }

  /** How many of the four steps are different once clamped to the floor. */
  function StepCount(value: nat, floor: nat): (n: nat)
    ensures 1 <= n <= 4
  {
    if value <= floor then 1
    else if value * 3 / 4 <= floor then 2
    else if value / 2 <= floor then 3
    else 4
  }

  lemma SameAsPrefix(all: seq<nat>, n: nat)
    requires 1 <= n <= |all| && forall i :: n <= i < |all| ==> all[i] == all[n - 1]
    ensures SameElements(all, all[..n])
  {
    forall x | x in all
      ensures x in all[..n]
    {
      var i :| 0 <= i < |all| && all[i] == x;
      assert x == all[..n][if i < n then i else n - 1];
    }
  }

  lemma FractionsDescend(value: nat)
    ensures value >= value * 3 / 4 >= value / 2 >= value / 4
    ensures value >= 4 ==> value > value * 3 / 4 > value / 2 > value / 4
  {
  }

  lemma ClampedDescend(a: nat, b: nat, c: nat, d: nat, floor: nat, n: nat)
    requires a >= b >= c >= d && (a > floor ==> a > b > c > d)
    requires n == if a <= floor then 1 else if b <= floor then 2 else if c <= floor then 3 else 4
    ensures var all := [Max(a, floor), Max(b, floor), Max(c, floor), Max(d, floor)];
            && StrictlyDescends(all[..n]) && SameElements(all, all[..n])
            && forall s <- all :: floor <= s <= all[0]
  {
    var all := [Max(a, floor), Max(b, floor), Max(c, floor), Max(d, floor)];
    SameAsPrefix(all, n);
  }

  /** The steps without sorting: the value and its fractions above the floor, then the floor. */
  lemma FourStepsAre(value: nat, floor: nat)
    requires floor >= 4
    ensures FourSteps(value, floor)
            == [Max(value, floor), Max(value * 3 / 4, floor), Max(value / 2, floor),
                Max(value / 4, floor)][..StepCount(value, floor)]
  {
    var b, c, d, n := value * 3 / 4, value / 2, value / 4, StepCount(value, floor);
    var all := [Max(value, floor), Max(b, floor), Max(c, floor), Max(d, floor)];
    FractionsDescend(value);
    ClampedDescend(value, b, c, d, floor, n);
    DescendingSorts(all);
    DescendingUnique(Descending(all), all[..n]);
  }

  function ContextCount(q: Request): nat {
    StepCount(RequestedContext(q), MinContext(q))
  }

  /** The ladder is longer than two plans exactly when more are allowed and the request is above the floor. */
  lemma LadderLengthIs(q: Request)
    ensures LadderLength(q) == |Ladder(q)| == Min(Attempts(q), 2 * ContextCount(q)) > 0
    ensures |Ladder(q)| > 2 <==> q.maxAttempts > 2 && RequestedContext(q) > MinContext(q)
  {
    FourStepsAre(RequestedContext(q), MinContext(q));
  }

  /** The weights are known not to fit, so offload is reduced on the last three attempts. */
  predicate WeightsDontFit(q: Request) {
    q.fileSize > UsableVram(q) && q.blockCount.Some?
  }

  lemma ReducedIsLess(q: Request, k: nat)
    ensures NglAt(q, k) < DefaultNgl(q) <==> ReducesOffload(q, k)
  {
  }

  lemma LastRungReduces(q: Request)
    ensures LadderLength(q) > 0
    ensures ReducesOffload(q, LadderLength(q) - 1)
            <==> && DefaultNgl(q) > 1
                 && Attempts(q) <= 2 * ContextCount(q) + if WeightsDontFit(q) then 2 else 0
  {
    LadderLengthIs(q);
  }

  /**
    The comment beside the reduction says it is always triggered on the final attempt. The
    last plan of the ladder offloads less than the default exactly when there is something
    to reduce and the attempts allowed are all used, or all but two when the weights do not fit.
   */
  lemma LastAttemptReduces(q: Request)
    ensures Ladder(q) != []
    ensures Ladder(q)[|Ladder(q)| - 1].ngl < DefaultNgl(q)
            <==> && DefaultNgl(q) > 1
                 && Attempts(q) <= 2 * ContextCount(q) + if WeightsDontFit(q) then 2 else 0
  {
    LastRungReduces(q);
    ReducedIsLess(q, LadderLength(q) - 1);
  }

  /** A small request on a large card: two plans out of five allowed, both at full offload. */
  lemma FinalAttemptNotReduced()
    ensures var q := Request(22000, 2048, 5, 5000, Some(32), 4096, None, false, None, false, None, None);
            |Ladder(q)| == 2 && Ladder(q)[1].ngl == DefaultNgl(q) == ALL_LAYERS
  {
    var q := Request(22000, 2048, 5, 5000, Some(32), 4096, None, false, None, false, None, None);
    LadderLengthIs(q);
  }

  // ----- The documented order ------------------------------------------------

  /** The list at the head of the source file: context, KV type and whether offload is reduced. */
  function Documented(q: Request, k: nat): (nat, Option<string>, bool) {
    var value, floor := RequestedContext(q), MinContext(q);
    match k
    case 0 => (Max(value, floor), None, false)
    case 1 => (Max(value, floor), Some("q8_0"), false)
    case 2 => (Max(value * 3 / 4, floor), Some("q8_0"), false)
    case 3 => (Max(value / 2, floor), Some("q8_0"), false)
    case _ => (Max(value / 4, floor), Some("q8_0"), true)
  }

  /** Every plan has the context and KV type the list gives its number. */
  ghost predicate FollowsOrder(q: Request) {
    forall k: nat :: k < |Ladder(q)| ==>
      Ladder(q)[k].contextSize == Documented(q, k).0 && Ladder(q)[k].cacheType == Documented(q, k).1
  }

  /** And reduces its offload exactly where the list says so. */
  ghost predicate FollowsList(q: Request) {
    && FollowsOrder(q)
    && forall k: nat :: k < |Ladder(q)| ==> (Ladder(q)[k].ngl < DefaultNgl(q) <==> Documented(q, k).2)
  }

  lemma FirstRungs(q: Request)
    ensures |Ladder(q)| > 0 && Ladder(q)[0].contextSize == Documented(q, 0).0 && Ladder(q)[0].cacheType == None
    ensures |Ladder(q)| > 1 ==> Ladder(q)[1].contextSize == Documented(q, 1).0 && Ladder(q)[1].cacheType == Some("q8_0")
    ensures |Ladder(q)| > 2 ==> Ladder(q)[2].cacheType == None
  {
    ContextsDescend(q);
  }

  /** The contexts and KV types follow the list exactly when the third plan is not reached. */
  lemma DocumentedOrderFollowed(q: Request)
    ensures FollowsOrder(q) <==> !(q.maxAttempts > 2 && RequestedContext(q) > MinContext(q))
  {
    LongLadders(q);
    if |Ladder(q)| > 2 {
      ThirdRungDiffers(q);
    } else {
      ShortLaddersFollow(q);
    }
  }

  lemma ThirdRungDiffers(q: Request)
    requires |Ladder(q)| > 2
    ensures !FollowsOrder(q)
  {
    FirstRungs(q);
    assert Documented(q, 2).1 == Some("q8_0");
  }

  lemma ShortLaddersFollow(q: Request)
    requires |Ladder(q)| <= 2
    ensures FollowsOrder(q)
  {
    FirstRungs(q);
    forall k: nat | k < |Ladder(q)|
      ensures Ladder(q)[k].contextSize == Documented(q, k).0 && Ladder(q)[k].cacheType == Documented(q, k).1
    {
      assert k == 0 || k == 1;
    }
  }

  lemma LongLadders(q: Request)
    ensures |Ladder(q)| > 2 <==> q.maxAttempts > 2 && RequestedContext(q) > MinContext(q)
  {
    LadderLengthIs(q);
  }

  /** The whole list is followed exactly when, besides, neither of the two plans reduces its offload. */
  lemma DocumentedListFollowed(q: Request)
    ensures FollowsList(q)
            <==> && !(q.maxAttempts > 2 && RequestedContext(q) > MinContext(q))
                 && (DefaultNgl(q) <= 1
                     || Attempts(q) > 2 * ContextCount(q) + if WeightsDontFit(q) then 2 else 0)
  {
    DocumentedOrderFollowed(q);
    LadderLengthIs(q);
    LastAttemptReduces(q);
    if FollowsOrder(q) && |Ladder(q)| == 2 {
      NglNeverIncreases(q, 0);
    }
  }

  /** A request of 8192 tokens over a floor of 4096: the third plan has three quarters and the default KV type. */
  lemma DocumentedOrderDiffers()
    ensures var q := Request(22000, 2048, 5, 5000, Some(32), 8192, None, false, None, false, None, None);
            |Ladder(q)| == 5 && Ladder(q)[2].contextSize == 6144 && Ladder(q)[2].cacheType == None && !FollowsOrder(q)
  {
    var q := Request(22000, 2048, 5, 5000, Some(32), 8192, None, false, None, false, None, None);
    LadderLengthIs(q);
    FourStepsAre(RequestedContext(q), MinContext(q));
    DocumentedOrderFollowed(q);
  }

  // ----- The plans in numbers ------------------------------------------------

  /** Every plan's number, KV type and splits. */
  lemma RungInNumbers(q: Request, k: nat)
    requires k < |Ladder(q)|
    ensures Ladder(q)[k].attempt == k + 1
    ensures Ladder(q)[k].cacheType == if k % 2 == 0 then None else Some("q8_0")
    ensures Ladder(q)[k].splitMode == q.splitMode && Ladder(q)[k].tensorSplit == q.tensorSplit
  {
  }

  /** Each context is held by two plans, and is the request, three quarters, half or a quarter of it, or the floor. */
  lemma ContextInNumbers(q: Request, k: nat)
    requires k < |Ladder(q)|
    ensures k / 2 < 4
    ensures var value, floor := RequestedContext(q), MinContext(q);
            Ladder(q)[k].contextSize
            == [Max(value, floor), Max(value * 3 / 4, floor), Max(value / 2, floor), Max(value / 4, floor)][k / 2]
  {
    LadderLengthIs(q);
    FourStepsAre(RequestedContext(q), MinContext(q));
  }

  /** The request of a pooling model is capped by what the card leaves beside reserve and weights, in MB. */
  lemma RequestInNumbers(q: Request)
    ensures !q.pooling ==> RequestedContext(q) == q.requestedContext
    ensures q.pooling ==>
              var taken := q.reserve + q.fileSize;
              var cap := if q.freeVram > taken + 8192 then 16384
                         else if q.freeVram >= taken + 3072 then 8192
                         else if q.freeVram >= taken + 1536 then 4096
                         else 2048;
              RequestedContext(q) == if q.requestedContext <= cap then q.requestedContext else cap
  {
  }

  /** The floor is 4096, or 2048 for a pooling model, or the configured one if that is higher. */
  lemma FloorInNumbers(q: Request)
    ensures var least := if q.pooling then 2048 else 4096;
            MinContext(q)
            == if q.contextFloor.Some? && q.contextFloor.value > least then q.contextFloor.value else least
  {
  }

  /** `r` is the greatest `n` from `low` to `high` with `n * part <= whole`, or `low` if there is none. */
  ghost predicate IsGreatest(r: nat, low: nat, high: nat, part: nat, whole: nat) {
    && low <= r
    && (r == low || (r <= high && r * part <= whole))
    && forall n: nat :: r < n <= high ==> n * part > whole
  }

  lemma ClampedQuotientIsGreatest(whole: nat, part: nat, low: nat, high: nat)
    requires part > 0 && low <= high
    ensures IsGreatest(Max(Min(whole / part, high), low), low, high, part, whole)
  {
    var r := Max(Min(whole / part, high), low);
    FloorTimes(whole, part);
    if r != low {
      MulMonotone(r, whole / part, part);
    }
    forall n: nat | r < n <= high
      ensures n * part > whole
    {
      MulMonotone(whole / part + 1, n, part);
    }
  }

  /** The card has no room for the weights beside the reserve, in MB. */
  predicate TooBig(q: Request) {
    q.fileSize > 0 && q.fileSize + q.reserve > q.freeVram
  }

  /** The offload to start from: pinned, everything, or the most layers whose share of the file fits. */
  lemma DefaultInNumbers(q: Request)
    ensures q.nglPinned ==> DefaultNgl(q) == if q.pinnedNgl.Some? then q.pinnedNgl.value else 999
    ensures !q.nglPinned && (!TooBig(q) || q.blockCount.None?) ==> DefaultNgl(q) == 999
    ensures !q.nglPinned && TooBig(q) && q.blockCount.Some? ==>
              var layers := if q.blockCount.value == 0 then 1 else q.blockCount.value;
              var free := if q.freeVram <= q.reserve then 0 else q.freeVram - q.reserve;
              IsGreatest(DefaultNgl(q), 0, layers, q.fileSize, Min(layers * free, U64_LIMIT - 1))
  {
    if !q.nglPinned && TooBig(q) && q.blockCount.Some? {
      ShareBelowLayers(q);
      ClampedQuotientIsGreatest(SaturatingMul(Layers(q), UsableVram(q)), q.fileSize, 0, Layers(q));
    }
  }

  function AttemptsAllowed(q: Request): nat {
    if q.maxAttempts == 0 then 1 else q.maxAttempts
  }

  function AttemptsLeft(q: Request, k: nat): nat {
    if k < AttemptsAllowed(q) then AttemptsAllowed(q) - k else 1
  }

  /** The layers an offload is a share of: the known ones, else the default offload. */
  function OffloadLayers(q: Request): nat {
    if q.blockCount.None? then DefaultNgl(q) else if q.blockCount.value == 0 then 1 else q.blockCount.value
  }

  /** The plans with less offload: the last attempt, and the two before it when the weights do not fit. */
  predicate IsReduced(q: Request, k: nat) {
    && DefaultNgl(q) > 1
    && (k + 1 == AttemptsAllowed(q) || (TooBig(q) && q.blockCount.Some? && k + 3 >= AttemptsAllowed(q)))
  }

  /**
    The default, or on a reduced plan the most layers below it that are no more than the
    attempts still left, out of one more than all, take of the layers; at least one.
   */
  ghost predicate OffloadIs(q: Request, k: nat, ngl: nat) {
    if IsReduced(q, k) then
      IsGreatest(ngl, 1, DefaultNgl(q) - 1, AttemptsAllowed(q) + 1, OffloadLayers(q) * AttemptsLeft(q, k))
    else ngl == DefaultNgl(q)
  }

  lemma NglAtInNumbers(q: Request, k: nat)
    ensures OffloadIs(q, k, NglAt(q, k))
  {
    assert IsReduced(q, k) <==> ReducesOffload(q, k);
    if IsReduced(q, k) {
      ClampedQuotientIsGreatest(OffloadLayers(q) * AttemptsLeft(q, k), AttemptsAllowed(q) + 1, 1, DefaultNgl(q) - 1);
      assert Max(if q.blockCount.Some? then Max(q.blockCount.value, 1) else DefaultNgl(q), 1) == OffloadLayers(q);
      assert Max(SaturatingSub(Attempts(q), k), 1) == AttemptsLeft(q, k);
    }
  }

  /** Every plan offloads the default or, reduced, that greatest number of layers. */
  lemma OffloadInNumbers(q: Request, k: nat)
    requires k < |Ladder(q)|
    ensures OffloadIs(q, k, Ladder(q)[k].ngl)
  {
    NglAtInNumbers(q, k);
  }

  /** On a card with more than 8 GB left beside reserve and weights. */
  predicate Roomy(q: Request) {
    q.freeVram > q.reserve + q.fileSize + 8192
  }

  lemma BatchStepsInNumbers(q: Request)
    ensures BatchSteps(q) == if Roomy(q) then [4096, 3072, 2048] else [2048]
    ensures BaseBatch(q).1 == if Roomy(q) then 4096 else 2048
  {
    BaseBatchInNumbers(q);
    StepsFromBase(BaseBatch(q).0, EMBEDDING_BATCH_FLOOR);
  }

  lemma BaseBatchInNumbers(q: Request)
    ensures BaseBatch(q) == if Roomy(q) then (4096, 4096) else (2048, 2048)
  {
  }

  /** From twice the floor there are three steps, from the floor one. */
  lemma StepsFromBase(base: nat, floor: nat)
    requires floor >= 4 && floor % 2 == 0 && (base == floor || base == 2 * floor)
    ensures FourSteps(base, floor) == if base == floor then [floor] else [2 * floor, floor + floor / 2, floor]
  {
    FourStepsAre(base, floor);
    StepsInNumbers(base, floor, StepCount(base, floor));
  }

  lemma StepsInNumbers(base: nat, floor: nat, n: nat)
    requires floor >= 4 && floor % 2 == 0 && (base == floor || base == 2 * floor) && n == StepCount(base, floor)
    ensures n <= 4
    ensures [Max(base, floor), Max(base * 3 / 4, floor), Max(base / 2, floor), Max(base / 4, floor)][..n]
            == if base == floor then [floor] else [2 * floor, floor + floor / 2, floor]
  {
    if base == floor {
      assert n == 1;
    } else {
      assert base * 3 / 4 == floor + floor / 2 && base / 2 == floor;
      assert n == 3;
    }
  }

  lemma BatchAtInNumbers(q: Request, k: nat)
    ensures var batch := if Roomy(q) && k == 0 then 4096 else if Roomy(q) && k == 1 then 3072 else 2048;
            BatchAt(q, k) == (batch, batch)
  {
    BatchStepsInNumbers(q);
  }

  /** With that room a pooling model's batches step down from 4096, else they are 2048 throughout. */
  lemma BatchesInNumbers(q: Request, k: nat)
    requires k < |Ladder(q)|
    ensures !q.pooling ==> Ladder(q)[k].batchSize == None && Ladder(q)[k].ubatchSize == None
    ensures q.pooling ==>
              var batch := if Roomy(q) && k == 0 then 4096 else if Roomy(q) && k == 1 then 3072 else 2048;
              Ladder(q)[k].batchSize == Some(batch) && Ladder(q)[k].ubatchSize == Some(batch)
  {
    BatchAtInNumbers(q, k);
  }

  // ----- Batches of pooling models -------------------------------------------

  lemma BatchStepsDescend(q: Request)
    ensures StrictlyDescends(BatchSteps(q)) && BatchSteps(q) != []
    ensures forall b <- BatchSteps(q) :: EMBEDDING_BATCH_FLOOR <= b <= 4096
  {
    FourStepsDescend(BaseBatch(q).0, EMBEDDING_BATCH_FLOOR);
  }

  /** On any hardware every pooling rung keeps both batches at the floor or above, the larger never increasing. */
  lemma PoolingBatches(q: Request, k: nat)
    ensures EMBEDDING_BATCH_FLOOR <= BatchAt(q, k).1 <= BatchAt(q, k).0 <= 4096
    ensures BatchAt(q, k + 1).0 <= BatchAt(q, k).0
  {
    BatchStepsDescend(q);
    BatchFromDescends(BatchSteps(q), BaseBatch(q).1, k);
  }

  lemma BatchFromDescends(steps: seq<nat>, defaultUbatch: nat, k: nat)
    requires StrictlyDescends(steps) && steps != [] && forall b <- steps :: EMBEDDING_BATCH_FLOOR <= b <= 4096
    ensures BatchFrom(steps, defaultUbatch, k).0 <= 4096
    ensures BatchFrom(steps, defaultUbatch, k + 1).0 <= BatchFrom(steps, defaultUbatch, k).0
  {
    var n := |steps| - 1;
    assert steps[Min(k, n)] in steps && steps[Min(k + 1, n)] in steps;
  }

  /**
    An input of at most 2048 estimated tokens is admitted under the profile of any rung of
    a pooling model, and the profile's budget is one for which chunking cannot overflow.
   */
  lemma ShortInputsAdmitted(q: Request, k: nat, text: Text, argsBatch: Option<u32>, argsUbatch: Option<u32>)
    requires q.pooling && k < |Ladder(q)| && EstimateTokens(text) <= EMBEDDING_BATCH_FLOOR
    ensures var plan := Ladder(q)[k];
            && plan.batchSize.Some? && plan.ubatchSize.Some?
            && plan.ubatchSize.value < U32_LIMIT && plan.batchSize.value < U32_LIMIT
            && var (batch, ubatch) :=
                 EffectiveBatchLimits(Some(plan.batchSize.value), Some(plan.ubatchSize.value), argsBatch, argsUbatch);
               EstimateTokens(text) <= ubatch <= batch <= MAX_LIMIT
  {
    PoolingBatches(q, k);
  }

  // ----- The planner ---------------------------------------------------------

  class FitPlanner {
    const plans: seq<FitPlan>
    var current: nat

    constructor (q: Request)
      ensures plans == Ladder(q) && plans != [] && current == 0
    {
      var ladder := BuildFallbackLadder(q);
      plans := ladder;
      current := 0;
    }

    /** The rung in use; past the end, the last one. */
    function CurrentPlan(): (plan: FitPlan)
      requires plans != []
      reads this
      ensures plan in plans
    {
      plans[Min(current, |plans| - 1)]
    }

    method Advance() returns (next: Option<FitPlan>)
      requires plans != []
      modifies this
      ensures current == old(current) + 1
      ensures next == if current < |plans| then Some(plans[current]) else None
    {
      current := current + 1;
      if current >= |plans| {
        return None;
      }
      return Some(CurrentPlan());
    }

    predicate IsExhausted()
      reads this
    {
      current >= |plans|
    }
  }

  /** Advancing a fresh planner until it gives nothing. */
  method WalkDown(planner: FitPlanner) returns (tried: seq<FitPlan>)
    requires planner.plans != [] && planner.current == 0
    modifies planner
    ensures tried == planner.plans && planner.IsExhausted()
  {
    tried := [planner.CurrentPlan()];
    var next := planner.Advance();
    while next.Some?
      invariant 0 < planner.current <= |planner.plans|
      invariant tried == planner.plans[..planner.current]
      invariant next == if planner.current < |planner.plans| then Some(planner.plans[planner.current]) else None
      decreases |planner.plans| - planner.current
    {
      tried := tried + [next.value];
      next := planner.Advance();
    }
  }

  /** A caller whose every attempt fails tries each rung once, in order, and then stops for good. */
  method FailEveryAttempt(q: Request) returns (tried: seq<FitPlan>, again: Option<FitPlan>)
    ensures tried == Ladder(q) && again == None
  {
    var planner := new FitPlanner(q);
    tried := WalkDown(planner);
    again := planner.Advance();
  }
}
