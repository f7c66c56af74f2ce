/**
 * The standard cycle templates (NTumbleBit/ClassicTumbler/StandardCycles.cs): block counts and durations,
 * the length of a cycle, the self-check that phases of overlapping cycles never start too close together,
 * and looking a template up by name or by parameters.
 */
module Cycles {
  import opened Wrappers
  import opened Numeric
  import opened Sorting

  /** TimeSpan ticks: 10 000 000 a second. */
  const TicksPerMinute: nat := 600_000_000

  /** The part of NBitcoin's Consensus used here: the target block spacing, in ticks. */
  datatype Consensus = Consensus(powTargetSpacing: nat)

  /** GetBlocksCount: the blocks needed to cover the given minutes, rounded up. */
  function GetBlocksCount(consensus: Consensus, minutes: nat): (blocks: int)
    requires consensus.powTargetSpacing > 0
    ensures blocks * consensus.powTargetSpacing >= minutes * TicksPerMinute
    ensures (blocks - 1) * consensus.powTargetSpacing < minutes * TicksPerMinute
  {
    CeilDiv(minutes * TicksPerMinute, consensus.powTargetSpacing)
  }

  /** GetEstimatedTime: the ticks the given number of blocks take. */
  function GetEstimatedTime(consensus: Consensus, blocks: int): (ticks: int)
    ensures consensus.powTargetSpacing > 0 ==>
      ticks % consensus.powTargetSpacing == 0 && ticks / consensus.powTargetSpacing == blocks
  {
    if consensus.powTargetSpacing > 0 then
      ModOfMulAdd(consensus.powTargetSpacing, blocks, 0);
      consensus.powTargetSpacing * blocks
    else
      consensus.powTargetSpacing * blocks
  }

  /** The estimated time of the blocks counted for m minutes covers the m minutes, by less than one block. */
  lemma EstimatedTimeCovers(consensus: Consensus, minutes: nat)
    requires consensus.powTargetSpacing > 0
    ensures GetEstimatedTime(consensus, GetBlocksCount(consensus, minutes)) >= minutes * TicksPerMinute
    ensures GetEstimatedTime(consensus, GetBlocksCount(consensus, minutes)) - consensus.powTargetSpacing <
      minutes * TicksPerMinute
  {
    var b := GetBlocksCount(consensus, minutes);
    assert GetEstimatedTime(consensus, b) == b * consensus.powTargetSpacing;
    assert (b - 1) * consensus.powTargetSpacing == b * consensus.powTargetSpacing - consensus.powTargetSpacing;
  }

  /** A positive number of minutes takes at least one block. */
  lemma BlocksCountPositive(consensus: Consensus, minutes: nat)
    requires consensus.powTargetSpacing > 0 && minutes > 0
    ensures GetBlocksCount(consensus, minutes) >= 1
  {
    var b := GetBlocksCount(consensus, minutes);
    if b <= 0 {
      MulLeft(consensus.powTargetSpacing, b, 0);
    }
  }

  lemma MulLeft(p: nat, x: int, y: int)
    requires x <= y
    ensures x * p <= y * p
  {
    assert y * p - x * p == (y - x) * p;
  }

  /** CycleParameters: the first block of the cycle and the length of each of its seven phases. */
  datatype CycleParameters = CycleParameters(
    start: nat,
    registrationDuration: nat,
    safetyPeriodDuration: nat,
    clientChannelEstablishmentDuration: nat,
    tumblerChannelEstablishmentDuration: nat,
    paymentPhaseDuration: nat,
    tumblerCashoutDuration: nat,
    clientCashoutDuration: nat)

  /** Every one of the seven phases lasts at least one block. */
  predicate PositivePhases(c: CycleParameters)
  {
    c.registrationDuration > 0 && c.safetyPeriodDuration > 0 && c.clientChannelEstablishmentDuration > 0 &&
    c.tumblerChannelEstablishmentDuration > 0 && c.paymentPhaseDuration > 0 && c.tumblerCashoutDuration > 0 &&
    c.clientCashoutDuration > 0
  }

  /** A half-open range of block heights [start, end). */
  datatype CyclePeriod = CyclePeriod(start: nat, end: nat)

  datatype CyclePeriods = CyclePeriods(
    registration: CyclePeriod,
    safetyPeriod: CyclePeriod,
    clientChannelEstablishment: CyclePeriod,
    tumblerChannelEstablishment: CyclePeriod,
    paymentPhase: CyclePeriod,
    tumblerCashout: CyclePeriod,
    clientCashout: CyclePeriod,
    total: CyclePeriod)

  /** GetPeriods: the seven phases one after the other from the cycle's start; Total spans them all. */
  function GetPeriods(c: CycleParameters): (p: CyclePeriods)
    ensures p.registration == CyclePeriod(c.start, c.start + c.registrationDuration)
    ensures p.safetyPeriod.start == p.registration.end
    ensures p.clientChannelEstablishment.start == p.safetyPeriod.end
    ensures p.tumblerChannelEstablishment.start == p.clientChannelEstablishment.end
    ensures p.paymentPhase.start == p.tumblerChannelEstablishment.end
    ensures p.tumblerCashout.start == p.paymentPhase.end
    ensures p.clientCashout.start == p.tumblerCashout.end
    ensures p.clientCashout.end == p.clientCashout.start + c.clientCashoutDuration
    ensures p.total == CyclePeriod(c.start, p.clientCashout.end)
  {
    var registration := CyclePeriod(c.start, c.start + c.registrationDuration);
    var safety := CyclePeriod(registration.end, registration.end + c.safetyPeriodDuration);
    var clientChannel := CyclePeriod(safety.end, safety.end + c.clientChannelEstablishmentDuration);
    var tumblerChannel := CyclePeriod(clientChannel.end, clientChannel.end + c.tumblerChannelEstablishmentDuration);
    var payment := CyclePeriod(tumblerChannel.end, tumblerChannel.end + c.paymentPhaseDuration);
    var tumblerCashout := CyclePeriod(payment.end, payment.end + c.tumblerCashoutDuration);
    var clientCashout := CyclePeriod(tumblerCashout.end, tumblerCashout.end + c.clientCashoutDuration);
    CyclePeriods(registration, safety, clientChannel, tumblerChannel, payment, tumblerCashout, clientCashout,
                 CyclePeriod(c.start, clientCashout.end))
  }

  /** The length of the Total period: the sum of the seven durations. */
  function TotalLength(c: CycleParameters): (n: nat)
  {
    GetPeriods(c).total.end - GetPeriods(c).total.start
  }

  /** The phase starts the self-check compares: registration, both channel establishments and both cashouts. */
  function PhaseStarts(c: CycleParameters): (s: seq<int>)
    ensures |s| == 5
  {
    var p := GetPeriods(c);
    [p.registration.start, p.clientChannelEstablishment.start, p.tumblerChannelEstablishment.start,
     p.tumblerCashout.start, p.clientCashout.start]
  }

  /** OverlappedCycleGenerator: a first cycle repeated every registration length less the overlap. */
  datatype OverlappedCycleGenerator = OverlappedCycleGenerator(registrationOverlap: int, firstCycle: CycleParameters)

  /** The registration length less the overlap: how far apart consecutive cycles start. */
  function NonOverlappedPart(g: OverlappedCycleGenerator): int
  {
    var p := GetPeriods(g.firstCycle);
    p.registration.end - p.registration.start - g.registrationOverlap
  }

  /** A generator whose cycles advance and last at least one block. */
  predicate Advancing(g: OverlappedCycleGenerator)
  {
    NonOverlappedPart(g) > 0 && TotalLength(g.firstCycle) > 0
  }

  /** The k-th cycle of the generator. */
  function Generation(g: OverlappedCycleGenerator, k: nat): (c: CycleParameters)
    requires Advancing(g)
    ensures c.start == g.firstCycle.start + k * NonOverlappedPart(g) && TotalLength(c) == TotalLength(g.firstCycle)
  {
    g.firstCycle.(start := g.firstCycle.start + k * NonOverlappedPart(g))
  }

  /** At most this many earlier cycles can still be running: the total length over the step, rounded up. */
  function MaxOverlapped(g: OverlappedCycleGenerator): nat
    requires Advancing(g)
  {
    CeilDiv(TotalLength(g.firstCycle), NonOverlappedPart(g))
  }

  /** The cycle's Total period contains the height. */
  predicate RunningAt(c: CycleParameters, height: nat)
  {
    c.start <= height < c.start + TotalLength(c)
  }

  /** The cycles k in [lo, hi] whose Total period contains the height: all of them, and only them. */
  function ActiveBetween(g: OverlappedCycleGenerator, height: nat, lo: nat, hi: nat): (r: seq<CycleParameters>)
    requires Advancing(g)
    ensures |r| <= hi + 1 - lo || (lo > hi && |r| == 0)
    ensures forall i :: 0 <= i < |r| ==> RunningAt(r[i], height)
    ensures forall k: nat :: lo <= k <= hi && RunningAt(Generation(g, k), height) ==> Generation(g, k) in r
    decreases hi + 1 - lo
  {
    if lo > hi then []
    else
      var c := Generation(g, lo);
      (if RunningAt(c, height) then [c] else []) + ActiveBetween(g, height, lo + 1, hi)
  }

  /**
   * A cycle running at the height started at most d / step cycles after the first (d the height's distance
   * from the first start), and fewer than MaxOverlapped cycles before that last one.
   */
  lemma RunningWindow(g: OverlappedCycleGenerator, height: nat, k: nat)
    requires Advancing(g) && RunningAt(Generation(g, k), height)
    ensures height >= g.firstCycle.start
    ensures k <= (height - g.firstCycle.start) / NonOverlappedPart(g)
    ensures k + MaxOverlapped(g) > (height - g.firstCycle.start) / NonOverlappedPart(g)
  {
    var n := NonOverlappedPart(g);
    var d := height - g.firstCycle.start;
    var last := d / n;
    var t := TotalLength(g.firstCycle);
    assert k * n <= d;
    assert d == last * n + d % n;
    if k > last {
      MulLeft(n, last + 1, k);
      assert false;
    }
    assert d - k * n < t;
    // (last - k) * n <= d - k * n < t <= MaxOverlapped * n, so last - k < MaxOverlapped.
    assert (last - k) * n == last * n - k * n;
    if last - k >= MaxOverlapped(g) {
      MulLeft(n, MaxOverlapped(g), last - k);
      assert false;
    }
  }

  /** GetCycles: the cycles running at the height, oldest first: every generation running there, and only those. */
  function GetCycles(g: OverlappedCycleGenerator, height: nat): (r: seq<CycleParameters>)
    requires Advancing(g)
    ensures |r| <= MaxOverlapped(g) + 1
    ensures forall i :: 0 <= i < |r| ==> RunningAt(r[i], height)
    ensures forall k: nat :: RunningAt(Generation(g, k), height) ==> Generation(g, k) in r
  {
    if height < g.firstCycle.start then
      assert forall k: nat :: RunningAt(Generation(g, k), height) ==> false by {
        forall k: nat | RunningAt(Generation(g, k), height) {
          RunningWindow(g, height, k);
        }
      }
      []
    else
      var last := (height - g.firstCycle.start) / NonOverlappedPart(g);
      var first := if last >= MaxOverlapped(g) then last - MaxOverlapped(g) else 0;
      assert forall k: nat :: RunningAt(Generation(g, k), height) ==> first <= k <= last by {
        forall k: nat | RunningAt(Generation(g, k), height) {
          RunningWindow(g, height, k);
        }
      }
      ActiveBetween(g, height, first, last)
  }

  /** All phase starts of the cycles, cycle after cycle (SelectMany). */
  function AllStarts(cycles: seq<CycleParameters>): (s: seq<int>)
    ensures |s| == 5 * |cycles|
  {
    if |cycles| == 0 then [] else AllStarts(cycles[..|cycles| - 1]) + PhaseStarts(cycles[|cycles| - 1])
  }

  /** The sorted phase starts at one height of the check loop. */
  function SortedStarts(g: OverlappedCycleGenerator, height: nat): (s: seq<int>)
    requires Advancing(g)
    ensures Sorted(s) && |s| <= 5 * (MaxOverlapped(g) + 1)
    ensures multiset(s) == multiset(AllStarts(GetCycles(g, height)))
  {
    Sort(AllStarts(GetCycles(g, height)))
  }

  /** Every two neighbouring starts are at least the gap apart. */
  predicate GapsAtLeast(s: seq<int>, gap: int)
  {
    forall i :: 1 <= i < |s| ==> s[i] - s[i - 1] >= gap
  }

  /** For sorted starts, neighbouring gaps of at least the gap mean any two starts are that far apart. */
  lemma {:induction false} GapsBetweenAll(s: seq<int>, gap: nat, i: nat, j: nat)
    requires Sorted(s) && GapsAtLeast(s, gap) && i < j < |s|
    ensures s[j] - s[i] >= gap * (j - i)
    decreases j - i
  {
    if j > i + 1 {
      GapsBetweenAll(s, gap, i, j - 1);
    }
  }

  /** Each start reduced modulo the total length (starts are never negative, so % agrees with C#'s). */
  function Residues(s: seq<int>, total: nat): (r: seq<int>)
    requires total > 0
    ensures |r| == |s|
    ensures forall i :: 0 <= i < |s| ==> r[i] == s[i] % total
    ensures forall i :: 0 <= i < |r| ==> 0 <= r[i] < total
  {
    if |s| == 0 then [] else Residues(s[..|s| - 1], total) + [s[|s| - 1] % total]
  }

  /** The height of the j-th iteration of the check loop. */
  function CheckHeight(g: OverlappedCycleGenerator, j: nat): (h: nat)
    requires Advancing(g)
  {
    g.firstCycle.start + j * NonOverlappedPart(g)
  }

  /** The residue vector the j-th iteration records. */
  function State(g: OverlappedCycleGenerator, j: nat): seq<int>
    requires Advancing(g)
  {
    Residues(SortedStarts(g, CheckHeight(g, j)), TotalLength(g.firstCycle))
  }

  /** The vectors of length at most n with entries in [0, bound). */
  function Vectors(n: nat, bound: nat): set<seq<int>>
  {
    if n == 0 then {[]}
    else Vectors(n - 1, bound) + (set v, x | v in Vectors(n - 1, bound) && 0 <= x < bound :: v + [x])
  }

  lemma {:induction false} InVectors(v: seq<int>, n: nat, bound: nat)
    requires |v| <= n && forall i :: 0 <= i < |v| ==> 0 <= v[i] < bound
    ensures v in Vectors(n, bound)
  {
    if n > 0 {
      if |v| < n {
        InVectors(v, n - 1, bound);
      } else {
        var w := v[..|v| - 1];
        InVectors(w, n - 1, bound);
        assert v == w + [v[|v| - 1]];
      }
    }
  }

  /** Every residue vector the check can record lies in this finite set. */
  function Universe(g: OverlappedCycleGenerator): set<seq<int>>
    requires Advancing(g)
  {
    Vectors(5 * (MaxOverlapped(g) + 1), TotalLength(g.firstCycle))
  }

  /** Every state the check records lies in the universe. */
  lemma StatesInUniverse(g: OverlappedCycleGenerator)
    requires Advancing(g)
    ensures forall j: nat :: State(g, j) in Universe(g)
  {
    forall j: nat
      ensures State(g, j) in Universe(g)
    {
      StateInUniverse(g, j);
    }
  }

  lemma StateInUniverse(g: OverlappedCycleGenerator, j: nat)
    requires Advancing(g)
    ensures State(g, j) in Universe(g)
  {
    var s := SortedStarts(g, CheckHeight(g, j));
    var r := Residues(s, TotalLength(g.firstCycle));
    assert |r| <= 5 * (MaxOverlapped(g) + 1);
    InVectors(r, 5 * (MaxOverlapped(g) + 1), TotalLength(g.firstCycle));
  }

  lemma FewerUnseen(u: set<seq<int>>, seen: set<seq<int>>, r: seq<int>)
    requires r in u && r !in seen
    ensures |u - (seen + {r})| < |u - seen|
  {
    assert u - (seen + {r}) == (u - seen) - {r};
  }

  /**
   * The check loop over any run of iterations: wide(k) says whether iteration k's neighbouring starts are far
   * enough apart, state(k) is the state it records. From iteration j on, with the states already seen, it fails
   * at the first iteration that is not wide and succeeds at the first whose state was seen before.
   */
  function CheckLoop(wide: nat -> bool, state: nat -> seq<int>, universe: set<seq<int>>, j: nat,
                     seen: set<seq<int>>): bool
    requires seen <= universe && forall k: nat :: state(k) in universe
    decreases |universe - seen|
  {
    if !wide(j) then false
    else if state(j) in seen then true
    else
      FewerUnseen(universe, seen, state(j));
      CheckLoop(wide, state, universe, j + 1, seen + {state(j)})
  }

  /** The number of iterations from j up to and including the first whose state was seen before. */
  function LoopCount(state: nat -> seq<int>, universe: set<seq<int>>, j: nat, seen: set<seq<int>>): (n: nat)
    requires seen <= universe && forall k: nat :: state(k) in universe
    ensures n >= 1
    decreases |universe - seen|
  {
    if state(j) in seen then 1
    else
      FewerUnseen(universe, seen, state(j));
      1 + LoopCount(state, universe, j + 1, seen + {state(j)})
  }

  /** The loop passes exactly when every iteration up to the first repeated state is wide. */
  lemma {:induction false} CheckLoopMeaning(wide: nat -> bool, state: nat -> seq<int>, universe: set<seq<int>>,
                                            j: nat, seen: set<seq<int>>)
    requires seen <= universe && forall k: nat :: state(k) in universe
    ensures CheckLoop(wide, state, universe, j, seen) <==>
      forall k: nat :: j <= k < j + LoopCount(state, universe, j, seen) ==> wide(k)
    decreases |universe - seen|
  {
    if state(j) !in seen {
      FewerUnseen(universe, seen, state(j));
      CheckLoopMeaning(wide, state, universe, j + 1, seen + {state(j)});
    }
  }

  /**
   * Each state is recorded once: the iterations before the last record states that are new and pairwise
   * different, and the last iteration's state is one seen before.
   */
  lemma LoopStatesDistinct(state: nat -> seq<int>, universe: set<seq<int>>, j: nat, seen: set<seq<int>>)
    requires seen <= universe && forall k: nat :: state(k) in universe
    ensures var n := LoopCount(state, universe, j, seen);
      && (forall k: nat :: j <= k < j + n - 1 ==> state(k) !in seen)
      && (forall k: nat, l: nat :: j <= k < l < j + n - 1 ==> state(k) != state(l))
      && (state(j + n - 1) in seen || exists k: nat :: j <= k < j + n - 1 && state(k) == state(j + n - 1))
  {
    LoopStatesFresh(state, universe, j, seen);
    LoopStatesApart(state, universe, j, seen);
    LoopLastSeen(state, universe, j, seen);
  }

  /** The iterations before the last record states not seen before the loop. */
  lemma {:induction false} LoopStatesFresh(state: nat -> seq<int>, universe: set<seq<int>>, j: nat,
                                           seen: set<seq<int>>)
    requires seen <= universe && forall k: nat :: state(k) in universe
    ensures forall k: nat :: j <= k < j + LoopCount(state, universe, j, seen) - 1 ==> state(k) !in seen
    decreases |universe - seen|
  {
    if state(j) !in seen {
      FewerUnseen(universe, seen, state(j));
      LoopStatesFresh(state, universe, j + 1, seen + {state(j)});
    }
  }

  /** The iterations before the last record pairwise different states. */
  lemma {:induction false} LoopStatesApart(state: nat -> seq<int>, universe: set<seq<int>>, j: nat,
                                           seen: set<seq<int>>)
    requires seen <= universe && forall k: nat :: state(k) in universe
    ensures forall k: nat, l: nat :: j <= k < l < j + LoopCount(state, universe, j, seen) - 1 ==> state(k) != state(l)
    decreases |universe - seen|
  {
    if state(j) !in seen {
      var seen' := seen + {state(j)};
      FewerUnseen(universe, seen, state(j));
      LoopStatesApart(state, universe, j + 1, seen');
      LoopStatesFresh(state, universe, j + 1, seen');
    }
  }

  /** The last iteration records a state seen before the loop or in an earlier iteration. */
  lemma {:induction false} LoopLastSeen(state: nat -> seq<int>, universe: set<seq<int>>, j: nat,
                                        seen: set<seq<int>>)
    requires seen <= universe && forall k: nat :: state(k) in universe
    ensures var n := LoopCount(state, universe, j, seen);
      state(j + n - 1) in seen || exists k: nat :: j <= k < j + n - 1 && state(k) == state(j + n - 1)
    decreases |universe - seen|
  {
    if state(j) !in seen {
      var seen' := seen + {state(j)};
      FewerUnseen(universe, seen, state(j));
      LoopLastSeen(state, universe, j + 1, seen');
      var n := LoopCount(state, universe, j, seen);
      assert n == 1 + LoopCount(state, universe, j + 1, seen');
      if state(j + n - 1) !in seen && state(j + n - 1) == state(j) {
        assert j <= j < j + n - 1;
      }
    }
  }

  /** The states of a loop started with nothing seen are pairwise different before the last iteration. */
  lemma LoopStatesPairwise(state: nat -> seq<int>, universe: set<seq<int>>)
    requires forall k: nat :: state(k) in universe
    ensures forall k: nat, l: nat :: k < l < LoopCount(state, universe, 0, {}) - 1 ==> state(k) != state(l)
  {
    LoopStatesDistinct(state, universe, 0, {});
  }

  /** The last iteration of a loop started with nothing seen repeats the state of an earlier one. */
  lemma LoopLastRepeats(state: nat -> seq<int>, universe: set<seq<int>>) returns (k: nat)
    requires forall k: nat :: state(k) in universe
    ensures k < LoopCount(state, universe, 0, {}) - 1 && state(k) == state(LoopCount(state, universe, 0, {}) - 1)
  {
    var n := LoopCount(state, universe, 0, {});
    LoopStatesDistinct(state, universe, 0, {});
    k :| k < n - 1 && state(k) == state(n - 1);
  }

  /** Whether the sorted starts of the k-th iteration of the generator's check are at least the gap apart. */
  function WideAt(g: OverlappedCycleGenerator, gap: int): (wide: nat -> bool)
    requires Advancing(g)
    ensures forall k: nat :: wide(k) == GapsAtLeast(SortedStarts(g, CheckHeight(g, k)), gap)
  {
    (k: nat) => GapsAtLeast(SortedStarts(g, CheckHeight(g, k)), gap)
  }

  /** The state the k-th iteration of the generator's check records. */
  function StateAt(g: OverlappedCycleGenerator): (state: nat -> seq<int>)
    requires Advancing(g)
    ensures AgreesWithState(g, state) && forall k: nat :: state(k) in Universe(g)
  {
    StatesInUniverse(g);
    (k: nat) => State(g, k)
  }

  /** The self-check of a generator from iteration j on, with the states already seen. */
  function CheckFrom(g: OverlappedCycleGenerator, gap: int, j: nat, seen: set<seq<int>>): bool
    requires Advancing(g) && seen <= Universe(g)
  {
    CheckLoop(WideAt(g, gap), StateAt(g), Universe(g), j, seen)
  }

  /** The number of iterations the self-check runs when no gap is too small: up to the first repeated state. */
  function CheckedCount(g: OverlappedCycleGenerator): (n: nat)
    requires Advancing(g)
    ensures n >= 1
  {
    LoopCount(StateAt(g), Universe(g), 0, {})
  }

  /**
   * The self-check passes exactly when every iteration up to the first repeated state has wide enough gaps.
   * Stated for any functions that agree with the gap check and with State, such as WideAt(g, gap) and
   * StateAt(g) (for which the loop is CheckFrom(g, gap, 0, {})), and the number n of iterations the loop makes,
   * CheckedCount(g) for StateAt(g).
   */
  lemma CheckFromMeaning(g: OverlappedCycleGenerator, gap: int, wide: nat -> bool, state: nat -> seq<int>, n: nat)
    requires Advancing(g) && forall k: nat :: state(k) in Universe(g)
    requires forall k: nat :: wide(k) == GapsAtLeast(SortedStarts(g, CheckHeight(g, k)), gap)
    requires n == LoopCount(state, Universe(g), 0, {})
    ensures CheckLoop(wide, state, Universe(g), 0, {}) <==>
      forall k: nat :: k < n ==> GapsAtLeast(SortedStarts(g, CheckHeight(g, k)), gap)
  {
    CheckLoopMeaning(wide, state, Universe(g), 0, {});
  }

  /**
   * The iterations of the self-check record pairwise different states, and the last one repeats an earlier one.
   * Stated for any function that agrees with State, such as StateAt(g), and the number n of iterations the loop
   * makes with it, which for StateAt(g) is CheckedCount(g).
   */
  lemma CheckedStatesDistinct(g: OverlappedCycleGenerator, state: nat -> seq<int>, n: nat)
    requires Advancing(g) && AgreesWithState(g, state) && forall k: nat :: state(k) in Universe(g)
    requires n == LoopCount(state, Universe(g), 0, {})
    ensures forall k: nat, l: nat :: k < l < n - 1 ==> State(g, k) != State(g, l)
    ensures exists k: nat :: k < n - 1 && State(g, k) == State(g, n - 1)
  {
    var k := LoopStatesFromStart(state, Universe(g), n);
    StatesAsState(g, state, n, k);
  }

  /** The states of a loop started with nothing seen: pairwise different before the last, which repeats one. */
  lemma LoopStatesFromStart(state: nat -> seq<int>, universe: set<seq<int>>, n: nat) returns (k: nat)
    requires forall k: nat :: state(k) in universe
    requires n == LoopCount(state, universe, 0, {})
    ensures Apart(state, n)
    ensures k < n - 1 && state(k) == state(n - 1)
  {
    LoopStatesPairwise(state, universe);
    k := LoopLastRepeats(state, universe);
  }

  /** The states of the iterations before the n-th are pairwise different. */
  ghost predicate Apart(state: nat -> seq<int>, n: nat)
  {
    forall k: nat, l: nat :: k < l < n - 1 ==> state(k) != state(l)
  }

  ghost predicate AgreesWithState(g: OverlappedCycleGenerator, state: nat -> seq<int>)
    requires Advancing(g)
  {
    forall j: nat :: state(j) == State(g, j)
  }

  /** The same facts about a function that agrees with State, stated of State. */
  lemma StatesAsState(g: OverlappedCycleGenerator, state: nat -> seq<int>, n: nat, k: nat)
    requires Advancing(g)
    requires AgreesWithState(g, state) && Apart(state, n)
    requires k < n - 1 && state(k) == state(n - 1)
    ensures forall k: nat, l: nat :: k < l < n - 1 ==> State(g, k) != State(g, l)
    ensures State(g, k) == State(g, n - 1)
  {
  }

  /** StandardCycle: a named template with its denomination (in satoshis) and cycle generator. */
  datatype StandardCycle = StandardCycle(
    friendlyName: string,
    consensus: Consensus,
    denomination: int,
    generator: OverlappedCycleGenerator)
  {
    /**
     * GetLength: the estimated time of the whole Total period at startup, else of the non-overlapped part
     * only, which is how often a new cycle begins.
     */
    function GetLength(startup: bool): (ticks: int)
      ensures startup ==> ticks == GetEstimatedTime(consensus, TotalLength(generator.firstCycle))
      ensures !startup ==> ticks == GetEstimatedTime(consensus, NonOverlappedPart(generator))
    {
      var periods := GetPeriods(generator.firstCycle);
      var nonOverlappedPart := periods.registration.end - periods.registration.start - generator.registrationOverlap;
      var overlappedPart := periods.total.end - periods.total.start - nonOverlappedPart;
      GetEstimatedTime(consensus, if startup then nonOverlappedPart + overlappedPart else nonOverlappedPart)
    }
  }

  /** One bitcoin in satoshis (Money.Coins(1.0m)). */
  const OneCoin: int := 100_000_000

  /** The production template: one cycle a day. */
  function Kotori(consensus: Consensus): (s: StandardCycle)
    requires consensus.powTargetSpacing > 0
    ensures Advancing(s.generator) && PositivePhases(s.generator.firstCycle)
  {
    BlocksCountPositive(consensus, 24 * 60);
    BlocksCountPositive(consensus, 20);
    BlocksCountPositive(consensus, 4 * 60);
    BlocksCountPositive(consensus, 4 * 60 + 30);
    BlocksCountPositive(consensus, 9 * 60 + 30);
    BlocksCountPositive(consensus, 5 * 60);
    StandardCycle("Kotori", consensus, OneCoin, OverlappedCycleGenerator(1, CycleParameters(
      0,
      GetBlocksCount(consensus, 24 * 60) + 1,
      GetBlocksCount(consensus, 20),
      GetBlocksCount(consensus, 4 * 60),
      GetBlocksCount(consensus, 4 * 60),
      GetBlocksCount(consensus, 4 * 60 + 30),
      GetBlocksCount(consensus, 9 * 60 + 30),
      GetBlocksCount(consensus, 5 * 60))))
  }

  /** The test template: short phases. */
  function Shorty(consensus: Consensus): (s: StandardCycle)
    requires consensus.powTargetSpacing > 0
    ensures Advancing(s.generator) && PositivePhases(s.generator.firstCycle)
  {
    BlocksCountPositive(consensus, 20);
    BlocksCountPositive(consensus, 10);
    BlocksCountPositive(consensus, 40);
    StandardCycle("Shorty", consensus, OneCoin, OverlappedCycleGenerator(1, CycleParameters(
      1,
      GetBlocksCount(consensus, 20) + 1,
      GetBlocksCount(consensus, 10),
      GetBlocksCount(consensus, 20),
      GetBlocksCount(consensus, 20),
      GetBlocksCount(consensus, 20),
      GetBlocksCount(consensus, 40),
      GetBlocksCount(consensus, 20))))
  }

  /** The first element satisfying the predicate (FirstOrDefault), with null as None. */
  function FirstMatch(cycles: seq<StandardCycle>, p: StandardCycle -> bool): (r: Option<StandardCycle>)
    ensures r.Some? ==> r.value in cycles && p(r.value)
    ensures r.Some? ==> exists i :: 0 <= i < |cycles| && cycles[i] == r.value && forall k :: 0 <= k < i ==> !p(cycles[k])
    ensures r.None? <==> forall i :: 0 <= i < |cycles| ==> !p(cycles[i])
  {
    if |cycles| == 0 then None
    else if p(cycles[0]) then Some(cycles[0])
    else
      var r := FirstMatch(cycles[1..], p);
      FirstMatchTail(cycles, p, r);
      r
  }

  /** A match found in the tail of a sequence whose head does not match is the first match of the whole. */
  lemma FirstMatchTail(cycles: seq<StandardCycle>, p: StandardCycle -> bool, r: Option<StandardCycle>)
    requires |cycles| > 0 && !p(cycles[0])
    requires r.Some? ==> exists i :: 0 <= i < |cycles[1..]| && cycles[1..][i] == r.value && forall k :: 0 <= k < i ==> !p(cycles[1..][k])
    requires r.None? <==> forall i :: 0 <= i < |cycles[1..]| ==> !p(cycles[1..][i])
    ensures r.Some? ==> exists i :: 0 <= i < |cycles| && cycles[i] == r.value && forall k :: 0 <= k < i ==> !p(cycles[k])
    ensures r.None? <==> forall i :: 0 <= i < |cycles| ==> !p(cycles[i])
  {
    if r.Some? {
      var i :| 0 <= i < |cycles[1..]| && cycles[1..][i] == r.value && forall k :: 0 <= k < i ==> !p(cycles[1..][k]);
      assert forall k :: 1 <= k < i + 1 ==> cycles[k] == cycles[1..][k - 1];
      assert cycles[i + 1] == r.value && forall k :: 0 <= k < i + 1 ==> !p(cycles[k]);
    } else {
      assert forall i :: 1 <= i < |cycles| ==> cycles[i] == cycles[1..][i - 1];
    }
  }

  /** Upper-casing of ASCII letters, the comparison OrdinalIgnoreCase makes for them. */
  function UpperAscii(c: char): char
  {
    if 'a' <= c <= 'z' then (c as int - 'a' as int + 'A' as int) as char else c
  }

  predicate EqualsIgnoreCase(a: string, b: string)
  {
    |a| == |b| && forall i :: 0 <= i < |a| ==> UpperAscii(a[i]) == UpperAscii(b[i])
  }

  class StandardCycles {
    const debug: bool
    const kotori: StandardCycle
    const shorty: StandardCycle

    constructor (debug: bool, kotori: StandardCycle, shorty: StandardCycle)
      ensures this.debug == debug && this.kotori == kotori && this.shorty == shorty
    {
      this.debug := debug;
      this.kotori := kotori;
      this.shorty := shorty;
    }

    /** ToEnumerable: Kotori always and first, Shorty only in debug mode. */
    function ToEnumerable(): (r: seq<StandardCycle>)
      ensures |r| >= 1 && r[0] == kotori
      ensures |r| == 2 <==> debug
      ensures |r| <= 2 && (debug ==> r[1] == shorty)
    {
      [kotori] + (if debug then [shorty] else [])
    }

    /** GetStandardCycle(name): the first template whose name matches, ignoring case; null when none does. */
    function GetStandardCycleByName(name: string): (r: Option<StandardCycle>)
      ensures r.Some? ==> r.value in ToEnumerable() && EqualsIgnoreCase(r.value.friendlyName, name)
      ensures r.None? <==> forall c :: c in ToEnumerable() ==> !EqualsIgnoreCase(c.friendlyName, name)
    {
      FirstMatch(ToEnumerable(), (c: StandardCycle) => EqualsIgnoreCase(c.friendlyName, name))
    }

    /**
     * GetStandardCycle(parameters): the first template whose generator hashes like the parameters' generator
     * and whose denomination is theirs; null when none does.
     */
    function GetStandardCycleByParameters(hash: OverlappedCycleGenerator -> nat, generator: OverlappedCycleGenerator,
                                          denomination: int): (r: Option<StandardCycle>)
      ensures r.Some? ==> r.value in ToEnumerable() && hash(r.value.generator) == hash(generator)
                          && r.value.denomination == denomination
      ensures r.None? <==> forall c :: c in ToEnumerable() ==>
                             !(hash(c.generator) == hash(generator) && c.denomination == denomination)
    {
      FirstMatch(ToEnumerable(), (c: StandardCycle) => hash(c.generator) == hash(generator) && c.denomination == denomination)
    }
  }

  /** The next iteration's height is one non-overlapped part further. */
  lemma NextCheckHeight(g: OverlappedCycleGenerator, j: nat)
    requires Advancing(g)
    ensures CheckHeight(g, j + 1) == CheckHeight(g, j) + NonOverlappedPart(g)
  {
    assert (j + 1) * NonOverlappedPart(g) == j * NonOverlappedPart(g) + NonOverlappedPart(g);
  }

  /** The overlap self-check of one template: true when it passes, false where the source throws. */
  method CheckStandard(standard: StandardCycle, gap: int) returns (ok: bool)
    requires Advancing(standard.generator)
    ensures ok == CheckFrom(standard.generator, gap, 0, {})
  {
    var g := standard.generator;
    var start := g.firstCycle.start;
    var periods := GetPeriods(g.firstCycle);
    var nonOverlappedPart := periods.registration.end - periods.registration.start - g.registrationOverlap;
    var total := periods.total.end - periods.total.start;
    ghost var wide := WideAt(g, gap);
    ghost var state := StateAt(g);
    forall k: nat
      ensures wide(Iteration(k)) == GapsAtLeast(SortedStarts(g, CheckHeight(g, Iteration(k))), gap)
      ensures state(Iteration(k)) == State(g, Iteration(k))
    {
    }
    ok := CheckLoopFrom(g, start, nonOverlappedPart, total, gap, wide, state);
  }

  /** Names an iteration of the check loop; the quantifier of Describes fires only on it. */
  function Iteration(k: nat): nat
  {
    k
  }

  /** wide and state give, for each iteration of the generator's check, whether it is wide and what it records. */
  ghost predicate Describes(g: OverlappedCycleGenerator, gap: int, wide: nat -> bool, state: nat -> seq<int>)
    requires Advancing(g)
  {
    forall k: nat {:trigger Iteration(k)} ::
      && wide(Iteration(k)) == GapsAtLeast(SortedStarts(g, CheckHeight(g, Iteration(k))), gap)
      && state(Iteration(k)) == State(g, Iteration(k))
  }

  /**
   * The check loop: for i from the first cycle's start in steps of the non-overlapped part, check the gaps of
   * the sorted starts, then record their residues, until the gaps are too small or the residues repeat.
   */
  method CheckLoopFrom(g: OverlappedCycleGenerator, start: nat, nonOverlappedPart: int, total: nat, gap: int,
                       ghost wide: nat -> bool, ghost state: nat -> seq<int>) returns (ok: bool)
    requires Advancing(g) && start == g.firstCycle.start && nonOverlappedPart == NonOverlappedPart(g)
    requires total == TotalLength(g.firstCycle)
    requires Describes(g, gap, wide, state) && forall k: nat :: state(k) in Universe(g)
    ensures ok == CheckLoop(wide, state, Universe(g), 0, {})
  {
    var states: set<seq<int>> := {};
    var i := start;
    ghost var j: nat := 0;
    while true
      invariant i == CheckHeight(g, j)
      invariant states <= Universe(g)
      invariant CheckLoop(wide, state, Universe(g), 0, {}) == CheckLoop(wide, state, Universe(g), j, states)
      decreases |Universe(g) - states|
    {
      var done, key;
      done, ok, key := CheckIteration(g, i, total, gap, j, states, wide, state);
      if done {
        return;
      }
      FewerUnseen(Universe(g), states, key);
      states := states + {key};
      NextCheckHeight(g, j);
      i := i + nonOverlappedPart;
      j := j + 1;
    }
  }

  /**
   * One iteration of the check loop at height i: sort the starts, check the gaps, reduce them modulo the
   * total length; it is done when the gaps are too small or the residues were seen before.
   */
  method CheckIteration(g: OverlappedCycleGenerator, i: nat, total: nat, gap: int, ghost j: nat,
                        states: set<seq<int>>, ghost wide: nat -> bool, ghost state: nat -> seq<int>)
    returns (done: bool, ok: bool, key: seq<int>)
    requires Advancing(g) && i == CheckHeight(g, j) && total == TotalLength(g.firstCycle) && states <= Universe(g)
    requires Describes(g, gap, wide, state) && forall k: nat :: state(k) in Universe(g)
    ensures key == state(j)
    ensures done ==> ok == CheckLoop(wide, state, Universe(g), j, states)
    ensures !done ==> key !in states && CheckLoop(wide, state, Universe(g), j, states) ==
                                        CheckLoop(wide, state, Universe(g), j + 1, states + {key})
  {
    ok, key := CheckStarts(SortedStarts(g, i), total, gap);
    DescribesAt(g, gap, wide, state, j);
    CheckLoopStep(wide, state, Universe(g), j, states);
    if !ok {
      return true, false, key;
    }
    if key in states {
      return true, true, key;
    }
    done := false;
  }

  /** The body of the check loop on the sorted starts: the gap check, then the residues of the starts. */
  method CheckStarts(sorted: seq<int>, total: nat, gap: int) returns (ok: bool, key: seq<int>)
    requires total > 0
    ensures ok == GapsAtLeast(sorted, gap)
    ensures key == Residues(sorted, total)
  {
    var starts := new int[|sorted|](k requires 0 <= k < |sorted| => sorted[k]);
    assert starts[..] == sorted;
    ok := CheckGaps(starts, gap);
    ReduceModulo(starts, total);
    key := starts[..];
  }

  /** What Describes says of one iteration. */
  lemma DescribesAt(g: OverlappedCycleGenerator, gap: int, wide: nat -> bool, state: nat -> seq<int>, j: nat)
    requires Advancing(g) && Describes(g, gap, wide, state)
    ensures wide(j) == GapsAtLeast(SortedStarts(g, CheckHeight(g, j)), gap)
    ensures state(j) == State(g, j)
  {
    assert Iteration(j) == j;
  }

  /** One unfolding of CheckLoop: stop on narrow gaps, pass on a repeated state, else go on with it recorded. */
  lemma CheckLoopStep(wide: nat -> bool, state: nat -> seq<int>, universe: set<seq<int>>, j: nat,
                      seen: set<seq<int>>)
    requires seen <= universe && forall k: nat :: state(k) in universe
    ensures !wide(j) ==> !CheckLoop(wide, state, universe, j, seen)
    ensures wide(j) && state(j) in seen ==> CheckLoop(wide, state, universe, j, seen)
    ensures wide(j) && state(j) !in seen ==>
      CheckLoop(wide, state, universe, j, seen) == CheckLoop(wide, state, universe, j + 1, seen + {state(j)})
  {
  }

  /** The gap loop: every neighbouring pair of starts at least the gap apart. */
  method CheckGaps(starts: array<int>, gap: int) returns (ok: bool)
    ensures ok == GapsAtLeast(starts[..], gap)
  {
    if starts.Length == 0 {
      return true;
    }
    for ii := 1 to starts.Length
      invariant forall k :: 1 <= k < ii ==> starts[k] - starts[k - 1] >= gap
    {
      if starts[ii] - starts[ii - 1] < gap {
        return false;
      }
    }
    return true;
  }

  /** The residue loop: each start replaced in place by its remainder modulo the total length. */
  method ReduceModulo(starts: array<int>, total: nat)
    requires total > 0
    modifies starts
    ensures starts[..] == Residues(old(starts[..]), total)
  {
    for ii := 0 to starts.Length
      invariant forall k :: 0 <= k < ii ==> starts[k] == old(starts[k]) % total
      invariant forall k :: ii <= k < starts.Length ==> starts[k] == old(starts[k])
    {
      starts[ii] := starts[ii] % total;
    }
  }

  /**
   * new StandardCycles(consensus, debug): builds both templates and, outside debug mode, runs the overlap
   * self-check on each enumerated template with a gap of 20 minutes' worth of blocks.
   */
  method Create(consensus: Consensus, debug: bool) returns (r: Result<StandardCycles, string>)
    requires consensus.powTargetSpacing > 0
    ensures debug ==> r.Success?
    ensures !debug ==>
      (r.Success? <==> CheckFrom(Kotori(consensus).generator, GetBlocksCount(consensus, 20), 0, {}))
    ensures r.Success? ==>
      fresh(r.value) && r.value.debug == debug && r.value.kotori == Kotori(consensus) && r.value.shorty == Shorty(consensus)
  {
    var kotori := Kotori(consensus);
    var shorty := Shorty(consensus);
    var cycles := new StandardCycles(debug, kotori, shorty);
    if !debug {
      var standards := cycles.ToEnumerable();
      assert standards == [kotori];
      var ok := CheckStandard(standards[0], GetBlocksCount(consensus, 20));
      if !ok {
        return Failure("A standard cycle generator generates cycles which overlap too much");
      }
    }
    r := Success(cycles);
  }
}
