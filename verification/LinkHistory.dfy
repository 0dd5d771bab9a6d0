/** The history of one link's ups and downs, and the metric that its recent uptime earns it. */
module LinkHistory {
  import opened Network

  /** Slots in the circular buffer (include/algorithm/link_hist.h:9). */
  const TS_SIZE: nat := 64
  const SIZE_T: nat := 0x1_0000_0000_0000_0000

  type Positive = r: real | r > 0.0 witness 1.0

  function Toggle(s: LinkState): LinkState { if s == Up then Down else Up }

  function StateToBool(s: LinkState): real { if s == Up then 1.0 else 0.0 }

  // ---------- What a history means ----------

  /** The state after n toggles. */
  ghost function StateAfter(initial: LinkState, n: nat): LinkState {
    if n == 0 then initial else Toggle(StateAfter(initial, n - 1))
  }

  /** How many of the logged toggles happened at or before time x. */
  ghost function TogglesBy(log: seq<nat>, x: nat): nat {
    if log == [] then 0
    else TogglesBy(log[..|log| - 1], x) + if log[|log| - 1] <= x then 1 else 0
  }

  ghost function StateAt(initial: LinkState, log: seq<nat>, x: nat): LinkState {
    StateAfter(initial, TogglesBy(log, x))
  }

  /** The weight of the milliseconds in [a, b) during which the link was in state s; F grows by a millisecond's weight. */
  ghost function TimeIn(F: nat -> real, initial: LinkState, log: seq<nat>, s: LinkState, a: nat, b: nat): real
    decreases b
  {
    if b <= a then 0.0
    else TimeIn(F, initial, log, s, a, b - 1) +
         if StateAt(initial, log, b - 1) == s then F(b) - F(b - 1) else 0.0
  }

  ghost predicate Sorted(log: seq<nat>) {
    forall i, j :: 0 <= i < j < |log| ==> log[i] <= log[j]
  }

  /** The last TS_SIZE toggles. */
  ghost function Retained(log: seq<nat>): (r: seq<nat>)
    ensures |r| == if |log| < TS_SIZE then |log| else TS_SIZE
  {
    if |log| <= TS_SIZE then log else log[|log| - TS_SIZE..]
  }

  lemma RetainedAt(log: seq<nat>, k: nat)
    requires k < |Retained(log)|
    ensures |Retained(log)| == if |log| < 64 then |log| else 64
    ensures Retained(log)[k] == log[|log| - |Retained(log)| + k]
  {
  }

  /** The fraction of the retained window, up to now, that the link was up, weighted by F. */
  ghost function Uptime(F: nat -> real, initial: LinkState, log: seq<nat>, now: nat): real
    requires |log| > 0 && F(now) != F(Retained(log)[0])
  {
    TimeIn(F, initial, log, Up, Retained(log)[0], now) / (F(now) - F(Retained(log)[0]))
  }

  ghost predicate StrictlyIncreasing(F: nat -> real) {
    forall x: nat, y: nat :: x < y ==> F(x) < F(y)
  }

  lemma {:induction false} TogglesByWhole(log: seq<nat>, x: nat, k: nat)
    requires Sorted(log) && k <= |log|
    requires k > 0 ==> log[k - 1] <= x
    requires k < |log| ==> x < log[k]
    ensures TogglesBy(log, x) == k
  {
    if log != [] {
      var init := log[..|log| - 1];
      if k == |log| {
        TogglesByWhole(init, x, k - 1);
      } else {
        TogglesByWhole(init, x, k);
      }
    }
  }

  /** Between two consecutive toggles the state does not change. */
  lemma {:induction false} TimeInSegment(F: nat -> real, initial: LinkState, log: seq<nat>, s: LinkState, k: nat,
            a: nat, b: nat)
    requires Sorted(log) && 0 < k <= |log| && log[k - 1] <= a <= b
    requires k < |log| ==> b <= log[k]
    ensures TimeIn(F, initial, log, s, a, b) == if StateAfter(initial, k) == s then F(b) - F(a) else 0.0
    decreases b
  {
    if a < b {
      TogglesByWhole(log, b - 1, k);
      TimeInSegment(F, initial, log, s, k, a, b - 1);
    }
  }

  lemma {:induction false} TimeInSplits(F: nat -> real, initial: LinkState, log: seq<nat>, s: LinkState, a: nat,
            b: nat, c: nat)
    requires a <= b <= c
    ensures TimeIn(F, initial, log, s, a, c) == TimeIn(F, initial, log, s, a, b) + TimeIn(F, initial, log, s, b, c)
    decreases c
  {
    if b < c { TimeInSplits(F, initial, log, s, a, b, c - 1); }
  }

  lemma {:induction false} UpAndDown(F: nat -> real, initial: LinkState, log: seq<nat>, a: nat, b: nat)
    requires a <= b
    ensures TimeIn(F, initial, log, Up, a, b) + TimeIn(F, initial, log, Down, a, b) == F(b) - F(a)
    decreases b
  {
    if a < b { UpAndDown(F, initial, log, a, b - 1); }
  }

  lemma {:induction false} TimeInNonNegative(F: nat -> real, initial: LinkState, log: seq<nat>, s: LinkState,
            a: nat, b: nat)
    requires StrictlyIncreasing(F)
    ensures 0.0 <= TimeIn(F, initial, log, s, a, b)
    decreases b
  {
    if a < b {
      TimeInNonNegative(F, initial, log, s, a, b - 1);
      assert F(b - 1) < F(b);
    }
  }

  /** The ideal fraction is a fraction. */
  lemma UptimeInUnitInterval(F: nat -> real, initial: LinkState, log: seq<nat>, now: nat)
    requires StrictlyIncreasing(F) && |log| > 0 && Retained(log)[0] < now
    ensures F(Retained(log)[0]) < F(now) && 0.0 <= Uptime(F, initial, log, now) <= 1.0
  {
    var from := Retained(log)[0];
    UpAndDown(F, initial, log, from, now);
    TimeInNonNegative(F, initial, log, Up, from, now);
    TimeInNonNegative(F, initial, log, Down, from, now);
    FractionBounds(TimeIn(F, initial, log, Up, from, now), F(now) - F(from));
  }

  lemma FractionBounds(a: real, b: real)
    requires 0.0 <= a <= b && 0.0 < b
    ensures 0.0 <= a / b <= 1.0
  {
  }

  // ---------- The sum the code computes ----------

  /** Every second segment of the window w, from the one that ends at w[k] backwards. */
  ghost function Segments(F: nat -> real, w: seq<nat>, k: int): real
    requires k < |w|
    decreases k
  {
    if k <= 0 then 0.0 else F(w[k]) - F(w[k - 1]) + Segments(F, w, k - 2)
  }

  ghost predicate Tail(w: seq<nat>, log: seq<nat>) {
    |w| <= |log| && forall k :: 0 <= k < |w| ==> w[k] == log[|log| - |w| + k]
  }

  /** The two segments up to w[k]: only the later one counts towards the state that holds during it. */
  lemma TwoSegments(F: nat -> real, initial: LinkState, log: seq<nat>, w: seq<nat>, k: nat, s: LinkState)
    requires Sorted(log) && Tail(w, log) && 2 <= k < |w|
    requires s == StateAfter(initial, |log| - |w| + k)
    ensures w[0] <= w[k - 2] <= w[k - 1] <= w[k]
    ensures TimeIn(F, initial, log, s, w[0], w[k]) ==
            TimeIn(F, initial, log, s, w[0], w[k - 2]) + F(w[k]) - F(w[k - 1])
  {
    var d := |log| - |w|;
    assert log[d] == w[0] && log[d + k - 2] == w[k - 2] && log[d + k - 1] == w[k - 1] && log[d + k] == w[k];
    TimeInSegment(F, initial, log, s, d + k, w[k - 1], w[k]);
    TimeInSegment(F, initial, log, s, d + k - 1, w[k - 2], w[k - 1]);
    TimeInSplits(F, initial, log, s, w[0], w[k - 2], w[k - 1]);
    TimeInSplits(F, initial, log, s, w[0], w[k - 1], w[k]);
  }

  /** Alternate segments, back from w[k], are exactly the time spent in the state that holds just before w[k]. */
  lemma {:induction false} SegmentsAreTime(F: nat -> real, initial: LinkState, log: seq<nat>, w: seq<nat>, k: nat,
            s: LinkState)
    requires Sorted(log) && Tail(w, log) && k < |w|
    requires s == StateAfter(initial, |log| - |w| + k)
    ensures w[0] <= w[k] && Segments(F, w, k) == TimeIn(F, initial, log, s, w[0], w[k])
    decreases k
  {
    if k >= 2 {
      SegmentsAreTime(F, initial, log, w, k - 2, s);
      TwoSegments(F, initial, log, w, k, s);
    } else if k == 1 {
      TimeInSegment(F, initial, log, s, |log| - |w| + 1, w[0], w[1]);
    }
  }

  /** The sum of the current segment and every second one before it. */
  ghost function CurrentSum(F: nat -> real, w: seq<nat>, now: nat): real
    requires |w| > 0
  {
    F(now) - F(w[|w| - 1]) + Segments(F, w, |w| - 2)
  }

  lemma CurrentSumIsTime(F: nat -> real, initial: LinkState, log: seq<nat>, w: seq<nat>, now: nat)
    requires Sorted(log) && Tail(w, log) && |w| > 0 && w[|w| - 1] <= now
    ensures w[0] <= now
    ensures CurrentSum(F, w, now) == TimeIn(F, initial, log, StateAfter(initial, |log|), w[0], now)
  {
    var n, s := |w|, StateAfter(initial, |log|);
    TimeInSegment(F, initial, log, s, |log|, w[n - 1], now);
    if n >= 2 {
      SegmentsAreTime(F, initial, log, w, n - 2, s);
      TimeInSegment(F, initial, log, s, |log| - 1, w[n - 2], w[n - 1]);
      TimeInSplits(F, initial, log, s, w[0], w[n - 2], w[n - 1]);
      TimeInSplits(F, initial, log, s, w[0], w[n - 1], now);
    }
  }

  /** What the code divides: the current state's sum, or its complement when the link is down, is the time up. */
  lemma CurrentSumGivesUptime(F: nat -> real, initial: LinkState, log: seq<nat>, w: seq<nat>, now: nat)
    requires Sorted(log) && Tail(w, log) && |w| > 0 && w[|w| - 1] <= now
    ensures w[0] <= now
    ensures TimeIn(F, initial, log, Up, w[0], now) ==
            if StateAfter(initial, |log|) == Up then CurrentSum(F, w, now) else F(now) - F(w[0]) - CurrentSum(F, w, now)
  {
    CurrentSumIsTime(F, initial, log, w, now);
    UpAndDown(F, initial, log, w[0], now);
  }

  // ---------- The circular buffer ----------

  /** Plain weighting: a millisecond counts one. */
  function Plain(t: nat): real { t as real }

  /** Plain weighting counts the milliseconds in the state. */
  lemma {:induction false} PlainCounts(initial: LinkState, log: seq<nat>, s: LinkState, a: nat, b: nat)
    ensures TimeIn(Plain, initial, log, s, a, b) == |Moments(initial, log, s, a, b)| as real
    decreases b
  {
    if a < b {
      PlainCounts(initial, log, s, a, b - 1);
      OneMoreMoment(initial, log, s, a, b);
    } else {
      assert Moments(initial, log, s, a, b) == {};
    }
  }

  lemma OneMoreMoment(initial: LinkState, log: seq<nat>, s: LinkState, a: nat, b: nat)
    requires a < b
    ensures |Moments(initial, log, s, a, b)| ==
            |Moments(initial, log, s, a, b - 1)| + if StateAt(initial, log, b - 1) == s then 1 else 0
  {
    var before := Moments(initial, log, s, a, b - 1);
    assert b - 1 !in before;
    assert Moments(initial, log, s, a, b) == before + if StateAt(initial, log, b - 1) == s then {b - 1} else {};
  }

  /** The milliseconds from a on and before b in which the link is in state s. */
  ghost function Moments(initial: LinkState, log: seq<nat>, s: LinkState, a: nat, b: nat): set<int> {
    set x: int | a <= x < b && StateAt(initial, log, x) == s
  }

  /** So the plain average is the number of milliseconds up over the number of milliseconds in the window. */
  lemma AverageCounts(initial: LinkState, log: seq<nat>, now: nat)
    requires |log| > 0 && Retained(log)[0] < now
    ensures Plain(now) != Plain(Retained(log)[0])
    ensures Uptime(Plain, initial, log, now) ==
            |Moments(initial, log, Up, Retained(log)[0], now)| as real / (now - Retained(log)[0]) as real
  {
    PlainCounts(initial, log, Up, Retained(log)[0], now);
  }

  /** Exponential falloff relative to `now`; E stands for exp(t / falloff), so this is exp((t - now) / falloff), and
   * differences of it are the code's `integral_between`. */
  function Decayed(E: nat -> Positive, now: nat, t: nat): real { E(t) / E(now) }

  function Weight(E: nat -> Positive): nat -> real { (t: nat) => E(t) as real }

  /** `pow(x, power)` at the default power of 4. */
  function Pow4(x: real): real { x * x * x * x }

  /**
   An index reduced as the code does it: `size_t` arithmetic wraps below zero before the remainder is taken.
   Because the size divides 2^64, an index that falls below slot 0 goes on from the last slot.
   */
  method WrappedIndex(x: int) returns (i: nat)
    requires -64 <= x < 64
    ensures i == if x < 0 then x + TS_SIZE else x
  {
    i := (x % SIZE_T) % TS_SIZE;
  }

  /** The slot of the k-th oldest retained toggle. */
  ghost function Slot(front: nat, full: bool, k: int): int {
    if !full then k else if front + k < TS_SIZE then front + k else front + k - TS_SIZE
  }

  /** The slots hold the window w, oldest first from `front` once the buffer is full. */
  ghost predicate Holds(slots: seq<nat>, front: nat, full: bool, w: seq<nat>)
    requires |slots| == TS_SIZE
  {
    && (if full then front < TS_SIZE && |w| == TS_SIZE else front == |w| < TS_SIZE)
    && forall k :: 0 <= k < |w| ==> slots[Slot(front, full, k)] == w[k]
  }

  /** The window after one more toggle. */
  ghost function Push(w: seq<nat>, ms: nat): seq<nat> {
    if |w| < TS_SIZE then w + [ms] else w[1..] + [ms]
  }

  lemma RetainedPush(log: seq<nat>, ms: nat)
    ensures Retained(log + [ms]) == Push(Retained(log), ms)
  {
  }

  lemma SortedAppend(log: seq<nat>, ms: nat)
    requires Sorted(log) && forall k :: 0 <= k < |log| ==> log[k] <= ms
    ensures Sorted(log + [ms])
  {
  }

  lemma HoldsNext(slots: seq<nat>, front: nat, full: bool, w: seq<nat>, ms: nat)
    requires |slots| == TS_SIZE && Holds(slots, front, full, w)
    ensures Holds(slots[front := ms], if front + 1 == TS_SIZE then 0 else front + 1,
                  full || front + 1 == TS_SIZE, Push(w, ms))
  {
  }

  class LSTimeSeries {
    const timestamps: array<nat>
    var front: nat
    var nStates: nat
    var full: bool
    var currLinkState: LinkState

    // every toggle so far, and the state before the first
    ghost var log: seq<nat>
    ghost const initial: LinkState

    /** The buffer holds the window w. */
    ghost predicate Buffered(w: seq<nat>)
      reads this, timestamps
    {
      timestamps.Length == TS_SIZE && nStates == |w| && Holds(timestamps[..], front, full, w)
    }

    ghost predicate Valid()
      reads this, timestamps
    {
      Buffered(Retained(log)) && currLinkState == StateAfter(initial, |log|) && Sorted(log)
    }

    /** `ts_init`: kickstarted in the opposite state, then toggled into the given one. */
    constructor (currLinkState: LinkState, ms: nat)
      ensures Valid() && fresh(timestamps)
      ensures this.currLinkState == currLinkState && log == [ms]
    {
      this.currLinkState := Toggle(currLinkState);
      initial := Toggle(currLinkState);
      front, nStates, full := 0, 0, false;
      timestamps := new nat[TS_SIZE](_ => 0);
      log := [];
      new;
      ToggleState(ms);
      assert log == [ms];
    }

    /** The new time overwrites the oldest one once the buffer is full. */
    method Record(ms: nat, ghost w: seq<nat>)
      requires Buffered(w)
      modifies this`front, this`nStates, this`full, timestamps
      ensures Buffered(Push(w, ms))
    {
      HoldsNext(timestamps[..], front, full, w, ms);
      timestamps[front] := ms;
      front := front + 1;
      if !full {
        nStates := nStates + 1;
      }
      if front == TS_SIZE {
        full := true;
        front := 0;
      }
    }

    /** `ts_toggle_state` */
    method ToggleState(ms: nat)
      requires Valid() && forall k :: 0 <= k < |log| ==> log[k] <= ms
      modifies this, timestamps
      ensures Valid() && log == old(log) + [ms]
      ensures currLinkState == Toggle(old(currLinkState))
    {
      RetainedPush(log, ms);
      SortedAppend(log, ms);
      currLinkState := Toggle(currLinkState);
      Record(ms, Retained(log));
      log := log + [ms];
    }

    /** Index of the newest time: `(front - 1) % TS_SIZE` in wrapping `size_t` arithmetic. */
    method FirstIdx(ghost w: seq<nat>) returns (first: nat)
      requires Buffered(w) && |w| > 0
      ensures first == Slot(front, full, |w| - 1)
    {
      first := WrappedIndex(front - 1);
    }

    /** Index of the oldest time. */
    method LastIdx(ghost w: seq<nat>) returns (i: nat)
      requires Buffered(w) && |w| > 0
      ensures i == Slot(front, full, 0) < TS_SIZE
    {
      i := 0;
      if full {
        i := WrappedIndex(front);
      }
    }

    /** The time `back` toggles before the newest, which is at index `first`. */
    method TimeBack(first: nat, back: nat, ghost w: seq<nat>) returns (t: nat)
      requires Buffered(w) && first == Slot(front, full, |w| - 1) && back < |w|
      ensures t == w[|w| - 1 - back]
    {
      var i := WrappedIndex(first - back);
      assert i == Slot(front, full, |w| - 1 - back);
      t := timestamps[i];
    }

    /** The loop that both averages share: steps back two toggles at a time. */
    method SumSegments(F: nat -> real, now: nat, ghost w: seq<nat>) returns (summation: real)
      requires Buffered(w) && |w| > 0
      ensures summation == CurrentSum(F, w, now)
    {
      var first := FirstIdx(w);
      var newest := TimeBack(first, 0, w);
      summation := F(now) - F(newest);
      var i: int := 0;
      while i > 2 - nStates
        invariant i <= 0
        invariant summation + Segments(F, w, |w| - 2 + i) == CurrentSum(F, w, now)
        decreases i + |w|
      {
        var left := TimeBack(first, 2 - i, w);
        var right := TimeBack(first, 1 - i, w);
        summation := summation + (F(right) - F(left));
        i := i - 2;
      }
    }

    /** The clock has not run backwards and has moved past the oldest retained toggle. */
    ghost predicate ClockAhead(now: nat)
      reads this
    {
      && |log| > 0 && log[|log| - 1] <= now
      && (|log| > 1 ==> Retained(log)[0] < now)
    }

    /**
     The computation that both averages share, F being the weight of the time before a moment:
     the code writes it out once with plain differences and once with `integral_between`.
     */
    method UpFraction(F: nat -> real, now: nat) returns (uptime: real)
      requires Valid() && ClockAhead(now) && |log| > 1 && StrictlyIncreasing(F)
      ensures F(now) != F(Retained(log)[0]) && uptime == Uptime(F, initial, log, now)
    {
      WindowUptime(F, initial, log, now);
      var last := LastIdx(Retained(log));
      var total := F(now) - F(timestamps[last]);
      var summation := SumSegments(F, now, Retained(log));
      if currLinkState == Down {
        summation := total - summation;
      }
      uptime := summation / total;
    }

    method AverageUptime(now: nat) returns (uptime: real)
      requires Valid() && ClockAhead(now)
      ensures Retained(log)[0] < now ==> uptime == Uptime(Plain, initial, log, now)
      ensures Retained(log)[0] == now ==> uptime == if currLinkState == Up then 1.0 else 0.0
      ensures 0.0 <= uptime <= 1.0
    {
      if nStates == 1 {
        if log[0] < now { UptimeOfOneState(Plain, initial, log, now); }
        return StateToBool(currLinkState);
      }
      UptimeInUnitInterval(Plain, initial, log, now);
      uptime := UpFraction(Plain, now);
    }

    method WeightedAverageUptime(E: nat -> Positive, now: nat) returns (uptime: real)
      requires Valid() && ClockAhead(now) && Growing(E)
      ensures uptime == WeightedUptime(E, initial, log, now)
      ensures 0.0 <= uptime <= 1.0
      ensures Retained(log)[0] == now ==> uptime == if currLinkState == Up then 1.0 else 0.0
    {
      WeightedInUnitInterval(E, initial, log, now);
      if nStates == 1 {
        return StateToBool(currLinkState);
      }
      var F := (t: nat) => Decayed(E, now, t);
      DecayIsRelative(E, initial, log, now, F);
      var fraction := UpFraction(F, now);
      uptime := Pow4(fraction);
    }

    /** The metric of the link: 1 while it is up, and the scarcer its recent uptime the larger while it is down. */
    method ComputeMetric(E: nat -> Positive, now: nat) returns (metric: real)
      requires Valid() && |log| > 0 && Growing(E)
      requires currLinkState == Down ==> ClockAhead(now)
      ensures metric == Metric(E, initial, log, now)
      ensures 0.0 < metric <= 10000.0
      ensures currLinkState == Up ==> metric == 1.0
    {
      if currLinkState == Up {
        return 1.0;
      }
      var uptime := WeightedAverageUptime(E, now);
      metric := 1.0 / (uptime + 0.0001);
      InverseBounds(uptime);
    }
  }

  // ---------- The averages and the metric as functions of the toggles alone ----------

  ghost predicate Growing(E: nat -> Positive) {
    forall x: nat, y: nat :: x < y ==> E(x) < E(y)
  }

  /** The fraction of the retained window spent up, weighted by E and raised to the fourth power. */
  ghost function WeightedUptime(E: nat -> Positive, initial: LinkState, log: seq<nat>, now: nat): real
    requires |log| > 0 && Growing(E) && (|log| > 1 ==> Retained(log)[0] < now)
  {
    if |log| == 1 then StateToBool(StateAfter(initial, 1))
    else
      assert E(Retained(log)[0]) < E(now);
      Pow4(Uptime(Weight(E), initial, log, now))
  }

  ghost function Metric(E: nat -> Positive, initial: LinkState, log: seq<nat>, now: nat): real
    requires |log| > 0 && Growing(E)
    requires StateAfter(initial, |log|) == Down && |log| > 1 ==> Retained(log)[0] < now
  {
    if StateAfter(initial, |log|) == Up then 1.0
    else
      WeightedInUnitInterval(E, initial, log, now);
      1.0 / (WeightedUptime(E, initial, log, now) + 0.0001)
  }

  /** A link with one state has the fraction that the definition gives, which is all or nothing. */
  lemma UptimeOfOneState(F: nat -> real, initial: LinkState, log: seq<nat>, now: nat)
    requires StrictlyIncreasing(F) && |log| == 1 && log[0] < now
    ensures F(now) != F(Retained(log)[0])
    ensures Uptime(F, initial, log, now) == if StateAfter(initial, 1) == Up then 1.0 else 0.0
    ensures Uptime(F, initial, log, now) == StateToBool(StateAfter(initial, 1))
  {
    assert F(log[0]) < F(now);
    TimeInSegment(F, initial, log, Up, 1, log[0], now);
    QuotientIs(TimeIn(F, initial, log, Up, log[0], now), F(now) - F(log[0]),
               if StateAfter(initial, 1) == Up then 1.0 else 0.0);
  }

  lemma {:induction false} SameWeights(F: nat -> real, G: nat -> real, initial: LinkState, log: seq<nat>, s: LinkState,
                                       a: nat, b: nat)
    requires forall t: nat :: F(t) == G(t)
    ensures TimeIn(F, initial, log, s, a, b) == TimeIn(G, initial, log, s, a, b)
    decreases b
  {
    if a < b { SameWeights(F, G, initial, log, s, a, b - 1); }
  }

  /**
   The weighted average and the metric written out: where u is the share of up time in the retained window, each moment
   weighted by E, the average is the fourth power of u, and the metric of a link that is down its inverse but for 0.0001.
   */
  lemma MetricWrittenOut(E: nat -> Positive, F: nat -> real, initial: LinkState, log: seq<nat>, now: nat, u: real)
    requires Growing(E) && Sorted(log) && |log| > 0 && Retained(log)[0] < now && forall t: nat :: F(t) == E(t)
    requires E(now) != E(Retained(log)[0])
    requires u == TimeIn(F, initial, log, Up, Retained(log)[0], now) / (E(now) - E(Retained(log)[0]))
    ensures WeightedUptime(E, initial, log, now) == u * u * u * u
    ensures StateAfter(initial, |log|) == Down ==>
              Metric(E, initial, log, now) * (u * u * u * u + 0.0001) == 1.0
  {
    SameWeights(F, Weight(E), initial, log, Up, Retained(log)[0], now);
    WeightedIs(E, initial, log, now, u);
    if StateAfter(initial, |log|) == Down { MetricIsInverse(E, initial, log, now, u * u * u * u); }
  }

  lemma WeightedIs(E: nat -> Positive, initial: LinkState, log: seq<nat>, now: nat, u: real)
    requires Growing(E) && |log| > 0 && Retained(log)[0] < now
    requires E(now) != E(Retained(log)[0]) && u == Uptime(Weight(E), initial, log, now)
    ensures WeightedUptime(E, initial, log, now) == u * u * u * u
    ensures 0.0 <= WeightedUptime(E, initial, log, now)
  {
    if |log| == 1 { UptimeOfOneState(Weight(E), initial, log, now); }
    WeightedInUnitInterval(E, initial, log, now);
  }

  lemma MetricIsInverse(E: nat -> Positive, initial: LinkState, log: seq<nat>, now: nat, x: real)
    requires Growing(E) && |log| > 0 && (|log| > 1 ==> Retained(log)[0] < now)
    requires StateAfter(initial, |log|) == Down && x == WeightedUptime(E, initial, log, now) >= 0.0
    ensures Metric(E, initial, log, now) * (x + 0.0001) == 1.0
  {
    InverseTimes(x);
  }

  lemma QuotientIs(a: real, b: real, q: real)
    requires q * b == a && b != 0.0
    ensures a / b == q
  {
  }

  lemma InverseTimes(x: real)
    requires 0.0 <= x
    ensures 1.0 / (x + 0.0001) * (x + 0.0001) == 1.0
  {
  }

  /** A link that has never been up has the greatest metric, at any time. */
  lemma NeverUpIsDearest(E: nat -> Positive, initial: LinkState, log: seq<nat>, now: nat)
    requires Growing(E) && |log| == 1 && StateAfter(initial, 1) == Down
    ensures Metric(E, initial, log, now) == 10000.0
  {
  }

  lemma FourthPower(x: real, y: real)
    requires 0.0 <= x <= y <= 1.0
    ensures 0.0 <= Pow4(x) <= Pow4(y) <= 1.0
  {
    SquareGrows(x, y);
    SquareGrows(x * x, y * y);
    SquareGrows(y, 1.0);
    SquareGrows(y * y, 1.0);
    assert x * x * x * x == (x * x) * (x * x) && y * y * y * y == (y * y) * (y * y);
  }

  lemma SquareGrows(x: real, y: real)
    requires 0.0 <= x <= y
    ensures 0.0 <= x * x <= y * y
  {
    assert x * x <= x * y <= y * y;
  }

  lemma InverseBounds(x: real)
    requires 0.0 <= x <= 1.0
    ensures 0.0 < 1.0 / (x + 0.0001) <= 10000.0
  {
  }

  lemma WeightedInUnitInterval(E: nat -> Positive, initial: LinkState, log: seq<nat>, now: nat)
    requires |log| > 0 && Growing(E) && (|log| > 1 ==> Retained(log)[0] < now)
    ensures 0.0 <= WeightedUptime(E, initial, log, now) <= 1.0
  {
    if |log| > 1 {
      UptimeInUnitInterval(Weight(E), initial, log, now);
      FourthPower(Uptime(Weight(E), initial, log, now), 1.0);
    }
  }

  /** The quotient the code forms is the ideal fraction. */
  lemma WindowUptime(F: nat -> real, initial: LinkState, log: seq<nat>, now: nat)
    requires StrictlyIncreasing(F) && Sorted(log) && |log| > 0 && log[|log| - 1] <= now && Retained(log)[0] < now
    ensures F(Retained(log)[0]) < F(now) && 0.0 <= Uptime(F, initial, log, now) <= 1.0
    ensures var w := Retained(log); var total := F(now) - F(w[0]);
            Uptime(F, initial, log, now) ==
            (if StateAfter(initial, |log|) == Up then CurrentSum(F, w, now) else total - CurrentSum(F, w, now)) / total
  {
    UptimeInUnitInterval(F, initial, log, now);
    UptimeOfWindow(F, initial, log, Retained(log), now, F(now) - F(Retained(log)[0]));
  }

  lemma UptimeOfWindow(F: nat -> real, initial: LinkState, log: seq<nat>, w: seq<nat>, now: nat, total: real)
    requires Sorted(log) && |log| > 0 && w == Retained(log) && log[|log| - 1] <= now
    requires total == F(now) - F(w[0]) > 0.0
    ensures Uptime(F, initial, log, now) ==
            (if StateAfter(initial, |log|) == Up then CurrentSum(F, w, now) else total - CurrentSum(F, w, now)) / total
  {
    RetainedIsTail(log);
    CurrentSumGivesUptime(F, initial, log, w, now);
    UptimeIs(F, initial, log, now, w[0],
             if StateAfter(initial, |log|) == Up then CurrentSum(F, w, now) else total - CurrentSum(F, w, now), total);
  }

  lemma UptimeIs(F: nat -> real, initial: LinkState, log: seq<nat>, now: nat, from: nat, up: real, total: real)
    requires |log| > 0 && from == Retained(log)[0] && total == F(now) - F(from) > 0.0
    requires up == TimeIn(F, initial, log, Up, from, now)
    ensures Uptime(F, initial, log, now) == up / total
  {
  }

  lemma RetainedIsTail(log: seq<nat>)
    ensures Tail(Retained(log), log)
    ensures |log| > 0 ==> |Retained(log)| > 0 && Retained(log)[|Retained(log)| - 1] == log[|log| - 1]
  {
  }

  lemma {:induction false} ScaledTime(E: nat -> Positive, initial: LinkState, log: seq<nat>, s: LinkState, a: nat,
            b: nat, now: nat, F: nat -> real)
    requires forall t: nat :: F(t) == Decayed(E, now, t)
    ensures TimeIn(F, initial, log, s, a, b) == TimeIn(Weight(E), initial, log, s, a, b) / E(now)
    decreases b
  {
    if a < b {
      ScaledTime(E, initial, log, s, a, b - 1, now, F);
      var G := Weight(E);
      SumOfQuotients(G(b), -G(b - 1), E(now));
      SumOfQuotients(TimeIn(G, initial, log, s, a, b - 1), G(b) - G(b - 1), E(now));
    }
  }

  lemma SumOfQuotients(x: real, y: real, d: real)
    requires d > 0.0
    ensures x / d + y / d == (x + y) / d && (-y) / d == -(y / d)
  {
  }

  /** Whether the falloff is taken relative to now makes no difference to the fraction. */
  lemma DecayIsRelative(E: nat -> Positive, initial: LinkState, log: seq<nat>, now: nat, F: nat -> real)
    requires Growing(E) && |log| > 0 && Retained(log)[0] < now
    requires forall t: nat :: F(t) == Decayed(E, now, t)
    ensures StrictlyIncreasing(F)
    ensures F(now) != F(Retained(log)[0]) && E(now) != E(Retained(log)[0])
    ensures Uptime(F, initial, log, now) == Uptime(Weight(E), initial, log, now)
  {
    forall x: nat, y: nat | x < y ensures F(x) < F(y) {
      QuotientGrows(E(x), E(y), E(now));
    }
    var w0 := Retained(log)[0];
    ScaledTime(E, initial, log, Up, w0, now, now, F);
    CancelDivisor(TimeIn(Weight(E), initial, log, Up, w0, now), E(now) - E(w0), E(now));
    assert E(now) / E(now) - E(w0) / E(now) == (E(now) - E(w0)) / E(now);
  }

  lemma QuotientGrows(x: real, y: real, d: real)
    requires x < y && d > 0.0
    ensures x / d < y / d
  {
  }

  lemma CancelDivisor(a: real, b: real, d: real)
    requires b != 0.0 && d > 0.0
    ensures b / d != 0.0 && (a / d) / (b / d) == a / b
  {
    assert b / d * d == b;
  }

  /** While a link stays down its metric never decreases: the time it was up is fixed and the window grows. */
  lemma MetricDecays(E: nat -> Positive, initial: LinkState, log: seq<nat>, now: nat, later: nat)
    requires Growing(E) && Sorted(log) && |log| > 0 && StateAfter(initial, |log|) == Down
    requires log[|log| - 1] <= now <= later && (|log| > 1 ==> Retained(log)[0] < now)
    ensures Metric(E, initial, log, now) <= Metric(E, initial, log, later)
  {
    if |log| > 1 && now < later {
      var F := Weight(E);
      var w0 := Retained(log)[0];
      assert E(w0) < E(now) < E(later);
      TimeInSplits(F, initial, log, Up, w0, now, later);
      TimeInSegment(F, initial, log, Up, |log|, now, later);
      UptimeInUnitInterval(F, initial, log, now);
      UptimeInUnitInterval(F, initial, log, later);
      TimeInNonNegative(F, initial, log, Up, w0, now);
      QuotientShrinks(TimeIn(F, initial, log, Up, w0, now), E(now) - E(w0), E(later) - E(w0));
      FourthPower(Uptime(F, initial, log, later), Uptime(F, initial, log, now));
      WeightedInUnitInterval(E, initial, log, later);
      InverseShrinks(WeightedUptime(E, initial, log, later), WeightedUptime(E, initial, log, now));
    }
  }

  lemma QuotientShrinks(a: real, b: real, c: real)
    requires 0.0 <= a && 0.0 < b <= c
    ensures a / c <= a / b
  {
    assert a / b * b == a && a / c * c == a;
  }

  lemma InverseShrinks(x: real, y: real)
    requires 0.0 <= x <= y
    ensures 1.0 / (y + 0.0001) <= 1.0 / (x + 0.0001)
  {
    QuotientShrinks(1.0, x + 0.0001, y + 0.0001);
  }
}
