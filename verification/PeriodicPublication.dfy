/** Due times in 64-bit microseconds (can/src/periodic_publication.hpp) and what they mean for a
    stream of observations. */
module PeriodicPublication {
  import opened Arithmetic

  /** Subtraction of 64-bit numbers. */
  function Minus(a: u64, b: u64): u64 {
    if a >= b then a - b else a + TWO_64 - b
  }

  /** `advance_due_timestamp`, with subtraction and increment wrapping as 64-bit arithmetic does. Its
      callers ask only when a timer is due; asked early, it gives up on the stream, except for the one
      argument where the increment wraps. */
  method AdvanceDueTimestamp(nextDue: u64, period: u64, observed: u64) returns (r: u64)
    requires period > 0
    ensures nextDue <= observed ==> r == Advanced(nextDue, period, observed)
    ensures nextDue > observed ==> r == if period == 1 && nextDue == observed + 1 then nextDue else MAX_U64
  {
    var periodsToAdvance := (Minus(observed, nextDue) / period + 1) % TWO_64;
    var maximumIncrement := MAX_U64 - nextDue;
    DivAtLeast(maximumIncrement, periodsToAdvance, period);
    if nextDue <= observed {
      IncrementIs(nextDue, period, observed);
    } else {
      EarlyIncrement(nextDue, period, observed);
    }
    if periodsToAdvance > maximumIncrement / period {
      return MAX_U64;
    }
    r := nextDue + periodsToAdvance * period;
  }

  /** The least value after `observed` in step with `nextDue`, in unbounded arithmetic. */
  function NextInStep(nextDue: nat, period: nat, observed: nat): (r: nat)
    requires period > 0 && nextDue <= observed
  {
    nextDue + ((observed - nextDue) / period + 1) * period
  }

  /** The one argument whose increment wraps. */
  predicate Wraps(nextDue: nat, period: nat, observed: nat) {
    nextDue == 0 && period == 1 && observed == MAX_U64
  }

  function Advanced(nextDue: u64, period: u64, observed: u64): u64
    requires period > 0 && nextDue <= observed
  {
    if Wraps(nextDue, period, observed) then 0
    else if NextInStep(nextDue, period, observed) <= MAX_U64 then NextInStep(nextDue, period, observed)
    else MAX_U64
  }

  lemma {:induction false} IncrementIs(nextDue: u64, period: u64, observed: u64)
    requires period > 0 && nextDue <= observed
    ensures ((observed - nextDue) / period + 1) % TWO_64 ==
            if Wraps(nextDue, period, observed) then 0 else (observed - nextDue) / period + 1
  {
    var q := (observed - nextDue) / period;
    DivMod(observed - nextDue, period);
    if q != MAX_U64 {
      DivAtLeast(observed - nextDue, MAX_U64, period);
      MulKeepsOrder(1, period, MAX_U64);
      assert q < MAX_U64;
      DivModUnique(q + 1, 0, q + 1, TWO_64);
    }
  }

  lemma {:induction false} EarlyIncrement(nextDue: u64, period: u64, observed: u64)
    requires period > 0 && observed < nextDue
    ensures var periods := (Minus(observed, nextDue) / period + 1) % TWO_64;
            if period == 1 && nextDue == observed + 1 then periods == 0 else periods > (MAX_U64 - nextDue) / period
  {
    var d := Minus(observed, nextDue);
    var q := d / period;
    DivMod(d, period);
    DivKeepsOrder(MAX_U64 - nextDue, d, period);
    if q != MAX_U64 {
      DivAtLeast(d, MAX_U64, period);
      MulKeepsOrder(1, period, MAX_U64);
      DivModUnique(q + 1, 0, q + 1, TWO_64);
    } else {
      DivAtLeast(d, q, period);
      OnlyByOne(d, period);
    }
  }

  lemma {:induction false} OnlyByOne(d: u64, period: u64)
    requires period > 0 && MAX_U64 * period <= d
    ensures period == 1 && d == MAX_U64
  {
  }

  /** Two moments are in step when a whole number of periods lies between them. */
  predicate InStep(nextDue: nat, period: nat, t: nat)
    requires period > 0
  {
    t >= nextDue && (t - nextDue) % period == 0
  }

  lemma {:induction false} NextInStepIsLeast(nextDue: nat, period: nat, observed: nat, t: nat)
    requires period > 0 && nextDue <= observed
    ensures var r := NextInStep(nextDue, period, observed);
            && observed < r && InStep(nextDue, period, r)
            && (InStep(nextDue, period, t) && observed < t ==> r <= t)
  {
    var q := (observed - nextDue) / period;
    DivMod(observed - nextDue, period);
    var r := NextInStep(nextDue, period, observed);
    assert (q + 1) * period == q * period + period;
    DivModUnique(r - nextDue, q + 1, 0, period);
    if InStep(nextDue, period, t) && observed < t {
      DivMod(t - nextDue, period);
      MulReflectsOrder(q, (t - nextDue) / period, period);
      MulKeepsOrder(q + 1, (t - nextDue) / period, period);
    }
  }

  /** What the advanced due time promises: the least 64-bit moment after the observation that is in
      step, or the last moment there is when none fits. */
  ghost predicate IsNextDue(r: u64, nextDue: u64, period: u64, observed: u64)
    requires period > 0
  {
    if exists t: u64 :: observed < t && InStep(nextDue, period, t)
    then observed < r && InStep(nextDue, period, r)
         && forall t: u64 :: observed < t && InStep(nextDue, period, t) ==> r <= t
    else r == MAX_U64
  }

  /** The promise is kept for every argument but one: stepping by 1 from 0 at the last moment, where
      the increment wraps and the due time stays 0. */
  lemma {:induction false} AdvanceIsExact(nextDue: u64, period: u64, observed: u64)
    requires period > 0 && nextDue <= observed
    ensures IsNextDue(Advanced(nextDue, period, observed), nextDue, period, observed) <==>
            !Wraps(nextDue, period, observed)
  {
    var r := NextInStep(nextDue, period, observed);
    NextInStepIsLeast(nextDue, period, observed, r);
    forall t: u64 | observed < t && InStep(nextDue, period, t)
      ensures r <= t
    {
      NextInStepIsLeast(nextDue, period, observed, t);
    }
  }

  // ---- a stream over observations ----

  predicate Nondecreasing(ts: seq<u64>) {
    forall i, j :: 0 <= i <= j < |ts| ==> ts[i] <= ts[j]
  }

  /** The timer after the observations `ts`, from a reset. */
  function DueAfter(period: u64, ts: seq<u64>): u64
    requires period > 0
  {
    if ts == [] then 0
    else
      var due := DueAfter(period, ts[..|ts| - 1]);
      var t := ts[|ts| - 1];
      if t >= due then Advanced(due, period, t) else due
  }

  /** Whether the last observation publishes. */
  predicate Publishes(period: u64, ts: seq<u64>)
    requires period > 0 && |ts| > 0
  {
    ts[|ts| - 1] >= DueAfter(period, ts[..|ts| - 1])
  }

  function Published(period: u64, ts: seq<u64>): nat
    requires period > 0
  {
    if ts == [] then 0 else Published(period, ts[..|ts| - 1]) + if Publishes(period, ts) then 1 else 0
  }

  /** Multiples of the period in `(previous, t]`. */
  predicate CrossesGrid(period: nat, previous: nat, t: nat)
    requires period > 0
  {
    previous / period < t / period
  }

  /** The due time after at least one observation: the next multiple of the period, or the last moment
      when that does not fit. */
  function NextMultiple(period: nat, t: nat): nat
    requires period > 0
  {
    (t / period + 1) * period
  }

  function Saturated(n: nat): u64 {
    if n <= MAX_U64 then n else MAX_U64
  }

  lemma {:induction false} Distributes(a: nat, b: nat, p: nat)
    ensures (a + b) * p == a * p + b * p
  {
  }

  lemma {:induction false} NextInStepIsNextMultiple(due: nat, period: nat, t: nat)
    requires period > 0 && due <= t && due % period == 0
    ensures NextInStep(due, period, t) == NextMultiple(period, t)
  {
    var d, q, r := due / period, (t - due) / period, (t - due) % period;
    DivMod(due, period);
    DivMod(t - due, period);
    Distributes(d, q, period);
    DivModUnique(t, d + q, r, period);
    Distributes(d, q + 1, period);
  }

  lemma {:induction false} AdvanceToMultiple(due: u64, period: u64, t: u64)
    requires period > 0 && due <= t && due % period == 0 && !Wraps(due, period, t)
    ensures Advanced(due, period, t) == Saturated(NextMultiple(period, t))
  {
    hide NextInStep, NextMultiple;
    NextInStepIsNextMultiple(due, period, t);
  }

  lemma {:induction false} NextMultipleIsNext(period: nat, t: nat)
    requires period > 0
    ensures t < NextMultiple(period, t) && NextMultiple(period, t) % period == 0
  {
    DivMod(t, period);
    assert (t / period + 1) * period == (t / period) * period + period;
    DivModUnique(NextMultiple(period, t), t / period + 1, 0, period);
  }

  lemma {:induction false} ReachesMultiple(period: nat, previous: nat, t: nat)
    requires period > 0
    ensures t >= NextMultiple(period, previous) <==> CrossesGrid(period, previous, t)
  {
    DivAtLeast(t, previous / period + 1, period);
  }

  /** No period boundary is left between the observation and the end of time. */
  predicate EndsTime(period: nat, t: nat)
    requires period > 0
  {
    NextMultiple(period, t) > MAX_U64
  }

  /** Once observed, the timer always stands at the next multiple of its period after the newest
      observation, or at the last moment. */
  lemma {:induction false} TimerIsExact(period: u64, ts: seq<u64>)
    requires period > 0 && Nondecreasing(ts) && ts != [] && !Wraps(0, period, ts[0])
    ensures DueAfter(period, ts) == Saturated(NextMultiple(period, ts[|ts| - 1]))
  {
    hide Advanced, NextMultiple;
    var n := |ts| - 1;
    var t := ts[n];
    if n == 0 {
      assert ts[..0] == [];
      AdvanceToMultiple(0, period, t);
    } else {
      var previous := ts[n - 1];
      TimerIsExact(period, ts[..n]);
      ReachesMultiple(period, previous, t);
      NextMultipleIsNext(period, previous);
      NextMultipleIsNext(period, t);
      if NextMultiple(period, previous) > MAX_U64 {
        LaterMultiple(period, previous, t);
        if t == MAX_U64 {
          LastMomentStays(period);
        }
      } else if t >= NextMultiple(period, previous) {
        AdvanceToMultiple(NextMultiple(period, previous), period, t);
      } else {
        SameMultiple(period, previous, t);
      }
    }
  }

  lemma {:induction false} LaterMultiple(period: nat, previous: nat, t: nat)
    requires period > 0 && previous <= t
    ensures NextMultiple(period, previous) <= NextMultiple(period, t)
  {
    DivKeepsOrder(previous, t, period);
    MulKeepsOrder(previous / period + 1, t / period + 1, period);
  }

  lemma {:induction false} SameMultiple(period: nat, previous: nat, t: nat)
    requires period > 0 && previous <= t < NextMultiple(period, previous)
    ensures NextMultiple(period, previous) == NextMultiple(period, t)
  {
    DivKeepsOrder(previous, t, period);
    ReachesMultiple(period, previous, t);
  }

  lemma {:induction false} LastMomentStays(period: u64)
    requires period > 0
    ensures Advanced(MAX_U64, period, MAX_U64) == MAX_U64
  {
    DivModUnique(0, 0, 0, period);
  }

  /** An observation publishes when it is the first since the reset, or when a multiple of the period
      lies after the previous observation and not after this one; beyond the last multiple that fits,
      exactly the last moment of time publishes too. */
  lemma {:induction false} PublishesAtGridCrossings(period: u64, ts: seq<u64>)
    requires period > 0 && Nondecreasing(ts) && |ts| > 1 && !Wraps(0, period, ts[0])
    ensures var previous, t := ts[|ts| - 2], ts[|ts| - 1];
            Publishes(period, ts) <==> CrossesGrid(period, previous, t) || (EndsTime(period, previous) && t == MAX_U64)
  {
    hide NextMultiple, DueAfter, CrossesGrid;
    var n := |ts| - 1;
    TimerIsExact(period, ts[..n]);
    ReachesMultiple(period, ts[n - 1], ts[n]);
  }

  lemma {:induction false} FirstPublishes(period: u64, t: u64)
    requires period > 0
    ensures Publishes(period, [t])
  {
    assert [t][..0] == [];
  }

  // ---- frame counts of a fixed-step run ----

  /** The observations of a run of `n` ticks. */
  function Ticks(n: nat, step: nat): (ts: seq<u64>)
    requires n * step <= MAX_U64
    ensures |ts| == n + 1
    ensures ts[0] == 0
    ensures n > 0 ==> (n - 1) * step <= n * step && ts[..n] == Ticks(n - 1, step) && ts[n - 1] == (n - 1) * step
    ensures ts[n] == n * step
  {
    if n == 0 then [0]
    else
      MulKeepsOrder(n - 1, n, step);
      Ticks(n - 1, step) + [n * step]
  }

  lemma {:induction false} TicksAscend(n: nat, step: nat)
    requires n * step <= MAX_U64
    ensures Nondecreasing(Ticks(n, step))
    ensures forall i :: 0 <= i <= n ==> Ticks(n, step)[i] <= n * step
  {
    if n > 0 {
      MulKeepsOrder(n - 1, n, step);
      TicksAscend(n - 1, step);
    }
  }

  /** One frame per period, or one per observation when the step is longer than the period. */
  function ExpectedFrames(n: nat, step: nat, period: nat): nat
    requires period > 0
  {
    if step <= period then n * step / period + 1 else n + 1
  }

  lemma {:induction false} ExpectedGrows(n: nat, step: nat, period: nat)
    requires period > 0 && n > 0
    ensures (n - 1) * step <= n * step
    ensures ExpectedFrames(n, step, period) ==
            ExpectedFrames(n - 1, step, period) + if CrossesGrid(period, (n - 1) * step, n * step) then 1 else 0
  {
    var previous, t := (n - 1) * step, n * step;
    assert t == previous + step;
    DivMod(previous, period);
    DivMod(t, period);
    if step <= period {
      DivKeepsOrder(previous, t, period);
      DivAtLeast(t, previous / period + 2, period);
      assert (previous / period + 2) * period == (previous / period) * period + 2 * period;
    } else {
      DivAtLeast(t, previous / period + 1, period);
      assert (previous / period + 1) * period == (previous / period) * period + period;
    }
  }

  /** The count is exactly one frame per period, except for the stream of a run that ends on the last
      representable moment without a period boundary in its last step: that one gets one frame more. */
  predicate ExtraFrame(n: nat, step: nat, period: nat)
    requires period > 0
  {
    n > 0 && n * step == MAX_U64 && step > 0 && MAX_U64 % period >= step
  }

  lemma {:induction false} ExtraIsUncrossed(n: nat, step: nat, period: nat)
    requires period > 0 && n > 0 && step > 0 && n * step == MAX_U64
    ensures (n - 1) * step <= MAX_U64
    ensures EndsTime(period, (n - 1) * step) && !CrossesGrid(period, (n - 1) * step, MAX_U64) <==>
            ExtraFrame(n, step, period)
  {
    var previous := (n - 1) * step;
    assert n * step == previous + step;
    DivMod(previous, period);
    DivMod(MAX_U64, period);
    var q, r := MAX_U64 / period, MAX_U64 % period;
    ReachesMultiple(period, previous, MAX_U64);
    if r >= step {
      assert previous == q * period + (r - step);
      DivModUnique(previous, q, r - step, period);
    } else {
      DivKeepsOrder(previous, MAX_U64, period);
    }
  }

  lemma {:induction false} LastTickFrames(n: nat, step: nat, period: u64)
    requires period > 0 && step > 0 && n > 0 && n * step <= MAX_U64
    ensures (n - 1) * step < n * step
    ensures Publishes(period, Ticks(n, step)) <==>
            CrossesGrid(period, (n - 1) * step, n * step) || ExtraFrame(n, step, period)
  {
    hide Publishes, EndsTime, CrossesGrid;
    assert (n - 1) * step + step == n * step;
    TicksAscend(n, step);
    PublishesAtGridCrossings(period, Ticks(n, step));
    if n * step == MAX_U64 {
      ExtraIsUncrossed(n, step, period);
    }
  }

  /** Over a run of `n` ticks of `step`, a stream of period P emits floor(n*step/P) + 1 frames when
      step <= P and n + 1 otherwise, exactly unless the run ends in an extra frame. */
  lemma {:induction false} FrameCountIsExact(n: nat, step: nat, period: u64)
    requires period > 0 && step > 0 && n * step <= MAX_U64
    ensures Published(period, Ticks(n, step)) ==
            ExpectedFrames(n, step, period) + if ExtraFrame(n, step, period) then 1 else 0
  {
    hide Publishes, ExtraFrame, CrossesGrid, ExpectedFrames;
    if n == 0 {
      FirstPublishes(period, 0);
      NoTicks(step, period);
      assert [0][..0] == [];
    } else {
      assert (n - 1) * step + step == n * step;
      FrameCountIsExact(n - 1, step, period);
      LastTickFrames(n, step, period);
      ExpectedGrows(n, step, period);
      EarlierIsNotLast(n, step, period);
      ExtraIsNotCrossed(n, step, period);
    }
  }

  /** The 10 ms stream of a run in steps of 5 us that ends on the last representable moment: one frame
      more than one per period. */
  lemma {:induction false} LongestRunHasExtraFrame()
    ensures var n := 3_689_348_814_741_910_323;
            && n * 5 == MAX_U64
            && Published(10_000, Ticks(n, 5)) == MAX_U64 / 10_000 + 2
  {
    hide Published, Ticks;
    FrameCountIsExact(3_689_348_814_741_910_323, 5, 10_000);
  }

  lemma {:induction false} NoTicks(step: nat, period: nat)
    requires period > 0
    ensures ExpectedFrames(0, step, period) == 1 && !ExtraFrame(0, step, period)
  {
    DivModUnique(0, 0, 0, period);
  }

  lemma {:induction false} EarlierIsNotLast(n: nat, step: nat, period: nat)
    requires period > 0 && step > 0 && n > 0 && n * step <= MAX_U64
    ensures !ExtraFrame(n - 1, step, period)
  {
    assert (n - 1) * step + step == n * step;
  }

  lemma {:induction false} ExtraIsNotCrossed(n: nat, step: nat, period: nat)
    requires period > 0 && step > 0 && n > 0
    ensures (n - 1) * step >= 0
    ensures ExtraFrame(n, step, period) ==> !CrossesGrid(period, (n - 1) * step, n * step)
  {
    if ExtraFrame(n, step, period) {
      ExtraIsUncrossed(n, step, period);
    }
  }
}
