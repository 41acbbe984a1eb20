/** The step-tick handler `stepperMotorTimer` as a function of its inputs: the
    mode it reads, its persistent statics (the step index and the FOLLOW
    tracker's flag, step count and home sample) and the ADC sample a FOLLOW
    tick reads. The result is the new statics and the pin write, if any. */
module MotorTick {
  import opened MachineInt
  import opened StepperMotor
  import opened CoilSequencer

  /** The statics of the step handler. */
  datatype TickState = TickState(
    index: u32,                // stepperMotorIndex
    firstCycleInFollow: bool,  // firstCycleInFollow
    stepsMoved: int,           // stepsMoved (int32_t)
    adcHome: u32)              // ADCHome[0]

  /** What a tick drives onto the stepper-motor pins. */
  datatype PinWrite = NoWrite | Write(value: int)

  datatype TickResult = TickResult(next: TickState, written: PinWrite)

  /** The statics as C initialises them: all zero, the flag set. */
  const INITIAL_TICK_STATE: TickState := TickState(0, true, 0, 0)

  /** MAX_ADC_VALUE is positive, and STEPS_PER_REVOLUTION times it fits an
      int32_t, so the product in the step computation does not overflow. */
  predicate AdcScaleOk(maxAdc: int) {
    0 < maxAdc && STEPS_PER_REVOLUTION * maxAdc <= INT32_MAX
  }

  /** The statics a run of the handler keeps: the home sample is an ADC
      sample, and the tracker never counts more than one revolution away. */
  predicate ValidTickState(s: TickState, maxAdc: int) {
    s.adcHome as int <= maxAdc
    && -(STEPS_PER_REVOLUTION as int) <= s.stepsMoved <= STEPS_PER_REVOLUTION
  }

  /** `STEPS_PER_REVOLUTION * (current - home) / MAX_ADC_VALUE` in int32_t
      arithmetic. Its sign is that of the difference, it stays within one
      revolution, and it is zero exactly inside the deadband where the
      difference is worth less than one step. */
  function StepsDesired(home: u32, current: u32, maxAdc: int): (d: int)
    requires AdcScaleOk(maxAdc) && home as int <= maxAdc && current as int <= maxAdc
    ensures -(STEPS_PER_REVOLUTION as int) <= d <= STEPS_PER_REVOLUTION
    ensures d == 0 <==> Abs(current as int - home as int) * STEPS_PER_REVOLUTION < maxAdc
    ensures d > 0 ==> current > home
    ensures d < 0 ==> current < home
    ensures Abs(d) * maxAdc <= STEPS_PER_REVOLUTION * Abs(current as int - home as int)
                              < (Abs(d) + 1) * maxAdc
  {
    var difference := SignedDifference(current, home);
    assert Abs(STEPS_PER_REVOLUTION * difference) == STEPS_PER_REVOLUTION * Abs(difference);
    QuotientWithinScale(STEPS_PER_REVOLUTION * difference, maxAdc, STEPS_PER_REVOLUTION);
    TruncDiv(STEPS_PER_REVOLUTION * difference, maxAdc)
  }

  /** The FOLLOW branch. The first FOLLOW tick ever captures the home sample
      and writes nothing; every later one takes at most one step toward the
      desired step count and writes only when it steps. */
  function FollowTick(s: TickState, sample: u32, maxAdc: int): (r: TickResult)
    requires AdcScaleOk(maxAdc) && ValidTickState(s, maxAdc) && sample as int <= maxAdc
    ensures ValidTickState(r.next, maxAdc)
    ensures !r.next.firstCycleInFollow
  {
    if s.firstCycleInFollow then
      TickResult(s.(stepsMoved := 0, adcHome := sample, firstCycleInFollow := false), NoWrite)
    else
      var desired := StepsDesired(s.adcHome, sample, maxAdc);
      if desired > s.stepsMoved then
        var i := Inc(s.index);
        TickResult(s.(index := i, stepsMoved := s.stepsMoved + 1), Write(Pattern(i)))
      else if desired < s.stepsMoved then
        var i := Dec(s.index);
        TickResult(s.(index := i, stepsMoved := s.stepsMoved - 1), Write(Pattern(i)))
      else
        TickResult(s, NoWrite)
  }

  /** One invocation of the step handler in mode `mode`. OFF and every mode
      value without a case of its own de-energise the coils. */
  function Tick(mode: nat, s: TickState, sample: u32, maxAdc: int): (r: TickResult)
    requires AdcScaleOk(maxAdc) && ValidTickState(s, maxAdc) && sample as int <= maxAdc
    ensures ValidTickState(r.next, maxAdc)
    ensures r.written.Write? ==> r.written.value in {0x0, 0xC, 0x4, 0x6, 0x2, 0x3, 0x1, 0x9, 0x8}
    ensures r.written.Write? ==> PinLevels(r.written.value) as int == r.written.value
    ensures mode != FOLLOW ==> r.written.Write?
    ensures mode in {CLOCKWISE, COUNTER_CLOCKWISE, FOLLOW} && r.written.Write?
            ==> r.written == Write(Pattern(r.next.index))
    ensures r.next.firstCycleInFollow ==> s.firstCycleInFollow
  {
    if mode == OFF then
      TickResult(s, Write(0x0))
    else if mode == CLOCKWISE then
      var i := Inc(s.index);
      TickResult(s.(index := i), Write(Pattern(i)))
    else if mode == COUNTER_CLOCKWISE then
      var i := Dec(s.index);
      TickResult(s.(index := i), Write(Pattern(i)))
    else if mode == FOLLOW then
      FollowTick(s, sample, maxAdc)
    else
      TickResult(s, Write(0x0))
  }

  /** `n` ticks in one mode with the ADC sample held fixed. */
  function Repeat(mode: nat, s: TickState, sample: u32, maxAdc: int, n: nat): (t: TickState)
    requires AdcScaleOk(maxAdc) && ValidTickState(s, maxAdc) && sample as int <= maxAdc
    ensures ValidTickState(t, maxAdc)
    decreases n
  {
    if n == 0 then s else Repeat(mode, Tick(mode, s, sample, maxAdc).next, sample, maxAdc, n - 1)
  }

  /** One step-timer interrupt: the mode current at that moment and the
      sample the ADC would return. */
  datatype TickEvent = TickEvent(mode: nat, sample: u32)

  predicate SamplesInRange(events: seq<TickEvent>, maxAdc: int) {
    forall k :: 0 <= k < |events| ==> events[k].sample as int <= maxAdc
  }

  /** A run of the handler over interrupts whose modes change in between. */
  function Run(s: TickState, events: seq<TickEvent>, maxAdc: int): (t: TickState)
    requires AdcScaleOk(maxAdc) && ValidTickState(s, maxAdc) && SamplesInRange(events, maxAdc)
    ensures ValidTickState(t, maxAdc)
    decreases |events|
  {
    if events == [] then s
    else Run(Tick(events[0].mode, s, events[0].sample, maxAdc).next, events[1..], maxAdc)
  }

  // ---------------------------------------------------------------------
  // OFF and unknown modes
  // ---------------------------------------------------------------------

  /** In OFF, and for every mode value without a case, a tick writes 0x0 and
      leaves the index and the FOLLOW tracker as they were. */
  lemma OffDeEnergises(mode: nat, s: TickState, sample: u32, maxAdc: int)
    requires AdcScaleOk(maxAdc) && ValidTickState(s, maxAdc) && sample as int <= maxAdc
    requires mode == OFF || mode >= TOTAL_STATES
    ensures Tick(mode, s, sample, maxAdc) == TickResult(s, Write(0x0))
  {
  }

  // ---------------------------------------------------------------------
  // CLOCKWISE and COUNTER_CLOCKWISE
  // ---------------------------------------------------------------------

  /** A CLOCKWISE tick writes the pattern after the current one in the cycle,
      a COUNTER_CLOCKWISE tick the pattern before it, even across the wrap of
      the unsigned index; neither touches the FOLLOW tracker. */
  lemma DirectionsTraverseOppositeWays(s: TickState, sample: u32, maxAdc: int)
    requires AdcScaleOk(maxAdc) && ValidTickState(s, maxAdc) && sample as int <= maxAdc
    ensures Tick(CLOCKWISE, s, sample, maxAdc).written
            == Write(COIL_STATES[Successor(Slot(s.index))])
    ensures Tick(COUNTER_CLOCKWISE, s, sample, maxAdc).written
            == Write(COIL_STATES[Predecessor(Slot(s.index))])
    ensures Tick(CLOCKWISE, s, sample, maxAdc).next == s.(index := Inc(s.index))
    ensures Tick(COUNTER_CLOCKWISE, s, sample, maxAdc).next == s.(index := Dec(s.index))
  {
    IncSelectsSuccessor(s.index);
    DecSelectsPredecessor(s.index);
  }

  /** `n` CLOCKWISE ticks advance the index by `n` modulo 2^32 and leave the
      rest of the statics alone. */
  lemma {:induction false} ClockwiseAdvances(s: TickState, sample: u32, maxAdc: int, n: nat)
    requires AdcScaleOk(maxAdc) && ValidTickState(s, maxAdc) && sample as int <= maxAdc
    ensures Repeat(CLOCKWISE, s, sample, maxAdc, n) == s.(index := Offset(s.index, n))
    decreases n
  {
    if n > 0 {
      var s1 := Tick(CLOCKWISE, s, sample, maxAdc).next;
      ClockwiseAdvances(s1, sample, maxAdc, n - 1);
      OffsetAdd(s.index, 1, n - 1);
    }
  }

  /** `n` COUNTER_CLOCKWISE ticks move the index back by `n` modulo 2^32 and
      leave the rest of the statics alone. */
  lemma {:induction false} CounterClockwiseRetreats(s: TickState, sample: u32, maxAdc: int, n: nat)
    requires AdcScaleOk(maxAdc) && ValidTickState(s, maxAdc) && sample as int <= maxAdc
    ensures Repeat(COUNTER_CLOCKWISE, s, sample, maxAdc, n) == s.(index := Offset(s.index, -(n as int)))
    decreases n
  {
    if n > 0 {
      var s1 := Tick(COUNTER_CLOCKWISE, s, sample, maxAdc).next;
      CounterClockwiseRetreats(s1, sample, maxAdc, n - 1);
      OffsetAdd(s.index, -1, -(n as int - 1));
    }
  }

  /** `n` CLOCKWISE ticks followed by `n` COUNTER_CLOCKWISE ticks restore the
      statics exactly, for every `n`, wrap-around included. */
  lemma ClockwiseThenCounterClockwiseRestores(s: TickState, sample: u32, maxAdc: int, n: nat)
    requires AdcScaleOk(maxAdc) && ValidTickState(s, maxAdc) && sample as int <= maxAdc
    ensures Repeat(COUNTER_CLOCKWISE, Repeat(CLOCKWISE, s, sample, maxAdc, n), sample, maxAdc, n) == s
  {
    var t := Repeat(CLOCKWISE, s, sample, maxAdc, n);
    ClockwiseAdvances(s, sample, maxAdc, n);
    assert t == s.(index := Offset(s.index, n));
    CounterClockwiseRetreats(t, sample, maxAdc, n);
    OffsetAdd(s.index, n, -(n as int));
    assert Offset(t.index, -(n as int)) == s.index;
  }

  // ---------------------------------------------------------------------
  // FOLLOW
  // ---------------------------------------------------------------------

  /** The first FOLLOW tick of the program's life captures the home sample,
      zeroes the step count, clears the flag, keeps the index and writes
      nothing. */
  lemma FirstFollowTickCalibrates(s: TickState, sample: u32, maxAdc: int)
    requires AdcScaleOk(maxAdc) && ValidTickState(s, maxAdc) && sample as int <= maxAdc
    requires s.firstCycleInFollow
    ensures Tick(FOLLOW, s, sample, maxAdc)
            == TickResult(TickState(s.index, false, 0, sample), NoWrite)
  {
  }

  /** Once calibrated, the tracker is never calibrated again: whatever modes
      the interrupts see, leaving FOLLOW and coming back included, the flag
      stays clear and the home sample stays the one first captured. */
  lemma {:induction false} CalibrationHappensOnce(s: TickState, events: seq<TickEvent>, maxAdc: int)
    requires AdcScaleOk(maxAdc) && ValidTickState(s, maxAdc) && SamplesInRange(events, maxAdc)
    requires !s.firstCycleInFollow
    ensures !Run(s, events, maxAdc).firstCycleInFollow
    ensures Run(s, events, maxAdc).adcHome == s.adcHome
    decreases |events|
  {
    if events != [] {
      var s1 := Tick(events[0].mode, s, events[0].sample, maxAdc).next;
      assert SamplesInRange(events[1..], maxAdc) by {
        forall k | 0 <= k < |events[1..]| ensures events[1..][k].sample as int <= maxAdc {
          assert events[1..][k] == events[k + 1];
        }
      }
      CalibrationHappensOnce(s1, events[1..], maxAdc);
    }
  }

  /** No interrupt of the run sees FOLLOW. */
  predicate NoFollow(events: seq<TickEvent>) {
    forall k :: 0 <= k < |events| ==> events[k].mode != FOLLOW
  }

  /** Away from FOLLOW the tracker is left alone: a run of ticks in the other
      modes moves at most the index, so on re-entry FOLLOW resumes with the
      step count, home sample and flag it had when it was left. */
  lemma {:induction false} NonFollowRunKeepsTracker(s: TickState, events: seq<TickEvent>, maxAdc: int)
    requires AdcScaleOk(maxAdc) && ValidTickState(s, maxAdc) && SamplesInRange(events, maxAdc)
    requires NoFollow(events)
    ensures var t := Run(s, events, maxAdc);
            t.stepsMoved == s.stepsMoved && t.adcHome == s.adcHome
            && t.firstCycleInFollow == s.firstCycleInFollow
    decreases |events|
  {
    if events != [] {
      var s1 := Tick(events[0].mode, s, events[0].sample, maxAdc).next;
      assert SamplesInRange(events[1..], maxAdc) && NoFollow(events[1..]) by {
        forall k | 0 <= k < |events[1..]|
          ensures events[1..][k].sample as int <= maxAdc && events[1..][k].mode != FOLLOW
        {
          assert events[1..][k] == events[k + 1];
        }
      }
      assert s1.stepsMoved == s.stepsMoved && s1.adcHome == s.adcHome
             && s1.firstCycleInFollow == s.firstCycleInFollow;
      NonFollowRunKeepsTracker(s1, events[1..], maxAdc);
    }
  }

  /** A later FOLLOW tick moves the index and the step count together by the
      same single step toward the desired count, and writes exactly when it
      steps; the distance to the desired count falls by one, or stays 0. */
  lemma FollowStepsTowardTarget(s: TickState, sample: u32, maxAdc: int)
    requires AdcScaleOk(maxAdc) && ValidTickState(s, maxAdc) && sample as int <= maxAdc
    requires !s.firstCycleInFollow
    ensures var d := StepsDesired(s.adcHome, sample, maxAdc);
            var r := Tick(FOLLOW, s, sample, maxAdc);
            && r.next.adcHome == s.adcHome && !r.next.firstCycleInFollow
            && (d > s.stepsMoved ==> r.next.stepsMoved == s.stepsMoved + 1 && r.next.index == Inc(s.index))
            && (d < s.stepsMoved ==> r.next.stepsMoved == s.stepsMoved - 1 && r.next.index == Dec(s.index))
            && (d == s.stepsMoved <==> r.written == NoWrite)
            && (r.written != NoWrite ==> r.written == Write(Pattern(r.next.index)))
            && (d == s.stepsMoved ==> r.next == s)
            && Abs(d - r.next.stepsMoved) == (if d == s.stepsMoved then 0 else Abs(d - s.stepsMoved) - 1)
  {
  }

  /** With the sample held fixed, `n` FOLLOW ticks after calibration close the
      distance to the desired count by one per tick until it reaches 0 and
      never overshoot it; the home sample and the flag stay as they were. */
  lemma {:induction false} FollowConverges(s: TickState, sample: u32, maxAdc: int, n: nat)
    requires AdcScaleOk(maxAdc) && ValidTickState(s, maxAdc) && sample as int <= maxAdc
    requires !s.firstCycleInFollow
    ensures var d := StepsDesired(s.adcHome, sample, maxAdc);
            var t := Repeat(FOLLOW, s, sample, maxAdc, n);
            && Abs(d - t.stepsMoved) == (if n < Abs(d - s.stepsMoved) then Abs(d - s.stepsMoved) - n else 0)
            && (s.stepsMoved <= d ==> s.stepsMoved <= t.stepsMoved <= d)
            && (d <= s.stepsMoved ==> d <= t.stepsMoved <= s.stepsMoved)
            && t.adcHome == s.adcHome && !t.firstCycleInFollow
    decreases n
  {
    if n > 0 {
      var s1 := Tick(FOLLOW, s, sample, maxAdc).next;
      FollowStepsTowardTarget(s, sample, maxAdc);
      assert ValidTickState(s1, maxAdc) && !s1.firstCycleInFollow && s1.adcHome == s.adcHome;
      assert Repeat(FOLLOW, s, sample, maxAdc, n) == Repeat(FOLLOW, s1, sample, maxAdc, n - 1);
      FollowConverges(s1, sample, maxAdc, n - 1);
      var t := Repeat(FOLLOW, s1, sample, maxAdc, n - 1);
      ApproachStep(StepsDesired(s.adcHome, sample, maxAdc), s.stepsMoved, s1.stepsMoved, t.stepsMoved, n);
    }
  }

  /** One step toward `d` followed by `n - 1` more that approach it: together
      they are `n` steps that approach it. */
  lemma ApproachStep(d: int, m: int, m1: int, mt: int, n: nat)
    requires n > 0
    requires Abs(d - m1) == (if d == m then 0 else Abs(d - m) - 1)
    requires m <= d ==> m <= m1 <= d
    requires d <= m ==> d <= m1 <= m
    requires Abs(d - mt) == (if n - 1 < Abs(d - m1) then Abs(d - m1) - (n - 1) else 0)
    requires m1 <= d ==> m1 <= mt <= d
    requires d <= m1 ==> d <= mt <= m1
    ensures Abs(d - mt) == (if n < Abs(d - m) then Abs(d - m) - n else 0)
    ensures m <= d ==> m <= mt <= d
    ensures d <= m ==> d <= mt <= m
  {
  }

  /** However many FOLLOW ticks run after calibration, the index has moved by
      exactly the net number of steps the tracker has counted, modulo 2^32. */
  lemma {:induction false} FollowIndexTracksSteps(s: TickState, sample: u32, maxAdc: int, n: nat)
    requires AdcScaleOk(maxAdc) && ValidTickState(s, maxAdc) && sample as int <= maxAdc
    requires !s.firstCycleInFollow
    ensures var t := Repeat(FOLLOW, s, sample, maxAdc, n);
            t.index == Offset(s.index, t.stepsMoved - s.stepsMoved)
    decreases n
  {
    if n > 0 {
      var s1 := Tick(FOLLOW, s, sample, maxAdc).next;
      FollowStepsTowardTarget(s, sample, maxAdc);
      assert ValidTickState(s1, maxAdc) && !s1.firstCycleInFollow;
      assert Repeat(FOLLOW, s, sample, maxAdc, n) == Repeat(FOLLOW, s1, sample, maxAdc, n - 1);
      FollowIndexTracksSteps(s1, sample, maxAdc, n - 1);
      var t := Repeat(FOLLOW, s1, sample, maxAdc, n - 1);
      OffsetAdd(s.index, s1.stepsMoved - s.stepsMoved, t.stepsMoved - s1.stepsMoved);
    }
  }

  /** Inside the deadband the desired count is 0, so a tracker standing at
      step 0 does not move and writes nothing. */
  lemma DeadbandHoldsStill(s: TickState, sample: u32, maxAdc: int)
    requires AdcScaleOk(maxAdc) && ValidTickState(s, maxAdc) && sample as int <= maxAdc
    requires !s.firstCycleInFollow && s.stepsMoved == 0
    requires Abs(sample as int - s.adcHome as int) * STEPS_PER_REVOLUTION < maxAdc
    ensures Tick(FOLLOW, s, sample, maxAdc) == TickResult(s, NoWrite)
  {
  }

  /** With a 12-bit ADC (4095), home 0 and a sample of 2048 the tracker wants
      48 steps, half a revolution, and reaches them after 48 ticks from step 0
      without overshooting on later ticks. */
  lemma HalfScaleFollowsHalfRevolution(s: TickState, n: nat)
    requires s.adcHome == 0 && s.stepsMoved == 0 && !s.firstCycleInFollow
    requires n >= 48
    ensures StepsDesired(0, 2048, 4095) == 48
    ensures Repeat(FOLLOW, s, 2048, 4095, n).stepsMoved == 48
  {
    FollowConverges(s, 2048, 4095, n);
  }
}
