/** The firmware's shared state and its three entry points: the step-timer
    interrupt, the UART interrupt and one pass of the main loop. Each entry
    point runs to completion as one atomic step, and each is proved to do
    exactly what the corresponding specification function says. */
module Firmware {
  import opened MachineInt
  import opened StepperMotor
  import opened CoilSequencer
  import opened MotorTick
  import opened Commands

  class MotorController {
    /** SysCtlClockGet(): the system clock in Hz. */
    const clock: u32
    /** MAX_ADC_VALUE: the largest sample the ADC returns. */
    const maxAdc: int

    // Globals.
    var menuSelection: u8
    var revolutionsPerMin: u32
    var motorState: nat
    // main's loop flag.
    var exitProgram: bool
    // Statics of the step-timer handler.
    var stepperMotorIndex: u32
    var firstCycleInFollow: bool
    var stepsMoved: int
    var adcHome: u32

    /** The invariant every entry point keeps: the mode is one of the four
        ordinals, the home sample is an ADC sample, and the tracker's step
        count stays within one revolution, so its int32_t never overflows. */
    ghost predicate Valid()
      reads this
    {
      AdcScaleOk(maxAdc) && ValidTickState(Statics(), maxAdc) && motorState < TOTAL_STATES
    }

    /** The step handler's statics as a value. */
    function Statics(): TickState
      reads this
    {
      TickState(stepperMotorIndex, firstCycleInFollow, stepsMoved, adcHome)
    }

    /** The state the main loop works on, as a value. */
    function Globals(): Settings
      reads this
    {
      Settings(motorState, revolutionsPerMin, menuSelection, exitProgram)
    }

    /** Power-on: C's initialisers for the globals and the statics. */
    constructor (clock: u32, maxAdc: int)
      requires AdcScaleOk(maxAdc)
      ensures Valid()
      ensures this.clock == clock && this.maxAdc == maxAdc
      ensures Statics() == INITIAL_TICK_STATE && Globals() == INITIAL_SETTINGS
    {
      this.clock := clock;
      this.maxAdc := maxAdc;
      menuSelection := NO_COMMAND;
      revolutionsPerMin := 60;
      motorState := OFF;
      exitProgram := false;
      stepperMotorIndex := 0;
      firstCycleInFollow := true;
      stepsMoved := 0;
      adcHome := 0;
    }

    /** The step-timer interrupt. `sample` is what the ADC read would return;
        the result is the value written to the motor pins, if any. Only the
        statics change; the mode is only read. */
    method StepperMotorTimer(sample: u32) returns (written: PinWrite)
      requires Valid() && sample as int <= maxAdc
      modifies this`stepperMotorIndex, this`firstCycleInFollow, this`stepsMoved, this`adcHome
      ensures Valid()
      ensures TickResult(Statics(), written) == Tick(motorState, old(Statics()), sample, maxAdc)
    {
      ghost var before := Statics();
      written := NoWrite;
      if motorState == OFF {
        written := Write(0x0);
      } else if motorState == CLOCKWISE {
        stepperMotorIndex := Inc(stepperMotorIndex);
        written := Write(COIL_STATES[stepperMotorIndex as int % TOTAL_COIL_STATES]);
      } else if motorState == COUNTER_CLOCKWISE {
        stepperMotorIndex := Dec(stepperMotorIndex);
        written := Write(COIL_STATES[stepperMotorIndex as int % TOTAL_COIL_STATES]);
      } else if motorState == FOLLOW {
        if firstCycleInFollow {
          stepsMoved := 0;
          adcHome := sample;
          firstCycleInFollow := false;
        } else {
          var differenceInAdcValues := SignedDifference(sample, adcHome);
          var stepsDesired := TruncDiv(STEPS_PER_REVOLUTION * differenceInAdcValues, maxAdc);
          assert stepsDesired == StepsDesired(before.adcHome, sample, maxAdc);
          if stepsDesired > stepsMoved {
            stepperMotorIndex := Inc(stepperMotorIndex);
            written := Write(COIL_STATES[stepperMotorIndex as int % TOTAL_COIL_STATES]);
            stepsMoved := stepsMoved + 1;
          } else if stepsDesired < stepsMoved {
            stepperMotorIndex := Dec(stepperMotorIndex);
            written := Write(COIL_STATES[stepperMotorIndex as int % TOTAL_COIL_STATES]);
            stepsMoved := stepsMoved - 1;
          }
        }
      } else {
        written := Write(0x0);
      }
    }

    /** The UART interrupt: while characters are available, each one in turn
        overwrites the command slot, lowered, so the last one wins. */
    method IntUart0(chars: seq<u8>)
      requires Valid()
      modifies this`menuSelection
      ensures Valid()
      ensures menuSelection == Drain(old(menuSelection), chars)
      ensures chars != [] ==> menuSelection == ToLower(chars[|chars| - 1])
      ensures chars == [] ==> menuSelection == old(menuSelection)
    {
      var i := 0;
      while i < |chars|
        invariant 0 <= i <= |chars|
        invariant Drain(menuSelection, chars[i..]) == Drain(old(menuSelection), chars)
        invariant i > 0 ==> menuSelection == ToLower(chars[i - 1])
        invariant i == 0 ==> menuSelection == old(menuSelection)
      {
        assert chars[i..][1..] == chars[i + 1..];
        menuSelection := ToLower(chars[i]);
        i := i + 1;
      }
      assert chars[i..] == [];
    }

    /** One pass of the main loop, which runs while the exit flag is clear:
        act on the pending command, then clear it. The effect reports the
        menu print and the step-timer reload the pass performs. */
    method MainLoopPass() returns (effect: Effect)
      requires Valid() && !exitProgram
      modifies this`motorState, this`revolutionsPerMin, this`menuSelection, this`exitProgram
      ensures Valid()
      ensures (Globals(), effect) == Dispatch(old(Globals()), clock)
      ensures menuSelection == NO_COMMAND
    {
      effect := NoEffect;
      if menuSelection == MENU {
        effect := PrintMenu;
      } else if menuSelection == STEP_MODE {
        motorState := (motorState + 1) % TOTAL_STATES;
      } else if menuSelection == FASTER {
        revolutionsPerMin := ((revolutionsPerMin as int + 10) % UINT32_MODULUS) as u32;
        effect := ReloadFor(revolutionsPerMin, clock);
      } else if menuSelection == SLOWER {
        revolutionsPerMin := ((revolutionsPerMin as int - 10) % UINT32_MODULUS) as u32;
        effect := ReloadFor(revolutionsPerMin, clock);
      } else if menuSelection == QUIT {
        exitProgram := true;
      }
      menuSelection := NO_COMMAND;
    }
  }
}
