# Stepper-motor step sequencing and command logic

A Dafny model of the control core of a TM4C stepper-motor lab program
(`Lab6_Motor.c` with its driver header `drivers/stepperMotor/stepperMotor.h`).
A periodic step-timer interrupt drives a 4-phase unipolar motor through an
eight-pattern half-step table. The mode decides what each tick does:
OFF de-energises the coils, CLOCKWISE and COUNTER_CLOCKWISE move an unsigned
step index by one, and FOLLOW tracks a potentiometer read through the ADC.
A UART interrupt drops the last received character, lowered, into a
one-character command slot. The main loop consumes that slot: `s` advances
the mode, `+`/`-` change the speed by 10 rpm and reload the step timer, and
`q` ends the loop.

Modules:

- `MachineInt` (machine_int.dfy): uint32_t wrap-around for `++`/`--`, the
  int32_t reading of a uint32_t difference, and C's truncating signed division.
- `StepperMotor` (stepper_motor.dfy): the header's constants and `MotorState`
  ordinals. It also holds the masking `GPIOPinWrite` applies to the four
  motor pins.
- `CoilSequencer` (coil_sequencer.dfy): the `coilStates` table and the lookup
  `coilStates[index % TOTAL_COIL_STATES]`.
- `MotorTick` (motor_tick.dfy): the step handler as a function of the mode,
  its statics and the ADC sample, and the lemmas about single ticks and runs.
- `Commands` (commands.dfy): `tolower`, the UART drain loop, the timer
  reload and the main loop's command switch, with their lemmas. Pure arithmetic helper
  lemmas (division monotonicity, offset composition) carry no row below.
- `Firmware` (firmware.dfy): the class `MotorController`, holding the globals
  and the handler's statics as fields. Its three entry points are imperative
  methods. Each is proved to leave exactly the state, and return exactly the
  output, that the matching `MotorTick` or `Commands` function gives.

Foreign calls become parameters or results:

- The ADC reading (`readADCData`) is the `sample` argument of a tick.
- `SysCtlClockGet()` is the constant `clock`.
- `MAX_ADC_VALUE` is the constant `maxAdc`. Its header is not part of this
  model, so it is only required to be positive and small enough that
  96 × `maxAdc` fits an int32_t.
- The pin write (`GPIOPinWrite`) is returned as `PinWrite`.
- The timer reload (`TimerLoadSet`) and the menu print are returned as `Effect`.

Behaviour of the code worth knowing:

- Re-entering FOLLOW does not recalibrate. The tracker calibrates only on the
  first FOLLOW tick of the program's life, because `firstCycleInFollow` is
  never set again; a later entry keeps the old home sample
  (`CalibrationHappensOnce`) and the step count it had when FOLLOW was left
  (`NonFollowRunKeepsTracker`).
- The step index is a `uint32_t` that wraps, not a signed integer. Because 8
  divides 2^32, the wrap still selects the neighbouring pattern
  (`DecSelectsPredecessor`).
- `-` has no lower bound on the speed. From 10 rpm the reload divides by zero;
  the model reports this as the `DivideByZero` effect and does not clamp.
- A FOLLOW tick writes the pins only when it steps, so not every tick writes.
- `FOLLOW` is missing from the header's `MotorState` enum. It is modelled as
  ordinal 3, the only value the `% TOTAL_STATES` cycle leaves for it.
- `STEPS_PER_REVOLUTION` is 96, the divisor the timer set-up uses for 60 rpm.

## Model

| member | source | states |
|---|---|---|
| MachineInt.Inc | Lab6_Motor.c:83 | `stepperMotorIndex++` on a uint32_t: the successor modulo 2^32, plain +1 below the top |
| MachineInt.Dec | Lab6_Motor.c:87 | `stepperMotorIndex--` on a uint32_t: the predecessor modulo 2^32, plain −1 above 0 |
| MachineInt.IncDecInverse | Lab6_Motor.c:83-88 | a decrement undoes an increment and vice versa, wrap included |
| MachineInt.SignedDifference | Lab6_Motor.c:111 | the uint32_t difference read as int32_t equals the true difference whenever both samples fit an int32_t |
| MachineInt.TruncDiv | Lab6_Motor.c:114 | C signed division: the quotient's magnitude is floor(abs(a)/b) and its sign is that of the numerator (rounds toward zero) |
| MachineInt.TruncDivOdd | Lab6_Motor.c:114 | truncating division is symmetric about zero: TruncDiv(−a, b) = −TruncDiv(a, b) |
| MachineInt.TruncDivVersusEuclidean | Lab6_Motor.c:114 | C's quotient equals the floor quotient for a non-negative numerator or an exact division, and is one more (rounded toward zero) for every other negative numerator |
| StepperMotor.PinLevels | drivers/stepperMotor/stepperMotor.h:12 | a pin write touches only pins 0-3, and any value in [0,15] reaches them unchanged |
| CoilSequencer.TableShape | drivers/stepperMotor/stepperMotor.h:13 | TOTAL_COIL_STATES (8) is the number of non-zero initialised patterns of the 9-element table; the ninth element is the zero fill |
| CoilSequencer.Pattern | Lab6_Motor.c:84 | the lookup `coilStates[index % 8]` always yields one of the eight half-step patterns, never the zero ninth element, and fits the four pins |
| CoilSequencer.SuccessorPredecessorInverse | Lab6_Motor.c:58 | the next and previous positions in the eight-pattern cycle undo each other |
| CoilSequencer.IncSelectsSuccessor | Lab6_Motor.c:83-84 | an increment of the index, including the wrap from 2^32−1 to 0, selects the next pattern of the cycle |
| CoilSequencer.DecSelectsPredecessor | Lab6_Motor.c:87-88 | a decrement of the index, including the wrap from 0 to 2^32−1, selects the previous pattern of the cycle |
| CoilSequencer.AdjacentPatternsDifferInOneCoil | Lab6_Motor.c:58 | cyclically adjacent patterns differ in exactly one winding (half-step Gray sequence) |
| CoilSequencer.PatternsDistinct | Lab6_Motor.c:58 | the eight patterns are pairwise distinct |
| MotorTick.StepsDesired | Lab6_Motor.c:111-114 | the desired step count has the sign of current − home and magnitude floor(96 × abs(current − home) / MAX_ADC_VALUE), so it stays within ±96 and is 0 exactly when abs(current − home) × 96 < MAX_ADC_VALUE (the deadband) |
| MotorTick.FollowTick | Lab6_Motor.c:90-127 | the FOLLOW branch keeps the step count within one revolution and always leaves the calibration flag clear |
| MotorTick.Tick | Lab6_Motor.c:74-134 | every pin write is 0x0 or a table pattern and fits the pins; a stepping mode that writes writes the pattern its new index selects; every mode but FOLLOW writes; a tick never sets the calibration flag again; the statics stay valid |
| MotorTick.OffDeEnergises | Lab6_Motor.c:78-132 | in OFF and in every mode value without a case, a tick writes 0x0 and changes no static |
| MotorTick.DirectionsTraverseOppositeWays | Lab6_Motor.c:82-89 | CLOCKWISE writes the next pattern of the cycle and COUNTER_CLOCKWISE the previous one, each moving only the index |
| MotorTick.ClockwiseAdvances | Lab6_Motor.c:82-85 | n CLOCKWISE ticks move the index forward by n modulo 2^32 and change nothing else |
| MotorTick.CounterClockwiseRetreats | Lab6_Motor.c:86-89 | n COUNTER_CLOCKWISE ticks move the index back by n modulo 2^32 and change nothing else |
| MotorTick.ClockwiseThenCounterClockwiseRestores | Lab6_Motor.c:82-89 | n CLOCKWISE ticks then n COUNTER_CLOCKWISE ticks restore the statics exactly, for every n |
| MotorTick.FirstFollowTickCalibrates | Lab6_Motor.c:95-104 | the first FOLLOW tick zeroes the step count, captures the home sample, clears the flag, keeps the index and writes nothing |
| MotorTick.CalibrationHappensOnce | Lab6_Motor.c:91-104 | once the flag is clear, no run of ticks in any modes, FOLLOW re-entry included, sets it or changes the home sample |
| MotorTick.NonFollowRunKeepsTracker | Lab6_Motor.c:78-91 | a run of ticks in modes other than FOLLOW leaves the step count, the home sample and the calibration flag unchanged, so FOLLOW resumes where it was left |
| MotorTick.FollowStepsTowardTarget | Lab6_Motor.c:116-125 | a later FOLLOW tick moves index and step count together by the same ±1 toward the desired count, writes exactly when it steps and then writes the pattern the new index selects, and shortens the distance by one |
| MotorTick.FollowConverges | Lab6_Motor.c:111-125 | with the sample fixed, the distance to the desired count falls by exactly one per tick until 0 and the step count never overshoots |
| MotorTick.FollowIndexTracksSteps | Lab6_Motor.c:116-125 | over any number of FOLLOW ticks the index moves by exactly the net counted steps, modulo 2^32 |
| MotorTick.DeadbandHoldsStill | Lab6_Motor.c:111-116 | inside the deadband a tracker at step 0 neither moves nor writes |
| MotorTick.HalfScaleFollowsHalfRevolution | Lab6_Motor.c:114-125 | with MAX_ADC_VALUE 4095, home 0 and sample 2048 the desired count is 48, and the tracker holds 48 steps after any n ≥ 48 ticks from step 0 |
| Commands.ToLower | Lab6_Motor.c:146 | `tolower`: the result is never upper case; upper-case letters map to their lower-case letters and all other bytes are unchanged |
| Commands.LastCharacterWins | Lab6_Motor.c:145-147 | `Drain`, the drain loop as a function, leaves the last character, lowered, in the slot (earlier ones are lost); with none the slot keeps its value |
| Commands.CaseIsIgnored | Lab6_Motor.c:146 | lowering is idempotent and a letter in either case gives the same command |
| Commands.StepsPerSecond | Lab6_Motor.c:233 | `rpm * 96 / 60` in uint32_t arithmetic equals the exact product divided by 60 when the product does not wrap |
| Commands.ReloadFor | Lab6_Motor.c:233 | the reload is a division by zero exactly when the steps per second are 0; otherwise it is the largest count whose product with the steps per second does not exceed the clock |
| Commands.ReloadDefinedIffPositive | Lab6_Motor.c:235-237 | without product overflow the reload is defined exactly when rpm ≥ 1 |
| Commands.StartingSpeedMatchesTimerSetup | drivers/Timers/personalTimers.c:44 | the initial 60 rpm gives the timer set-up's reload clock/96; 70 rpm gives clock/112 |
| Commands.FasterSpeedShorterReload | Lab6_Motor.c:233 | for speeds of at least 1 rpm whose product with 96 fits 32 bits, a higher speed never gives a longer reload |
| Commands.NextMode | Lab6_Motor.c:229 | `(motorState + 1) % TOTAL_STATES` is always one of the four ordinals |
| Commands.Dispatch | Lab6_Motor.c:224-243 | a pass always leaves the slot cleared; `m` only reports the menu print and `q` only sets the exit flag; characters other than m, s, +, -, q change nothing else; the exit flag is set exactly by q |
| Commands.ModeCycle | Lab6_Motor.c:228-229 | from OFF, n mode advances reach ordinal n % 4, so exactly four modes are reachable and they repeat with period 4 |
| Commands.ModeOrder | drivers/stepperMotor/stepperMotor.h:15-17 | the ordinals make advances from OFF visit COUNTER_CLOCKWISE, CLOCKWISE, FOLLOW, then OFF again |
| Commands.StepModeAdvances | Lab6_Motor.c:228-230 | `s` advances the mode, clears the slot and changes nothing else |
| Commands.SpeedCommandsChangeByTen | Lab6_Motor.c:231-238 | `+`/`-` change the speed by exactly ±10 modulo 2^32, reload for the new speed, and change nothing else |
| Commands.FasterThenSlowerRestores | Lab6_Motor.c:231-238 | `+` followed by `-` restores the speed and yields the original speed's reload, wrap included |
| Commands.SlowerFromTenDividesByZero | Lab6_Motor.c:235-238 | `-` at 10 rpm sets the speed to 0 and divides by zero; at 0 rpm it wraps to 2^32−10 |
| Commands.ReceivedCommandIsDispatched | Lab6_Motor.c:145-146 | a command whose last received character lowers to `s` (e.g. `S`) advances the mode in the next pass and is consumed |
| Firmware.MotorController.constructor | Lab6_Motor.c:56-59 | power-on values: mode OFF, 60 rpm, empty slot, index 0, calibration pending |
| Firmware.MotorController.StepperMotorTimer | Lab6_Motor.c:74-134 | the interrupt leaves exactly the statics and returns exactly the write that `MotorTick.Tick` gives, and keeps the invariant (step count within ±96) |
| Firmware.MotorController.IntUart0 | Lab6_Motor.c:135-148 | the drain loop leaves the slot holding the last character lowered, or unchanged when nothing arrived, and keeps the invariant |
| Firmware.MotorController.MainLoopPass | Lab6_Motor.c:224-244 | a pass leaves exactly the globals and returns exactly the effect `Commands.Dispatch` gives, keeps the mode within the four ordinals, and clears the slot |

## Left out

- Display output: `oneSecondTimer`, `clearBlack`, `displayInfoOnBoard`, the splash screen and `printMainMenu`. `m` only reports `PrintMenu`.
- The LED heartbeat in the main loop, whose duty-cycle constants are not part of this model.
- Hardware bring-up: clock, FPU and interrupt set-up in `main`, `setupTimers`, `setupStepperMotor`, the UART and ADC set-up. `drivers/UART/personalUART.h` holds only prototypes.
- The ADC header defining `MAX_ADC_VALUE` is not part of this model. Samples are assumed to lie in [0, `maxAdc`], the range the converter produces.
- Interleaving of the step interrupt, the UART interrupt and the main loop: each handler invocation is one atomic step.
- Commands.NextMode: the mode is an unbounded ordinal, so the 32-bit wrap of `motorState + 1` for an enum value of 2^32−1 is not modelled. Only the ordinals 0-3 are ever reached.
- MotorTick.Tick: the int32_t overflow of `STEPS_PER_REVOLUTION * difference` and of `stepsMoved` is excluded rather than modelled. The sample range and `AdcScaleOk` rule out the first; the proved invariant that `stepsMoved` stays within ±96 rules out the second.
