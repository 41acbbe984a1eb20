/** Constants of the stepper-motor driver header: the GPIO pins the four coils
    are wired to, the length of the coil sequence and the `MotorState`
    ordinals. Beside them, the number of steps in one revolution, which the
    driver header does not define. */
module StepperMotor {

  /** GPIO_PIN_0 | GPIO_PIN_1 | GPIO_PIN_2 | GPIO_PIN_3: one pin per winding. */
  const STEPPER_MOTOR_PINS: bv8 := 0x01 | 0x02 | 0x04 | 0x08

  /** Number of patterns in one electrical cycle of the half-step sequence. */
  const TOTAL_COIL_STATES: nat := 8

  // MotorState ordinals. FOLLOW is used by the step handler but missing from
  // the enum as declared; 3 is the only ordinal the `% TOTAL_STATES` cycle
  // leaves for it.
  const OFF: nat := 0
  const COUNTER_CLOCKWISE: nat := 1
  const CLOCKWISE: nat := 2
  const FOLLOW: nat := 3
  const TOTAL_STATES: nat := 4

  /** Steps per revolution. Its definition is not part of this model; 96 is
      inferred from the timer set-up, whose 60 rpm reload divides the clock
      by 96 (drivers/Timers/personalTimers.c:44). */
  const STEPS_PER_REVOLUTION: nat := 96

  /** The levels the stepper-motor pins take after
      `GPIOPinWrite(port, STEPPER_MOTOR_PINS, value)`: the value is cut to the
      uint8_t the call takes, and only the masked pins change. */
  function PinLevels(value: int): (levels: bv8)
    ensures levels & !STEPPER_MOTOR_PINS == 0
    ensures 0 <= value < 16 ==> levels as int == value
  {
    var byte := value % 0x100;
    assert 0 <= byte < 0x100;
    (byte as bv8) & STEPPER_MOTOR_PINS
  }
}
