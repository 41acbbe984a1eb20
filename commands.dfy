/** The main loop's command switch, the step-timer reload it recomputes, and
    the UART interrupt that fills the single-character command slot. */
module Commands {
  import opened MachineInt
  import opened StepperMotor

  // Command characters, as the byte values the UART delivers.
  const MENU: u8 := 'm' as u8
  const STEP_MODE: u8 := 's' as u8
  const FASTER: u8 := '+' as u8
  const SLOWER: u8 := '-' as u8
  const QUIT: u8 := 'q' as u8
  /** '\0': no command pending. */
  const NO_COMMAND: u8 := 0

  /** The state the main loop reads and writes. */
  datatype Settings = Settings(
    motorState: nat,          // motorState (a MotorState ordinal)
    revolutionsPerMin: u32,   // revolutionsPerMin
    menuSelection: u8,        // menuSelection
    exitProgram: bool)        // exitProgram, local to main

  /** The initial values of the globals and of main's locals. */
  const INITIAL_SETTINGS: Settings := Settings(OFF, 60, NO_COMMAND, false)

  /** What a main-loop pass does besides updating the settings. */
  datatype Effect =
    | NoEffect
    | PrintMenu                  // printMainMenu(), display output
    | Reload(value: u32)         // TimerLoadSet on the step timer
    | DivideByZero               // the reload's divisor was zero

  // ---------------------------------------------------------------------
  // tolower and the UART interrupt
  // ---------------------------------------------------------------------

  predicate IsUpper(c: u8) {
    'A' as u8 <= c <= 'Z' as u8
  }

  /** `tolower` in the C locale: upper-case letters become their lower-case
      letters, every other byte is left as it is. */
  function ToLower(c: u8): (l: u8)
    ensures !IsUpper(l)
    ensures IsUpper(c) ==> l as int == c as int + ('a' as int - 'A' as int)
    ensures !IsUpper(c) ==> l == c
  {
    if IsUpper(c) then c + 32 else c
  }

  /** The UART interrupt's loop: every available character in turn
      overwrites the command slot, lowered. */
  function Drain(selection: u8, chars: seq<u8>): u8
    decreases |chars|
  {
    if chars == [] then selection else Drain(ToLower(chars[0]), chars[1..])
  }

  /** Last write wins: after draining the characters the slot holds the last
      one, lowered, and every earlier one is lost; with nothing to read the
      slot keeps its command. */
  lemma {:induction false} LastCharacterWins(selection: u8, chars: seq<u8>)
    ensures Drain(selection, chars)
            == if chars == [] then selection else ToLower(chars[|chars| - 1])
    decreases |chars|
  {
    if chars != [] {
      LastCharacterWins(ToLower(chars[0]), chars[1..]);
    }
  }

  /** Upper- and lower-case letters are the same command. */
  lemma CaseIsIgnored(c: u8)
    ensures ToLower(ToLower(c)) == ToLower(c)
    ensures IsUpper(c) ==> ToLower(c) == ToLower(c + 32)
  {
  }

  // ---------------------------------------------------------------------
  // The step-timer reload
  // ---------------------------------------------------------------------

  /** `revolutionsPerMin * STEPS_PER_REVOLUTION / 60` in uint32_t arithmetic:
      steps per second. */
  function StepsPerSecond(rpm: u32): (d: nat)
    ensures rpm as int * STEPS_PER_REVOLUTION < UINT32_MODULUS ==> d == rpm as int * STEPS_PER_REVOLUTION / 60
  {
    ((rpm as int * STEPS_PER_REVOLUTION) % UINT32_MODULUS) / 60
  }

  /** `SysCtlClockGet() / StepsPerSecond(rpm)`: clock cycles per step, or a
      division by zero when the steps per second come to 0. */
  function ReloadFor(rpm: u32, clock: u32): (r: Effect)
    ensures r.DivideByZero? <==> StepsPerSecond(rpm) == 0
    ensures r.Reload? ==> r.value as int * StepsPerSecond(rpm) <= clock as int
                          < (r.value as int + 1) * StepsPerSecond(rpm)
    ensures r.Reload? || r.DivideByZero?
  {
    var divisor := StepsPerSecond(rpm);
    if divisor == 0 then DivideByZero else Reload((clock as int / divisor) as u32)
  }

  /** Without 32-bit overflow in the product, the reload is defined exactly
      for a positive speed. */
  lemma ReloadDefinedIffPositive(rpm: u32, clock: u32)
    requires rpm as int * STEPS_PER_REVOLUTION < UINT32_MODULUS
    ensures ReloadFor(rpm, clock).Reload? <==> rpm >= 1
  {
  }

  /** The 60 rpm the program starts at gives the reload the timer set-up
      loads, the clock divided by 96; 70 rpm divides it by 112. */
  lemma StartingSpeedMatchesTimerSetup(clock: u32)
    ensures ReloadFor(60, clock) == Reload(clock / 96)
    ensures ReloadFor(70, clock) == Reload(clock / 112)
  {
  }

  /** A faster speed never gives a longer reload. */
  lemma FasterSpeedShorterReload(slow: u32, fast: u32, clock: u32)
    requires 1 <= slow <= fast
    requires fast as int * STEPS_PER_REVOLUTION < UINT32_MODULUS
    ensures ReloadFor(slow, clock).Reload? && ReloadFor(fast, clock).Reload?
    ensures ReloadFor(fast, clock).value <= ReloadFor(slow, clock).value
  {
    var ds, df := StepsPerSecond(slow), StepsPerSecond(fast);
    MulMonotone(slow as int, fast as int, STEPS_PER_REVOLUTION);
    assert 1 <= ds <= df;
    DivisionAntitone(clock as int, ds, df);
  }

  /** Dividing by a larger divisor gives no larger quotient. */
  lemma DivisionAntitone(n: nat, small: nat, large: nat)
    requires 0 < small <= large
    ensures n / large <= n / small
  {
    var q := n / large;
    MulMonotone(small, large, q);
    assert q * small <= q * large <= n;
    if n / small < q {
      MulMonotone(n / small + 1, q, small);
    }
  }

  // ---------------------------------------------------------------------
  // The main-loop command switch
  // ---------------------------------------------------------------------

  /** `(motorState + 1) % TOTAL_STATES`. */
  function NextMode(mode: nat): (m: nat)
    ensures m < TOTAL_STATES
  {
    (mode + 1) % TOTAL_STATES
  }

  /** One pass of the main loop's switch over the pending character,
      followed by clearing it. */
  function Dispatch(s: Settings, clock: u32): (r: (Settings, Effect))
    ensures r.0.menuSelection == NO_COMMAND
    ensures s.menuSelection !in {MENU, STEP_MODE, FASTER, SLOWER, QUIT}
            ==> r == (s.(menuSelection := NO_COMMAND), NoEffect)
    ensures r.0.exitProgram <==> s.exitProgram || s.menuSelection == QUIT
    ensures s.menuSelection == MENU ==> r == (s.(menuSelection := NO_COMMAND), PrintMenu)
    ensures s.menuSelection == QUIT
            ==> r == (s.(menuSelection := NO_COMMAND, exitProgram := true), NoEffect)
  {
    var c := s.menuSelection;
    var cleared := s.(menuSelection := NO_COMMAND);
    if c == MENU then
      (cleared, PrintMenu)
    else if c == STEP_MODE then
      (cleared.(motorState := NextMode(s.motorState)), NoEffect)
    else if c == FASTER then
      var rpm := ((s.revolutionsPerMin as int + 10) % UINT32_MODULUS) as u32;
      (cleared.(revolutionsPerMin := rpm), ReloadFor(rpm, clock))
    else if c == SLOWER then
      var rpm := ((s.revolutionsPerMin as int - 10) % UINT32_MODULUS) as u32;
      (cleared.(revolutionsPerMin := rpm), ReloadFor(rpm, clock))
    else if c == QUIT then
      (cleared.(exitProgram := true), NoEffect)
    else
      (cleared, NoEffect)
  }

  /** The mode after `n` mode-advance commands from `mode`. */
  function AdvanceTimes(mode: nat, n: nat): nat
    decreases n
  {
    if n == 0 then mode else AdvanceTimes(NextMode(mode), n - 1)
  }

  /** From OFF, `n` mode-advance commands reach mode `n % 4`: the modes cycle
      OFF, COUNTER_CLOCKWISE, CLOCKWISE, FOLLOW with period TOTAL_STATES, and
      exactly those four values are ever reached. */
  lemma {:induction false} ModeCycle(n: nat)
    ensures AdvanceTimes(OFF, n) == n % TOTAL_STATES
    decreases n
  {
    if n > 0 {
      AdvanceTimesShift(OFF, n - 1);
      ModeCycle(n - 1);
    }
  }

  /** The last of `n + 1` advances can be taken last. */
  lemma {:induction false} AdvanceTimesShift(mode: nat, n: nat)
    ensures AdvanceTimes(mode, n + 1) == NextMode(AdvanceTimes(mode, n))
    decreases n
  {
    if n > 0 {
      AdvanceTimesShift(NextMode(mode), n - 1);
    }
  }

  /** The order the ordinals give: counter-clockwise is visited before
      clockwise, FOLLOW last, and the fourth advance returns to OFF. */
  lemma ModeOrder()
    ensures AdvanceTimes(OFF, 1) == COUNTER_CLOCKWISE
    ensures AdvanceTimes(OFF, 2) == CLOCKWISE
    ensures AdvanceTimes(OFF, 3) == FOLLOW
    ensures AdvanceTimes(OFF, 4) == OFF
  {
    ModeCycle(1);
    ModeCycle(2);
    ModeCycle(3);
    ModeCycle(4);
  }

  /** 's' advances the mode and changes nothing else. */
  lemma StepModeAdvances(s: Settings, clock: u32)
    requires s.menuSelection == STEP_MODE
    ensures Dispatch(s, clock)
            == (s.(motorState := NextMode(s.motorState), menuSelection := NO_COMMAND), NoEffect)
  {
  }

  /** '+' and '-' change the speed by exactly 10 (modulo 2^32, there being no
      guard against wrap-around) and reload the step timer for the new
      speed; nothing else changes. */
  lemma SpeedCommandsChangeByTen(s: Settings, clock: u32)
    requires s.menuSelection == FASTER || s.menuSelection == SLOWER
    ensures var (t, e) := Dispatch(s, clock);
            && t.revolutionsPerMin as int
               == (s.revolutionsPerMin as int + (if s.menuSelection == FASTER then 10 else -10)) % UINT32_MODULUS
            && e == ReloadFor(t.revolutionsPerMin, clock)
            && t == s.(revolutionsPerMin := t.revolutionsPerMin, menuSelection := NO_COMMAND)
  {
  }

  /** '+' followed by '-' restores the speed and gives back the reload of the
      original speed; as the speed is kept modulo 2^32 this holds even across
      a wrap. */
  lemma FasterThenSlowerRestores(s: Settings, clock: u32)
    requires s.menuSelection == FASTER
    ensures var t := Dispatch(s, clock).0.(menuSelection := SLOWER);
            && Dispatch(t, clock).0 == s.(menuSelection := NO_COMMAND)
            && Dispatch(t, clock).1 == ReloadFor(s.revolutionsPerMin, clock)
  {
    var r := (s.revolutionsPerMin as int + 10) % UINT32_MODULUS;
    assert (r - 10) % UINT32_MODULUS == s.revolutionsPerMin as int;
  }

  /** '-' has no lower bound: from 10 rpm it sets the speed to 0 and the
      reload divides by zero; from 0 it wraps to 2^32 - 10. */
  lemma SlowerFromTenDividesByZero(s: Settings, clock: u32)
    requires s.menuSelection == SLOWER
    ensures s.revolutionsPerMin == 10 ==> Dispatch(s, clock) == (s.(revolutionsPerMin := 0, menuSelection := NO_COMMAND), DivideByZero)
    ensures s.revolutionsPerMin == 0 ==> Dispatch(s, clock).0.revolutionsPerMin as int == UINT32_MODULUS - 10
  {
  }

  /** A command typed in upper case, received by the UART interrupt, is
      dispatched like its lower-case letter, and is then consumed. */
  lemma ReceivedCommandIsDispatched(s: Settings, chars: seq<u8>, clock: u32)
    requires chars != [] && ToLower(chars[|chars| - 1]) == STEP_MODE
    ensures var t := s.(menuSelection := Drain(s.menuSelection, chars));
            Dispatch(t, clock).0 == s.(motorState := NextMode(s.motorState), menuSelection := NO_COMMAND)
  {
    LastCharacterWins(s.menuSelection, chars);
  }
}
