/** The coil-pattern table `coilStates` and the lookup
    `coilStates[stepperMotorIndex % TOTAL_COIL_STATES]` that every stepping
    mode performs after moving the unsigned step index. */
module CoilSequencer {
  import opened MachineInt
  import opened StepperMotor

  /** `const int coilStates[9]`: the eight half-step patterns, then the ninth
      element, which C fills with zero. */
  const COIL_STATES: seq<int> := [0xC, 0x4, 0x6, 0x2, 0x3, 0x1, 0x9, 0x8, 0x0]

  /** TOTAL_COIL_STATES counts exactly the initialised patterns: all of them
      are non-zero, and the one element past them is the zero fill. */
  lemma TableShape()
    ensures |COIL_STATES| == TOTAL_COIL_STATES + 1
    ensures forall k :: 0 <= k < TOTAL_COIL_STATES ==> COIL_STATES[k] != 0
    ensures COIL_STATES[TOTAL_COIL_STATES] == 0
  {
  }

  /** The table position a step index selects. */
  function Slot(index: u32): (k: nat)
    ensures k < TOTAL_COIL_STATES < |COIL_STATES|
  {
    index as int % TOTAL_COIL_STATES
  }

  /** The pattern written for a step index. It is always one of the eight
      half-step patterns, never the zero-filled ninth element, and fits the
      four motor pins. */
  function Pattern(index: u32): (p: int)
    ensures p in {0xC, 0x4, 0x6, 0x2, 0x3, 0x1, 0x9, 0x8}
    ensures p != COIL_STATES[|COIL_STATES| - 1]
    ensures PinLevels(p) as int == p
  {
    COIL_STATES[Slot(index)]
  }

  /** The position after `k` in the cycle of the eight patterns. */
  function Successor(k: nat): nat
    requires k < TOTAL_COIL_STATES
  {
    (k + 1) % TOTAL_COIL_STATES
  }

  /** The position before `k` in the cycle of the eight patterns. */
  function Predecessor(k: nat): nat
    requires k < TOTAL_COIL_STATES
  {
    (k + TOTAL_COIL_STATES - 1) % TOTAL_COIL_STATES
  }

  lemma SuccessorPredecessorInverse(k: nat)
    requires k < TOTAL_COIL_STATES
    ensures Predecessor(Successor(k)) == k && Successor(Predecessor(k)) == k
  {
  }

  /** An increment of the unsigned index, including its wrap from 2^32 - 1
      to 0, selects the next pattern of the cycle. */
  lemma IncSelectsSuccessor(index: u32)
    ensures Slot(Inc(index)) == Successor(Slot(index))
    ensures Pattern(Inc(index)) == COIL_STATES[Successor(Slot(index))]
  {
    if index as int == UINT32_MODULUS - 1 {
      assert Slot(index) == 7;
    }
  }

  /** A decrement of the unsigned index, including its wrap from 0 to
      2^32 - 1, selects the previous pattern of the cycle: 8 divides 2^32, so
      the wrap does not disturb the position modulo 8. */
  lemma DecSelectsPredecessor(index: u32)
    ensures Slot(Dec(index)) == Predecessor(Slot(index))
    ensures Pattern(Dec(index)) == COIL_STATES[Predecessor(Slot(index))]
  {
    if index == 0 {
      assert Dec(index) as int == 8 * 0x1FFF_FFFF + 7;
    }
  }

  /** Adjacent patterns of the cycle, the last and the first included, differ
      in exactly one winding: the table is a half-step Gray sequence. */
  lemma AdjacentPatternsDifferInOneCoil(k: nat)
    requires k < TOTAL_COIL_STATES
    ensures (COIL_STATES[k] as bv8 ^ COIL_STATES[Successor(k)] as bv8) in {0x1, 0x2, 0x4, 0x8}
  {
  }

  /** The eight half-step patterns are pairwise distinct, so a position in the
      cycle is determined by the pattern written. */
  lemma PatternsDistinct(j: nat, k: nat)
    requires j < TOTAL_COIL_STATES && k < TOTAL_COIL_STATES
    ensures COIL_STATES[j] == COIL_STATES[k] ==> j == k
  {
  }
}
