/**
 * Compile-time configuration of the raspberry-quigg branch: the timing of
 * protocols A to D in units of the pulse length, the protocol identifiers,
 * the receive buffer capacity, the default arguments, and the per-protocol
 * tables the implementation file builds from these constants.
 */
module QuiggHeader {

  /** Capacity of the receive buffer: 32 bits, two level changes per bit, plus the sync. */
  const MAX_CHANGES: nat := 67

  /** Number of table rows: the four protocols plus the dummy row of TYPE_UNDEF. */
  const MAX_PROTOCOLS: nat := 5

  // eProtocol
  const TYPE_UNDEF: int := 0
  const TYPE_MINIMUM: int := TYPE_UNDEF
  const TYPE_A: int := 1
  const TYPE_B: int := 2
  const TYPE_C: int := 3
  const TYPE_D: int := 4
  /** REV switches are sent with the timing of protocol C. */
  const TYPE_E: int := 3
  const TYPE_MAXIMUM: int := TYPE_D

  // Default arguments of setProtocol, transmit and dec2bin.
  /** A pulse length or repeat count of 0 (or less) means "take the protocol's default". */
  const DEFAULT_PULSE_LENGTH: int := 0
  const DEFAULT_REPEAT_TRANSMIT: int := 0
  const DEFAULT_HIGH_FIRST: bool := true
  const DEFAULT_FILL: char := '0'

  /**
   * One protocol's bit timing in units of the pulse length: the sync factor
   * (the long gap between repeats divided by the pulse length), the two
   * levels of a '0' bit, the two levels of a '1' bit, and whether each bit
   * starts with the high level.
   */
  datatype Timing = Timing(
    syncFactor: nat,
    zeroFirst: nat, zeroSecond: nat,
    oneFirst: nat, oneSecond: nat,
    highFirst: bool)

  const PROTOCOL_A: Timing := Timing(31, 1, 3, 3, 1, true)
  const PROTOCOL_B: Timing := Timing(10, 1, 2, 2, 1, true)
  const PROTOCOL_C: Timing := Timing(71, 4, 11, 9, 6, true)
  /** Quigg switches do not sync; the sync factor 1 is a placeholder. */
  const PROTOCOL_D: Timing := Timing(1, 1, 2, 2, 1, false)

  /** A valid row index of the tables below. */
  predicate IsProtocol(p: int)
  {
    TYPE_MINIMUM <= p <= TYPE_MAXIMUM
  }

  /** SYNC_FACTOR, ZERO_*_CYCLES, ONE_*_CYCLES and HIGH_FIRST, row by row; row 0 is the dummy row. */
  function TimingOf(p: int): Timing
    requires IsProtocol(p)
  {
    if p == TYPE_A then PROTOCOL_A
    else if p == TYPE_B then PROTOCOL_B
    else if p == TYPE_C then PROTOCOL_C
    else if p == TYPE_D then PROTOCOL_D
    else Timing(0, 0, 0, 0, 0, false)
  }

  /** PULSE_LENGTH: the default pulse length of each protocol in microseconds. */
  function DefaultPulseLength(p: int): int
    requires IsProtocol(p)
  {
    [0, 350, 650, 100, 666][p]
  }

  /** REPEAT_TRANSMIT: how often each protocol repeats a code word by default. */
  function DefaultRepeatTransmit(p: int): int
    requires IsProtocol(p)
  {
    [0, 10, 10, 10, 4][p]
  }

  /**
   * In every real protocol a '0' and a '1' take equally long, and their
   * first levels differ by at least one pulse length, so the two bit
   * shapes can be told apart by the first level alone.
   */
  lemma BitShapes(p: int)
    requires TYPE_A <= p <= TYPE_D
    ensures var t := TimingOf(p);
      t.zeroFirst + t.zeroSecond == t.oneFirst + t.oneSecond
      && t.zeroFirst + 1 <= t.oneFirst
      && t.zeroFirst >= 1 && t.oneSecond >= 1 && t.syncFactor >= 1
  {
  }
}
