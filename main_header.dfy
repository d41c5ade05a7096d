/**
 * The declarations of the main RCSwitch.h that carry meaning of their
 * own: the capacity of the receive buffer and the `HighLow` and `Protocol`
 * descriptors, whose documented meaning is a waveform. The main
 * RCSwitch.cpp does not yet use the descriptors (it hard-codes its three
 * protocols); MainSwitch proves that its shapes are the expansions of the
 * descriptors below.
 */
module MainHeader {
  import opened Common

  /** RCSWITCH_MAX_CHANGES: the number of level durations the receive buffer holds. */
  const RCSWITCH_MAX_CHANGES: nat := 132

  type u8 = x: int | 0 <= x < 0x100
  type u16 = x: int | 0 <= x < 0x1_0000

  /** A pulse: high for `high` pulse lengths, then low for `low` pulse lengths. */
  datatype HighLow = HighLow(high: u8, low: u8)

  /**
   * How a protocol encodes bits: the base pulse length in microseconds, the
   * sync, zero and one pulses, whether all levels are inverted, and the
   * optional second long pulse (latch) at the start of a frame.
   */
  datatype Protocol = Protocol(pulseLength: u16, syncFactor: HighLow, zero: HighLow, one: HighLow,
                               invertedSignal: bool, latch: HighLow)

  /** The two levels a `HighLow` stands for at pulse length `pulseLength`: the high level first, unless inverted. */
  function Expand(h: HighLow, pulseLength: int, inverted: bool): (ps: seq<Pulse>)
    ensures |ps| == 2
  {
    Wave(pulseLength, h.high, h.low, !inverted)
  }

  /** A pulse lasts (high + low) times the pulse length, inverted or not. */
  lemma ExpandDuration(h: HighLow, pulseLength: int, inverted: bool)
    ensures Duration(Expand(h, pulseLength, inverted)) == (h.high + h.low) * pulseLength
  {
    WaveDuration(pulseLength, h.high, h.low, !inverted);
  }

  /**
   * Without inversion a pulse is high for high × pulseLength, then low for
   * low × pulseLength; with inversion it starts low for high × pulseLength
   * and then goes high for low × pulseLength.
   */
  lemma ExpandLevels(h: HighLow, pulseLength: int, inverted: bool)
    ensures Expand(h, pulseLength, inverted)
      == [Pulse(!inverted, h.high * pulseLength), Pulse(inverted, h.low * pulseLength)]
  {
  }

  /** The levels with high and low interchanged. */
  function Inverted(ps: seq<Pulse>): (r: seq<Pulse>)
    ensures |r| == |ps|
  {
    seq(|ps|, i requires 0 <= i < |ps| => Pulse(!ps[i].high, ps[i].micros))
  }

  /** Inverting the signal interchanges the levels and keeps every duration. */
  lemma InvertedSignal(h: HighLow, pulseLength: int)
    ensures Expand(h, pulseLength, true) == Inverted(Expand(h, pulseLength, false))
    ensures Durations(Expand(h, pulseLength, true)) == Durations(Expand(h, pulseLength, false))
  {
  }
}
