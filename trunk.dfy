/**
 * The trunk version of the library (trunk/RCSwitch.cpp): a switch that
 * builds type A and type B words as Strings, sends them in tri-state or as
 * binary C strings with the fixed shapes of protocol 1, and a receiver
 * whose interrupt handler decodes protocol 1 itself and hands every second
 * repeat of a packet to a user callback.
 *
 * The transmitter is modelled as a pulse trace, the callback as a log of
 * the calls it received.
 */
module Trunk {
  import opened Common
  import opened Decoder
  import QuiggCodes
  import MainCodes
  import MainSwitch

  /** RCSWITCH_MAX_CHANGES: the capacity of the receiver's buffer. */
  const MAX_CHANGES: nat := 67
  /** The gap before a packet, in pulse lengths. */
  const SYNC_FACTOR: nat := 31
  /** `delay * 0.3`: the tolerance window in percent of the pulse length. */
  const TOLERANCE: int := 30
  /** '0' is one short level and three long, '1' the reverse. */
  const CYCLES: Cycles := Cycles(1, 3, 3, 1)
  /** Both senders repeat a word this many times. */
  const REPEATS: int := 10
  /** The pulse length the argument-less constructor sets, in microseconds. */
  const DEFAULT_PULSE_LENGTH: int := 350

  // ---------------------------------------------------------------- code words

  /** The `code` table of getCodeWordA(): every channel floating except a '0' at the selected one. */
  const CHANNEL_CODE: seq<seq<char>> := ["FFFFF", "0FFFF", "F0FFF", "FF0FF", "FFF0F", "FFFF0"]

  /**
   * getCodeWordB(): the word of a switch with two four-position rotary
   * switches, or the empty String when a position is outside 1 to 4.
   */
  function CodeWordB(address: int, channel: int, on: bool): (w: seq<char>)
  {
    if address < 1 || address > 4 || channel < 1 || channel > 4 then ""
    else QuiggCodes.TYPE_B_CODE[address] + QuiggCodes.TYPE_B_CODE[channel] + "FF" + (if on then "FF" else "F0")
  }

  /**
   * The trunk's type B word is the raspberry-quigg branch's, with the same
   * positions rejected, and it reads back: ParseB recovers the arguments of
   * every word built, and every word ParseB accepts is the one built from
   * what it reads.
   */
  lemma CodeWordBParses(address: int, channel: int, on: bool, w: seq<char>)
    ensures CodeWordB(address, channel, on) == [] <==> QuiggCodes.CodeWordB(address, channel, on).None?
    ensures CodeWordB(address, channel, on) != [] ==>
      CodeWordB(address, channel, on) == QuiggCodes.CodeWordB(address, channel, on).value
      && QuiggCodes.ParseB(CodeWordB(address, channel, on)) == Some((address, channel, on))
    ensures QuiggCodes.ParseB(w).Some? ==>
      CodeWordB(QuiggCodes.ParseB(w).value.0, QuiggCodes.ParseB(w).value.1, QuiggCodes.ParseB(w).value.2) == w
  {
    QuiggCodes.CodeWordBRoundTrip(address, channel, on, w);
    if QuiggCodes.ParseB(w).Some? {
      var (a, c, o) := QuiggCodes.ParseB(w).value;
      QuiggCodes.CodeWordBRoundTrip(a, c, o, w);
      assert CodeWordB(a, c, o) == QuiggCodes.CodeWordB(a, c, o).value;
    }
  }

  /**
   * getCodeWordA(): the word of a 10-pole DIP switch whose group half is
   * the String `group` and whose channel half selects one of five
   * channels; the empty String unless the group has exactly five
   * characters and the channel is 1 to 5.
   */
  function CodeWordA(group: seq<char>, channel: int, on: bool): (w: seq<char>)
  {
    if |group| != 5 || channel < 1 || channel > 5 then ""
    else QuiggCodes.DipSymbols(group) + CHANNEL_CODE[channel] + (if on then "0F" else "F0")
  }

  /** Channel `n`'s row of the table is the DIP word with only switch `n` on. */
  lemma ChannelCodeIsDip(n: int)
    requires 0 <= n <= 5
    ensures CHANNEL_CODE[n] == QuiggCodes.DipSymbols(QuiggCodes.TYPE_A_CODE[n])
    ensures QuiggCodes.NormalDips(QuiggCodes.TYPE_A_CODE[n]) == QuiggCodes.TYPE_A_CODE[n]
  {
    assert QuiggCodes.DipSymbols(QuiggCodes.TYPE_A_CODE[n]) == CHANNEL_CODE[n];
    assert QuiggCodes.NormalDips(QuiggCodes.TYPE_A_CODE[n]) == QuiggCodes.TYPE_A_CODE[n];
  }

  /**
   * A trunk type A word is the branch's type A word for the channel's DIP
   * row, and reads back: ParseA gives the group (every character other
   * than '0' read as on), the channel's row and the status; conversely a
   * word that ParseA reads with a channel row is the one built.
   */
  lemma CodeWordAParses(group: seq<char>, channel: int, on: bool, w: seq<char>)
    ensures CodeWordA(group, channel, on) == [] <==> !(|group| == 5 && 1 <= channel <= 5)
    ensures CodeWordA(group, channel, on) != [] ==>
      CodeWordA(group, channel, on) == QuiggCodes.CodeWordA(group, QuiggCodes.TYPE_A_CODE[channel], on)
      && QuiggCodes.ParseA(CodeWordA(group, channel, on))
         == Some((QuiggCodes.NormalDips(group), QuiggCodes.TYPE_A_CODE[channel], on))
    ensures 1 <= channel <= 5 && QuiggCodes.ParseA(w) == Some((group, QuiggCodes.TYPE_A_CODE[channel], on)) ==>
      CodeWordA(group, channel, on) == w
  {
    if 1 <= channel <= 5 {
      ChannelCodeIsDip(channel);
      var d := QuiggCodes.TYPE_A_CODE[channel];
      assert d[..5] == d;
      if |group| == 5 {
        assert group[..5] == group;
        QuiggCodes.CodeWordAParses(group, d, on);
      }
      if QuiggCodes.ParseA(w) == Some((group, d, on)) {
        QuiggCodes.ParseABuilds(w);
        assert group[..5] == group;
      }
    }
  }

  // ---------------------------------------------------------------- the decoder

  /** What one call of the callback receives: code, bit length, pulse length and the raw buffer. */
  datatype Heard = Heard(value: u32, length: int, delay: u32, raw: seq<u32>)

  /**
   * The '1' test of receiveInterrupt() as written: the upper bound on the
   * high level is `delay * delayTolerance` where `delay * 3 +
   * delayTolerance` is meant.
   */
  predicate MatchesOneAsWritten(ts: seq<u32>, i: int, delay: u32, tw: u32)
    requires 0 <= i && i + 1 < |ts|
  {
    ts[i] > Sub32(Mul32(delay, 3), tw) && ts[i] < Mul32(delay, tw) && Inside(ts[i + 1], delay, tw)
  }

  /** The decoding loop as written, from pair `i` on. */
  function ScanAsWritten(ts: seq<u32>, cc: int, delay: u32, tw: u32, i: int, code: u32): u32
    requires 1 <= i && cc < |ts|
    decreases cc - i
  {
    if i >= cc then code
    else if MatchesZero(ts, i, CentresOf(delay, CYCLES), tw) then ScanAsWritten(ts, cc, delay, tw, i + 2, Shl(code))
    else if MatchesOneAsWritten(ts, i, delay, tw) then ScanAsWritten(ts, cc, delay, tw, i + 2, Shl(Add32(code, 1)))
    else 0
  }

  /** The code receiveInterrupt() as written computes from slots 0 to `cc`. */
  function DecodeAsWritten(ts: seq<u32>, cc: int): u32
    requires 0 <= cc < |ts|
  {
    var delay := DelayOf(ts[0], SYNC_FACTOR);
    ScanAsWritten(ts, cc, delay, Window(delay, TOLERANCE), 1, 0) / 2
  }

  /** The decoder with the evidently intended '1' test, the same shape as every other version's. */
  function DecodeIntended(ts: seq<u32>, cc: int): (code: u32)
    requires 0 <= cc < |ts|
    ensures code < 0x8000_0000
  {
    Decode(ts, cc, TOLERANCE, SYNC_FACTOR, CYCLES)
  }

  /**
   * As written, a pair whose high level lasts 2000 µs at a pulse length of
   * 350 µs (a '1' would be 1050 µs) decodes as a '1'; the intended test
   * rejects it. At a pulse length of 10 µs the written bound lies below
   * the '1' level itself, so a '1' timed exactly is rejected.
   */
  lemma AsWrittenAcceptsLongPulse()
    ensures DecodeAsWritten([10850, 2000, 350], 2) == 1
    ensures DecodeIntended([10850, 2000, 350], 2) == 0
    ensures DecodeAsWritten([310, 30, 10], 2) == 0
    ensures DecodeIntended([310, 30, 10], 2) == 1
  {
    var ts: seq<u32> := [10850, 2000, 350];
    assert DelayOf(ts[0], SYNC_FACTOR) == 350;
    assert Window(350, TOLERANCE) == 105;
    assert MatchesOneAsWritten(ts, 1, 350, 105);
    assert ScanAsWritten(ts, 2, 350, 105, 1, 0) == 2;
    var us: seq<u32> := [310, 30, 10];
    assert DelayOf(us[0], SYNC_FACTOR) == 10;
    assert Window(10, TOLERANCE) == 3;
    assert MatchesOne(us, 1, CentresOf(10, CYCLES), 3);
    assert Scan(us, 2, CentresOf(10, CYCLES), 3, 1, 0) == 2;
  }

  /** The intended decoder reads back every binary word of up to 31 digits whose pairs carry it. */
  lemma IntendedDecodesWord(ts: seq<u32>, w: seq<char>)
    requires |ts| > 0 && |w| <= 31
    requires var delay := DelayOf(ts[0], SYNC_FACTOR);
      Carries(ts, CentresOf(delay, CYCLES), Window(delay, TOLERANCE), w)
    ensures DecodeIntended(ts, 2 * |w| + 1) == BinValue(w)
  {
    DecodesWord(ts, TOLERANCE, SYNC_FACTOR, CYCLES, w);
  }

  /**
   * When the written bound `delay * delayTolerance` is no lower than the
   * intended `delay * 3 + delayTolerance`, every pair that carries a digit
   * is read the same way by both tests, from pair `j` on.
   */
  lemma {:induction false} ScanAsWrittenAgrees(ts: seq<u32>, delay: u32, tw: u32, w: seq<char>, j: int, code: u32)
    requires Carries(ts, CentresOf(delay, CYCLES), tw, w) && 0 <= j <= |w|
    requires Add32(Mul32(delay, 3), tw) <= Mul32(delay, tw)
    ensures ScanAsWritten(ts, 2 * |w| + 1, delay, tw, 2 * j + 1, code)
         == Scan(ts, 2 * |w| + 1, CentresOf(delay, CYCLES), tw, 2 * j + 1, code)
    decreases |w| - j
  {
    if j < |w| {
      var c := CentresOf(delay, CYCLES);
      assert PairCarries(ts, 2 * j + 1, c, tw, w[j]);
      if w[j] == '1' {
        assert Mul32(delay, 1) == delay;
        assert MatchesOneAsWritten(ts, 2 * j + 1, delay, tw);
        ScanAsWrittenAgrees(ts, delay, tw, w, j + 1, Shl(Add32(code, 1)));
      } else {
        ScanAsWrittenAgrees(ts, delay, tw, w, j + 1, Shl(code));
      }
    }
  }

  /**
   * At pulse lengths from 14 µs up to where `delay * delayTolerance` would
   * wrap, the written bound lies above the intended one, so the handler as
   * written still reads back every binary word of up to 31 digits whose
   * pairs carry it; the typo only lets through '1' levels that are too long.
   */
  lemma AsWrittenDecodesWord(ts: seq<u32>, w: seq<char>)
    requires |ts| > 0 && |w| <= 31
    requires var delay := DelayOf(ts[0], SYNC_FACTOR);
      14 <= delay && delay * Window(delay, TOLERANCE) < WORD
      && Carries(ts, CentresOf(delay, CYCLES), Window(delay, TOLERANCE), w)
    ensures DecodeAsWritten(ts, 2 * |w| + 1) == BinValue(w)
  {
    var delay := DelayOf(ts[0], SYNC_FACTOR);
    var tw := Window(delay, TOLERANCE);
    assert delay * 30 < WORD;
    assert Mul32(delay, TOLERANCE) == delay * 30;
    assert tw >= 4 && tw <= delay;
    assert delay * tw >= delay * 4;
    assert Mul32(delay, 3) == 3 * delay && Add32(3 * delay, tw) == 3 * delay + tw;
    assert Mul32(delay, tw) == delay * tw;
    ScanAsWrittenAgrees(ts, delay, tw, w, 0, 0);
    IntendedDecodesWord(ts, w);
  }

  /** What the callback is called with for the packet in slots 0 to `cc`: the code as the handler computes it. */
  function Callback(ts: seq<u32>, cc: int): Heard
    requires 0 <= cc < |ts|
  {
    Heard(DecodeAsWritten(ts, cc), cc / 2, DelayOf(ts[0], SYNC_FACTOR), ts)
  }

  /**
   * The static state of receiveInterrupt(), shared by every switch. The
   * callback set with enableReceive() is the log `heard`.
   */
  class Receiver {
    /** The level durations of the packet being received; slot 0 holds the gap before it. */
    const timings: array<u32>
    var changeCount: int
    var repeatCount: int
    var lastTime: u32
    /** Every call of the callback, oldest first. */
    var heard: seq<Heard>

    ghost predicate Valid()
      reads this, timings
    {
      timings.Length == MAX_CHANGES
      && 0 <= changeCount <= MAX_CHANGES
      && (changeCount == 0 ==> timings[0] == 0)
      && 0 <= repeatCount <= 1
    }

    /** The zero-initialised statics. */
    constructor()
      ensures Valid() && fresh(timings)
      ensures timings[..] == seq(MAX_CHANGES, _ => 0)
      ensures changeCount == 0 && repeatCount == 0 && lastTime == 0 && heard == []
    {
      timings := new u32[MAX_CHANGES](_ => 0);
      changeCount, repeatCount, lastTime := 0, 0, 0;
      heard := [];
    }

    /**
     * The decoding loop over slots 0 to `cc` with the pulse length taken
     * from the gap in slot 0, with the '1' test as written (its upper bound
     * on the high level is `delay * delayTolerance`). (The loop's own reset
     * of `repeatCount` on a mismatch is left to the caller, which resets it
     * in every case.)
     */
    method DecodePacket(cc: int) returns (code: u32, delay: u32)
      requires timings.Length == MAX_CHANGES && 0 <= cc < MAX_CHANGES
      ensures code == DecodeAsWritten(timings[..], cc)
      ensures delay == DelayOf(timings[0], SYNC_FACTOR)
    {
      ghost var ts := timings[..];
      code := 0;
      delay := timings[0] / SYNC_FACTOR;
      var tw := Mul32(delay, TOLERANCE) / 100;
      var c := CentresOf(delay, CYCLES);
      var i := 1;
      while i < cc
        invariant 1 <= i <= cc + 2
        invariant ScanAsWritten(ts, cc, delay, tw, 1, 0) == ScanAsWritten(ts, cc, delay, tw, i, code)
        decreases cc - i
      {
        if Inside(timings[i], c.zeroFirst, tw) && Inside(timings[i + 1], c.zeroSecond, tw) {
          code := Shl(code);
        } else if timings[i] > Sub32(Mul32(delay, 3), tw) && timings[i] < Mul32(delay, tw)
          && Inside(timings[i + 1], delay, tw)
        {
          code := Add32(code, 1);
          code := Shl(code);
        } else {
          i := cc;
          code := 0;
        }
        i := i + 2;
      }
      code := code / 2;
    }

    /**
     * A repeat gap: drop it from the packet; on every second one decode
     * the packet and call the callback, whatever the code and however
     * short the packet; then start a new packet.
     */
    method CountRepeat()
      requires timings.Length == MAX_CHANGES
      requires 1 <= changeCount <= MAX_CHANGES && 0 <= repeatCount <= 1
      modifies this`changeCount, this`repeatCount, this`heard
      ensures changeCount == 0
      ensures repeatCount == if old(repeatCount) == 1 then 0 else old(repeatCount) + 1
      ensures heard ==
        if old(repeatCount) == 1 then old(heard) + [Callback(timings[..], old(changeCount) - 1)]
        else old(heard)
    {
      repeatCount := repeatCount + 1;
      changeCount := changeCount - 1;
      if repeatCount == 2 {
        var code, delay := DecodePacket(changeCount);
        heard := heard + [Heard(code, changeCount / 2, delay, timings[..])];
        repeatCount := 0;
      }
      changeCount := 0;
    }

    /** The first half of the handler: react to a long gap before the duration is stored. */
    method Separate(d: u32)
      requires Valid()
      modifies this`changeCount, this`repeatCount, this`heard
      ensures 0 <= repeatCount <= 2 && 0 <= changeCount <= MAX_CHANGES
      ensures IsRepeatGap(d, timings[0]) ==>
        changeCount == 0
        && repeatCount == (if old(repeatCount) == 1 then 0 else old(repeatCount) + 1)
        && heard ==
             if old(repeatCount) == 1 then old(heard) + [Callback(timings[..], old(changeCount) - 1)]
             else old(heard)
      ensures !IsRepeatGap(d, timings[0]) ==>
        changeCount == (if d > SEPARATION_LIMIT then 0 else old(changeCount))
        && repeatCount == old(repeatCount) && heard == old(heard)
    {
      if IsRepeatGap(d, timings[0]) {
        GapNeedsData(d);
        CountRepeat();
      } else if d > SEPARATION_LIMIT {
        changeCount := 0;
      }
    }

    /**
     * receiveInterrupt() at time `now`: store the duration of the level
     * that just ended; on a gap that repeats the one in slot 0, every
     * second time report the packet before it, then start a new packet; on
     * any other long gap start a new packet; on overflow start over.
     */
    method ReceiveInterrupt(now: u32)
      requires Valid()
      modifies this, timings
      ensures Valid()
      ensures lastTime == now
      ensures
        var d := Elapsed(old(lastTime), now);
        var ts := old(timings[..]);
        var gap := IsRepeatGap(d, ts[0]);
        var slot := if gap || d > SEPARATION_LIMIT || old(changeCount) >= MAX_CHANGES then 0 else old(changeCount);
        changeCount == slot + 1
        && timings[..] == ts[slot := d]
        && repeatCount ==
             (if gap then (if old(repeatCount) == 1 then 0 else old(repeatCount) + 1)
              else if d > SEPARATION_LIMIT then old(repeatCount)
              else if old(changeCount) >= MAX_CHANGES then 0
              else old(repeatCount))
        && heard ==
             if gap && old(repeatCount) == 1 then old(heard) + [Callback(ts, old(changeCount) - 1)]
             else old(heard)
    {
      var d := Sub32(now, lastTime);
      Separate(d);
      if changeCount >= MAX_CHANGES {
        changeCount := 0;
        repeatCount := 0;
      }
      timings[changeCount] := d;
      changeCount := changeCount + 1;
      lastTime := now;
    }
  }

  // ---------------------------------------------------------------- the transmitter

  /** The trace after sending `ps` on `pin`: nothing happens without a pin. */
  function Emitted(trace: seq<Pulse>, pin: int, ps: seq<Pulse>): (t: seq<Pulse>)
  {
    if pin == -1 then trace else trace + ps
  }

  /** Sending `a` and then `b` is sending `a + b`. */
  lemma EmittedConcat(trace: seq<Pulse>, pin: int, a: seq<Pulse>, b: seq<Pulse>)
    ensures Emitted(Emitted(trace, pin, a), pin, b) == Emitted(trace, pin, a + b)
  {
    if pin != -1 {
      assert trace + a + b == trace + (a + b);
    }
  }

  /** The pulses of each symbol: the trunk sends with the shapes of protocol 1 only. */
  function ShapesAt(pulseLength: int): (sh: Shapes)
    ensures sh.zero == Wave(pulseLength, 1, 3, true) && sh.one == Wave(pulseLength, 3, 1, true)
    ensures sh.sync == Wave(pulseLength, 1, 31, true)
    ensures sh.triZero == TriWave('0', pulseLength) && sh.triOne == TriWave('1', pulseLength)
    ensures sh.triFloat == TriWave('F', pulseLength)
  {
    MainSwitch.ShapesOf(1, pulseLength)
  }

  class RCSwitch {
    var transmitterPin: int
    var pulseLength: int
    var receiverInterrupt: int
    /** Every level the transmit pin was held at, oldest first. */
    var trace: seq<Pulse>
    /** The static buffer dec2binWzerofill() writes its digits into, the same array for every switch. */
    const bin: array<char>

    ghost predicate Valid()
      reads this
    {
      bin.Length == MainCodes.BUFFER
    }

    /** The effect of sending `ps`: on the pin, and not on the receiver interrupt. */
    twostate predicate Sent(ps: seq<Pulse>)
      reads this
    {
      receiverInterrupt == old(receiverInterrupt) && trace == Emitted(old(trace), transmitterPin, ps)
    }

    /** RCSwitch(): no receiver interrupt, no transmitter pin, 350 µs pulses; `bin` is the shared digit buffer. */
    constructor(bin: array<char>)
      requires bin.Length == MainCodes.BUFFER
      ensures Valid() && this.bin == bin
      ensures receiverInterrupt == -1 && transmitterPin == -1 && pulseLength == DEFAULT_PULSE_LENGTH
      ensures trace == []
    {
      receiverInterrupt := -1;
      transmitterPin := -1;
      pulseLength := 0;
      trace := [];
      this.bin := bin;
      new;
      SetPulseLength(DEFAULT_PULSE_LENGTH);
    }

    /** The deprecated RCSwitch(pin): only the transmitter pin is set; the source leaves the other fields uninitialised. */
    constructor WithPin(pin: int, bin: array<char>)
      requires bin.Length == MainCodes.BUFFER
      ensures Valid() && this.bin == bin
      ensures transmitterPin == pin && trace == []
    {
      receiverInterrupt := -1;
      pulseLength := 0;
      trace := [];
      this.bin := bin;
      new;
      EnableTransmit(pin);
    }

    /** The deprecated RCSwitch(pin, delay): the pulse length and the transmitter pin. */
    constructor WithPinAndDelay(pin: int, delay: int, bin: array<char>)
      requires bin.Length == MainCodes.BUFFER
      ensures Valid() && this.bin == bin
      ensures transmitterPin == pin && pulseLength == delay && trace == []
    {
      receiverInterrupt := -1;
      pulseLength := delay;
      trace := [];
      this.bin := bin;
      new;
      EnableTransmit(pin);
    }

    method SetPulseLength(n: int)
      modifies this`pulseLength
      ensures pulseLength == n
    {
      pulseLength := n;
    }

    method EnableTransmit(pin: int)
      modifies this`transmitterPin
      ensures transmitterPin == pin
    {
      transmitterPin := pin;
    }

    method DisableTransmit()
      modifies this`transmitterPin
      ensures transmitterPin == -1
    {
      transmitterPin := -1;
    }

    /** enableReceive(interrupt, callback): the handler runs on `interrupt`; the callback is the receiver's log. */
    method EnableReceive(interrupt: int)
      modifies this`receiverInterrupt
      ensures receiverInterrupt == interrupt
    {
      receiverInterrupt := interrupt;
    }

    method DisableReceive()
      modifies this`receiverInterrupt
      ensures receiverInterrupt == -1
    {
      receiverInterrupt := -1;
    }

    /** transmit(high, low): nothing without a transmitter pin; receiving is switched off around the pulse and back on after. */
    method Transmit(high: int, low: int)
      modifies this`trace, this`receiverInterrupt
      ensures Sent(Wave(pulseLength, high, low, true))
    {
      if transmitterPin != -1 {
        var rec := receiverInterrupt;
        if receiverInterrupt != -1 {
          DisableReceive();
        }
        trace := trace + Wave(pulseLength, high, low, true);
        if rec != -1 {
          EnableReceive(rec);
        }
      }
    }

    method Send0()
      modifies this`trace, this`receiverInterrupt
      ensures Sent(ShapesAt(pulseLength).zero)
    {
      Transmit(1, 3);
    }

    method Send1()
      modifies this`trace, this`receiverInterrupt
      ensures Sent(ShapesAt(pulseLength).one)
    {
      Transmit(3, 1);
    }

    method SendT0()
      modifies this`trace, this`receiverInterrupt
      ensures Sent(ShapesAt(pulseLength).triZero)
    {
      ghost var t0 := trace;
      Transmit(1, 3);
      Transmit(1, 3);
      EmittedConcat(t0, transmitterPin, Wave(pulseLength, 1, 3, true), Wave(pulseLength, 1, 3, true));
    }

    method SendT1()
      modifies this`trace, this`receiverInterrupt
      ensures Sent(ShapesAt(pulseLength).triOne)
    {
      ghost var t0 := trace;
      Transmit(3, 1);
      Transmit(3, 1);
      EmittedConcat(t0, transmitterPin, Wave(pulseLength, 3, 1, true), Wave(pulseLength, 3, 1, true));
    }

    method SendTF()
      modifies this`trace, this`receiverInterrupt
      ensures Sent(ShapesAt(pulseLength).triFloat)
    {
      ghost var t0 := trace;
      Transmit(1, 3);
      Transmit(3, 1);
      EmittedConcat(t0, transmitterPin, Wave(pulseLength, 1, 3, true), Wave(pulseLength, 3, 1, true));
    }

    method SendSync()
      modifies this`trace, this`receiverInterrupt
      ensures Sent(ShapesAt(pulseLength).sync)
    {
      Transmit(1, 31);
    }

    /** The switch on one character in sendTriState() or send(). */
    method SendSymbol(c: char, tristate: bool)
      modifies this`trace, this`receiverInterrupt
      ensures Sent(MainSwitch.SymbolWave(c, tristate, ShapesAt(pulseLength)))
    {
      if tristate {
        if c == '0' {
          SendT0();
        } else if c == 'F' {
          SendTF();
        } else if c == '1' {
          SendT1();
        }
      } else {
        if c == '0' {
          Send0();
        } else if c == '1' {
          Send1();
        }
      }
    }

    /** One round of sendTriState(): every character of the String, then the sync. */
    method SendTriStateRound(word: seq<char>)
      modifies this`trace, this`receiverInterrupt
      ensures Sent(MainSwitch.RoundWave(word, true, ShapesAt(pulseLength)))
    {
      ghost var t0 := trace;
      ghost var sh := ShapesAt(pulseLength);
      for i := 0 to |word|
        invariant Sent(MainSwitch.WordWave(word[..i], true, sh))
      {
        ghost var done := MainSwitch.WordWave(word[..i], true, sh);
        assert word[..i + 1] == word[..i] + [word[i]];
        MainSwitch.WordWaveSnoc(word[..i], word[i], true, sh);
        SendSymbol(word[i], true);
        EmittedConcat(t0, transmitterPin, done, MainSwitch.SymbolWave(word[i], true, sh));
      }
      assert word[..|word|] == word;
      SendSync();
      EmittedConcat(t0, transmitterPin, MainSwitch.WordWave(word, true, sh), sh.sync);
    }

    /** sendTriState(word): ten rounds of the word's tri-state symbols and a sync. */
    method SendTriState(word: seq<char>)
      modifies this`trace, this`receiverInterrupt
      ensures Sent(MainSwitch.SendWave(word, true, ShapesAt(pulseLength), REPEATS))
    {
      ghost var t0 := trace;
      ghost var round := MainSwitch.RoundWave(word, true, ShapesAt(pulseLength));
      for r := 0 to REPEATS
        invariant Sent(Repeat(round, r))
      {
        SendTriStateRound(word);
        EmittedConcat(t0, transmitterPin, Repeat(round, r), round);
      }
    }

    /** The inner loop of send(word): the characters before the NUL as bits. */
    method SendBits(word: array<char>)
      requires '\0' in word[..]
      modifies this`trace, this`receiverInterrupt
      ensures Sent(MainSwitch.WordWave(CStr(word[..]), false, ShapesAt(pulseLength)))
    {
      ghost var t0 := trace;
      ghost var sh := ShapesAt(pulseLength);
      ghost var w := CStr(word[..]);
      ghost var z := |w|;
      MainSwitch.CStrBefore(word[..]);
      var i := 0;
      while word[i] != '\0'
        invariant 0 <= i <= z
        invariant Sent(MainSwitch.WordWave(word[..i], false, sh))
        decreases z - i
      {
        ghost var done := MainSwitch.WordWave(word[..i], false, sh);
        assert word[..i + 1] == word[..i] + [word[i]];
        MainSwitch.WordWaveSnoc(word[..i], word[i], false, sh);
        SendSymbol(word[i], false);
        EmittedConcat(t0, transmitterPin, done, MainSwitch.SymbolWave(word[i], false, sh));
        i := i + 1;
      }
      assert word[..i] == w;
    }

    /** One round of send(word): the bits, then the sync. */
    method SendRound(word: array<char>)
      requires '\0' in word[..]
      modifies this`trace, this`receiverInterrupt
      ensures Sent(MainSwitch.RoundWave(CStr(word[..]), false, ShapesAt(pulseLength)))
    {
      ghost var t0 := trace;
      SendBits(word);
      SendSync();
      EmittedConcat(t0, transmitterPin, MainSwitch.WordWave(CStr(word[..]), false, ShapesAt(pulseLength)),
                    ShapesAt(pulseLength).sync);
    }

    /** send(word): ten rounds of the C string's bits and a sync. */
    method Send(word: array<char>)
      requires '\0' in word[..]
      modifies this`trace, this`receiverInterrupt
      ensures Sent(MainSwitch.SendWave(CStr(word[..]), false, ShapesAt(pulseLength), REPEATS))
    {
      ghost var t0 := trace;
      ghost var round := MainSwitch.RoundWave(CStr(word[..]), false, ShapesAt(pulseLength));
      for r := 0 to REPEATS
        invariant Sent(Repeat(round, r))
      {
        SendRound(word);
        EmittedConcat(t0, transmitterPin, Repeat(round, r), round);
      }
    }

    /**
     * send(code, length): dec2binWzerofill() runs once for the serial
     * output and once more for the send, both times into the static
     * buffer; the word sent is what the second run leaves there
     * (MainSwitch.SendCodeWord says which digits that is, whatever the
     * buffer held).
     */
    method SendCode(code: u32, length: nat)
      requires Valid() && length < MainCodes.BUFFER
      modifies bin, this`trace, this`receiverInterrupt
      ensures bin[..] == MainCodes.CharFillBuffer(MainCodes.CharFillBuffer(old(bin[..]), code, length, '0'), code, length, '0')
      ensures Sent(MainSwitch.SendWave(CStr(bin[..]), false, ShapesAt(pulseLength), REPEATS))
    {
      MainCodes.Dec2BinWzerofill(bin, code, length);
      MainCodes.Dec2BinWzerofill(bin, code, length);
      assert bin[length] == '\0';
      Send(bin);
    }
  }
}
