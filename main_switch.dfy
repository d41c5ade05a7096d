/**
 * The transmitting side of the main RCSwitch object: its settings
 * (protocol, pulse length, repeat count, transmitter pin), the pulses
 * transmit() drives onto the pin, the bit, tri-state and sync shapes of the
 * three hard-coded protocols, and the senders that turn a code word into
 * repeated rounds of pulses. The receive state the object shares with the
 * interrupt handler and with every other switch is the `Receiver` object
 * `rx`, and the static buffer of dec2binWcharfill() is the array `bin`;
 * both are given to the constructor.
 *
 * Every level the pin is held at is recorded, in order, in `trace`.
 */
module MainSwitch {
  import opened Common
  import opened MainHeader
  import opened MainCodes
  import opened MainReceiver

  // ---------------------------------------------------------------------
  // Waveforms
  // ---------------------------------------------------------------------

  /**
   * The three protocols the sender hard-codes, written as the descriptors
   * of the header: default pulse length, sync, zero and one pulses, never
   * inverted and without latch.
   */
  function Descriptor(p: int): (d: Protocol)
    requires 1 <= p <= 3
    ensures !d.invertedSignal && d.latch == HighLow(0, 0)
    ensures d.zero.high + d.zero.low == d.one.high + d.one.low
  {
    if p == 1 then Protocol(350, HighLow(1, 31), HighLow(1, 3), HighLow(3, 1), false, HighLow(0, 0))
    else if p == 2 then Protocol(650, HighLow(1, 10), HighLow(1, 2), HighLow(2, 1), false, HighLow(0, 0))
    else Protocol(100, HighLow(1, 71), HighLow(4, 11), HighLow(9, 6), false, HighLow(0, 0))
  }

  /** send0 and send1: the protocol's bit pulse; nothing for a protocol other than 1, 2 and 3. */
  function BitWave(bit: bool, protocol: int, pulseLength: int): seq<Pulse>
  {
    if protocol == 1 then (if bit then Wave(pulseLength, 3, 1, true) else Wave(pulseLength, 1, 3, true))
    else if protocol == 2 then (if bit then Wave(pulseLength, 2, 1, true) else Wave(pulseLength, 1, 2, true))
    else if protocol == 3 then (if bit then Wave(pulseLength, 9, 6, true) else Wave(pulseLength, 4, 11, true))
    else []
  }

  /** sendSync: the protocol's sync pulse; nothing for a protocol other than 1, 2 and 3. */
  function SyncWave(protocol: int, pulseLength: int): seq<Pulse>
  {
    if protocol == 1 then Wave(pulseLength, 1, 31, true)
    else if protocol == 2 then Wave(pulseLength, 1, 10, true)
    else if protocol == 3 then Wave(pulseLength, 1, 71, true)
    else []
  }

  /** The hard-coded pulses are the expansions of the descriptors, at any pulse length. */
  lemma ShapesAreDescriptors(p: int, pulseLength: int)
    requires 1 <= p <= 3
    ensures BitWave(false, p, pulseLength) == Expand(Descriptor(p).zero, pulseLength, false)
    ensures BitWave(true, p, pulseLength) == Expand(Descriptor(p).one, pulseLength, false)
    ensures SyncWave(p, pulseLength) == Expand(Descriptor(p).syncFactor, pulseLength, false)
  {
  }

  function ShapesOf(protocol: int, pulseLength: int): Shapes
  {
    Shapes(BitWave(false, protocol, pulseLength), BitWave(true, protocol, pulseLength),
           TriWave('0', pulseLength), TriWave('1', pulseLength), TriWave('F', pulseLength),
           SyncWave(protocol, pulseLength))
  }

  /**
   * What the senders emit for one character: in tri-state mode '0', 'F'
   * and '1' as tri-state symbols, in binary mode '0' and '1' as bits, and
   * nothing for any other character.
   */
  function SymbolWave(c: char, tristate: bool, sh: Shapes): seq<Pulse>
  {
    if c == '0' then (if tristate then sh.triZero else sh.zero)
    else if c == '1' then (if tristate then sh.triOne else sh.one)
    else if c == 'F' && tristate then sh.triFloat
    else []
  }

  function WordWave(w: seq<char>, tristate: bool, sh: Shapes): seq<Pulse>
  {
    if w == [] then []
    else WordWave(w[..|w| - 1], tristate, sh) + SymbolWave(w[|w| - 1], tristate, sh)
  }

  /** One round: the word, then the sync. */
  function RoundWave(w: seq<char>, tristate: bool, sh: Shapes): seq<Pulse>
  {
    WordWave(w, tristate, sh) + sh.sync
  }

  /** Everything send() or sendTriState() emits for the C string `w`: `repeat` rounds. */
  function SendWave(w: seq<char>, tristate: bool, sh: Shapes, repeat: int): seq<Pulse>
  {
    Repeat(RoundWave(w, tristate, sh), repeat)
  }

  /** The time one bit of protocol `p` takes: the zero pulse of its descriptor. */
  function BitPeriod(p: int, pulseLength: int): int
    requires 1 <= p <= 3
  {
    pulseLength * (Descriptor(p).zero.high + Descriptor(p).zero.low)
  }

  /** In every protocol a '0' and a '1' last one bit period. */
  lemma BitDuration(p: int, pulseLength: int)
    requires 1 <= p <= 3
    ensures Duration(BitWave(false, p, pulseLength)) == BitPeriod(p, pulseLength)
    ensures Duration(BitWave(true, p, pulseLength)) == BitPeriod(p, pulseLength)
  {
    var d := Descriptor(p);
    ShapesAreDescriptors(p, pulseLength);
    WaveDuration(pulseLength, d.zero.high, d.zero.low, true);
    WaveDuration(pulseLength, d.one.high, d.one.low, true);
  }

  lemma MulStep(n: int, b: int)
    ensures (n - 1) * b + b == n * b
  {
  }

  /** So a binary word lasts its length times one bit period, whatever its digits. */
  lemma {:induction false} WordDuration(w: seq<char>, p: int, pulseLength: int)
    requires 1 <= p <= 3
    requires forall i :: 0 <= i < |w| ==> w[i] == '0' || w[i] == '1'
    ensures Duration(WordWave(w, false, ShapesOf(p, pulseLength))) == |w| * BitPeriod(p, pulseLength)
  {
    if w != [] {
      var n := |w|;
      var c := w[n - 1];
      var bit := SymbolWave(c, false, ShapesOf(p, pulseLength));
      WordDuration(w[..n - 1], p, pulseLength);
      DurationConcat(WordWave(w[..n - 1], false, ShapesOf(p, pulseLength)), bit);
      BitDuration(p, pulseLength);
      assert bit == BitWave(c == '1', p, pulseLength);
      assert Duration(bit) == BitPeriod(p, pulseLength);
      MulStep(n, BitPeriod(p, pulseLength));
    }
  }

  /** Appending one character appends its symbol's pulses. */
  lemma WordWaveSnoc(a: seq<char>, c: char, tristate: bool, sh: Shapes)
    ensures WordWave(a + [c], tristate, sh)
         == WordWave(a, tristate, sh) + SymbolWave(c, tristate, sh)
  {
    assert (a + [c])[..|a|] == a;
  }

  lemma {:induction false} WordWaveConcat(a: seq<char>, b: seq<char>, tristate: bool, sh: Shapes)
    ensures WordWave(a + b, tristate, sh)
         == WordWave(a, tristate, sh) + WordWave(b, tristate, sh)
    decreases |b|
  {
    if b == [] {
      assert a + b == a;
    } else {
      var b', c := b[..|b| - 1], b[|b| - 1];
      calc {
        WordWave(a + b, tristate, sh);
        == { assert a + b == (a + b') + [c]; }
        WordWave((a + b') + [c], tristate, sh);
        == { WordWaveSnoc(a + b', c, tristate, sh); }
        WordWave(a + b', tristate, sh) + SymbolWave(c, tristate, sh);
        == { WordWaveConcat(a, b', tristate, sh); }
        WordWave(a, tristate, sh) + WordWave(b', tristate, sh)
          + SymbolWave(c, tristate, sh);
        == { WordWaveSnoc(b', c, tristate, sh); assert b' + [c] == b; }
        WordWave(a, tristate, sh) + WordWave(b, tristate, sh);
      }
    }
  }

  /** Under protocol 1 the tri-state symbols are pairs of bits. */
  lemma TriShapes(pulseLength: int)
    ensures var sh := ShapesOf(1, pulseLength);
      sh.triZero == sh.zero + sh.zero && sh.triOne == sh.one + sh.one && sh.triFloat == sh.zero + sh.one
  {
  }

  /** The pulses of the two-character binary word `TriPair(c)` under protocol 1. */
  lemma TriPairWave(c: char, pulseLength: int)
    requires c != 'f'
    ensures WordWave(TriPair(c), false, ShapesOf(1, pulseLength)) == SymbolWave(c, true, ShapesOf(1, pulseLength))
  {
    var sh := ShapesOf(1, pulseLength);
    TriShapes(pulseLength);
    if c == '0' || c == '1' || c == 'F' {
      var x, y := TriPair(c)[0], TriPair(c)[1];
      assert TriPair(c) == [x] + [y];
      WordWaveSnoc([], x, false, sh);
      WordWaveSnoc([x], y, false, sh);
      assert [] + [x] == [x];
    }
  }

  /**
   * Under protocol 1 a tri-state word is sent exactly as the binary word
   * that spells each of its symbols as two bits ('0' as "00", '1' as "11",
   * 'F' as "01").
   */
  lemma {:induction false} TriStateIsBinary(w: seq<char>, pulseLength: int)
    requires 'f' !in w
    ensures WordWave(w, true, ShapesOf(1, pulseLength)) == WordWave(TriBits(w), false, ShapesOf(1, pulseLength))
  {
    if w != [] {
      var sh := ShapesOf(1, pulseLength);
      var w', c := w[..|w| - 1], w[|w| - 1];
      assert w == w' + [c];
      WordWaveSnoc(w', c, true, sh);
      TriStateIsBinary(w', pulseLength);
      TriPairWave(c, pulseLength);
      WordWaveConcat(TriBits(w'), TriPair(c), false, sh);
    }
  }

  /** A buffer holding a NUL keeps its C string in front of the first NUL. */
  lemma CStrBefore(s: seq<char>)
    requires '\0' in s
    ensures |CStr(s)| < |s| && CStr(s) == s[..|CStr(s)|] && s[|CStr(s)|] == '\0'
  {
  }

  /** A buffer whose first `n` characters are not NUL and whose character `n` is NUL holds those `n` characters as its C string. */
  lemma {:induction false} CStrPrefix(s: seq<char>, n: nat)
    requires n < |s| && s[n] == '\0'
    requires forall i :: 0 <= i < n ==> s[i] != '\0'
    ensures CStr(s) == s[..n]
  {
    if n > 0 {
      CStrPrefix(s[1..], n - 1);
      assert s[..n] == [s[0]] + s[1..][..n - 1];
    }
  }

  /**
   * What send(code, length) sends when the code fits: the `length` low bits
   * of `code`, most significant first; a code that needs more digits than
   * `length` is sent as `length` zeros.
   */
  lemma SendCodeWord(buf: seq<char>, code: u32, length: nat)
    requires |buf| == BUFFER && length <= 33
    ensures code < Pow2(length) ==> CStr(CharFillBuffer(buf, code, length, '0')) == Digits(code, length, '0')
    ensures code >= Pow2(length) ==> CStr(CharFillBuffer(buf, code, length, '0')) == seq(length, _ => '0')
  {
    var r := CharFillBuffer(buf, code, length, '0');
    CharFillDigits(buf, code, length, '0');
    forall i | 0 <= i < length
      ensures r[i] != '\0'
    {
      assert r[i] == if code < Pow2(length) then Digits(code, length, '0')[i] else '0';
    }
    CStrPrefix(r, length);
    if code >= Pow2(length) {
      assert r[..length] == seq(length, _ => '0');
    }
  }

  // ---------------------------------------------------------------------
  // The switch object
  // ---------------------------------------------------------------------

  class RCSwitch {
    var transmitterPin: int
    var protocol: int
    var pulseLength: int
    var repeatTransmit: int
    var receiverInterrupt: int
    /** Every level the transmit pin was held at, oldest first. */
    var trace: seq<Pulse>
    /** The receive state shared with the interrupt handler. */
    const rx: Receiver
    /** The static buffer dec2binWcharfill() writes its digits into. */
    const bin: array<char>

    ghost predicate Valid()
      reads this, rx, rx.timings
    {
      rx.Valid() && bin.Length == BUFFER
    }

    /** The pulses sent so far and the last received value and bit length. */
    function Now(): Air
      reads this, rx
    {
      Air(trace, (rx.receivedValue, rx.receivedBitlength))
    }

    /** The effect of sending `ps`: on the pin, on the receive state, and not on the receiver interrupt. */
    twostate predicate Sent(ps: seq<Pulse>)
      reads this, rx
    {
      receiverInterrupt == old(receiverInterrupt)
      && Now() == Emit(old(Now()), transmitterPin, receiverInterrupt, ps)
    }

    /**
     * RCSwitch(): no transmitter pin, protocol 1 at 350 µs, 10 repeats, no
     * receiver interrupt. The receive state and the buffer of
     * dec2binWcharfill() are statics that every switch shares, so they are
     * passed in rather than created: constructing a switch sets the shared
     * tolerance back to 60 percent and clears the shared received value,
     * whatever another switch had set.
     */
    constructor(rx: Receiver, bin: array<char>)
      requires rx.Valid() && bin.Length == BUFFER
      modifies rx`tolerance, rx`receivedValue
      ensures this.rx == rx && this.bin == bin && Valid()
      ensures transmitterPin == -1 && receiverInterrupt == -1
      ensures protocol == 1 && pulseLength == Descriptor(1).pulseLength && repeatTransmit == 10
      ensures trace == []
      ensures rx.tolerance == DEFAULT_TOLERANCE && !rx.Available()
    {
      transmitterPin := -1;
      protocol := 0;
      pulseLength := 0;
      repeatTransmit := 0;
      receiverInterrupt := -1;
      trace := [];
      this.rx := rx;
      this.bin := bin;
      new;
      SetPulseLength(350);
      SetRepeatTransmit(10);
      SetProtocol(1);
      rx.SetReceiveTolerance(DEFAULT_TOLERANCE);
      rx.receivedValue := 0;
    }

    /** setProtocol(n): select protocol `n`; protocols 1, 2 and 3 also select their default pulse length. */
    method SetProtocol(n: int)
      modifies this`protocol, this`pulseLength
      ensures protocol == n
      ensures pulseLength == if 1 <= n <= 3 then Descriptor(n).pulseLength else old(pulseLength)
    {
      protocol := n;
      if n == 1 {
        SetPulseLength(350);
      } else if n == 2 {
        SetPulseLength(650);
      } else if n == 3 {
        SetPulseLength(100);
      }
    }

    /** setProtocol(n, pulseLength): both, whatever `n` is. */
    method SetProtocolWith(n: int, pulse: int)
      modifies this`protocol, this`pulseLength
      ensures protocol == n && pulseLength == pulse
    {
      protocol := n;
      SetPulseLength(pulse);
    }

    method SetPulseLength(n: int)
      modifies this`pulseLength
      ensures pulseLength == n
    {
      pulseLength := n;
    }

    method SetRepeatTransmit(n: int)
      modifies this`repeatTransmit
      ensures repeatTransmit == n
    {
      repeatTransmit := n;
    }

    method SetReceiveTolerance(percent: int)
      modifies rx`tolerance
      ensures rx.tolerance == percent
    {
      rx.SetReceiveTolerance(percent);
    }

    method EnableTransmit(pin: int)
      modifies this`transmitterPin
      ensures transmitterPin == pin
    {
      transmitterPin := pin;
    }

    method DisableTransmit()
      modifies this`transmitterPin
      ensures transmitterPin == -1
    {
      transmitterPin := -1;
    }

    /** enableReceive(): with an interrupt configured, clear the last received value and bit length. */
    method EnableReceive()
      modifies rx`receivedValue, rx`receivedBitlength
      ensures Now() == if receiverInterrupt != -1 then old(Now()).(heard := (0, 0)) else old(Now())
    {
      if receiverInterrupt != -1 {
        rx.receivedValue := 0;
        rx.receivedBitlength := 0;
      }
    }

    /** enableReceive(interrupt). */
    method EnableReceiveOn(interrupt: int)
      modifies this`receiverInterrupt, rx`receivedValue, rx`receivedBitlength
      ensures receiverInterrupt == interrupt
      ensures Now() == if interrupt != -1 then old(Now()).(heard := (0, 0)) else old(Now())
    {
      receiverInterrupt := interrupt;
      EnableReceive();
    }

    method DisableReceive()
      modifies this`receiverInterrupt
      ensures receiverInterrupt == -1
    {
      receiverInterrupt := -1;
    }

    method Available() returns (b: bool)
      ensures b <==> rx.Available()
    {
      b := rx.receivedValue != 0;
    }

    method ResetAvailable()
      modifies rx`receivedValue
      ensures !rx.Available()
      ensures rx.Published() == old(rx.Published()).(value := 0)
    {
      rx.ResetAvailable();
    }

    /** transmit(high, low): nothing without a transmitter pin; receiving is switched off around the pulse and back on after. */
    method Transmit(high: int, low: int)
      modifies this`trace, this`receiverInterrupt, rx`receivedValue, rx`receivedBitlength
      ensures Sent(Wave(pulseLength, high, low, true))
    {
      var disabled := false;
      var backup := receiverInterrupt;
      if transmitterPin != -1 {
        if receiverInterrupt != -1 {
          DisableReceive();
          disabled := true;
        }
        trace := trace + Wave(pulseLength, high, low, true);
        if disabled {
          EnableReceiveOn(backup);
        }
      }
    }

    method Send0()
      modifies this`trace, this`receiverInterrupt, rx`receivedValue, rx`receivedBitlength
      ensures Sent(BitWave(false, protocol, pulseLength))
    {
      if protocol == 1 {
        Transmit(1, 3);
      } else if protocol == 2 {
        Transmit(1, 2);
      } else if protocol == 3 {
        Transmit(4, 11);
      }
    }

    method Send1()
      modifies this`trace, this`receiverInterrupt, rx`receivedValue, rx`receivedBitlength
      ensures Sent(BitWave(true, protocol, pulseLength))
    {
      if protocol == 1 {
        Transmit(3, 1);
      } else if protocol == 2 {
        Transmit(2, 1);
      } else if protocol == 3 {
        Transmit(9, 6);
      }
    }

    method SendT0()
      modifies this`trace, this`receiverInterrupt, rx`receivedValue, rx`receivedBitlength
      ensures Sent(TriWave('0', pulseLength))
    {
      ghost var s0 := Now();
      Transmit(1, 3);
      Transmit(1, 3);
      EmitConcat(s0, transmitterPin, receiverInterrupt, Wave(pulseLength, 1, 3, true), Wave(pulseLength, 1, 3, true));
    }

    method SendT1()
      modifies this`trace, this`receiverInterrupt, rx`receivedValue, rx`receivedBitlength
      ensures Sent(TriWave('1', pulseLength))
    {
      ghost var s0 := Now();
      Transmit(3, 1);
      Transmit(3, 1);
      EmitConcat(s0, transmitterPin, receiverInterrupt, Wave(pulseLength, 3, 1, true), Wave(pulseLength, 3, 1, true));
    }

    method SendTF()
      modifies this`trace, this`receiverInterrupt, rx`receivedValue, rx`receivedBitlength
      ensures Sent(TriWave('F', pulseLength))
    {
      ghost var s0 := Now();
      Transmit(1, 3);
      Transmit(3, 1);
      EmitConcat(s0, transmitterPin, receiverInterrupt, Wave(pulseLength, 1, 3, true), Wave(pulseLength, 3, 1, true));
    }

    method SendSync()
      modifies this`trace, this`receiverInterrupt, rx`receivedValue, rx`receivedBitlength
      ensures Sent(SyncWave(protocol, pulseLength))
    {
      if protocol == 1 {
        Transmit(1, 31);
      } else if protocol == 2 {
        Transmit(1, 10);
      } else if protocol == 3 {
        Transmit(1, 71);
      }
    }

    /** The switch on one character in sendTriState() or send(). */
    method SendSymbol(c: char, tristate: bool)
      modifies this`trace, this`receiverInterrupt, rx`receivedValue, rx`receivedBitlength
      ensures Sent(SymbolWave(c, tristate, ShapesOf(protocol, pulseLength)))
    {
      if tristate {
        if c == '0' {
          SendT0();
        } else if c == 'F' {
          SendTF();
        } else if c == '1' {
          SendT1();
        }
      } else {
        if c == '0' {
          Send0();
        } else if c == '1' {
          Send1();
        }
      }
    }

    /** The inner loop of the senders: the characters before the NUL, without the sync. */
    method SendWord(word: array<char>, tristate: bool)
      requires '\0' in word[..]
      modifies this`trace, this`receiverInterrupt, rx`receivedValue, rx`receivedBitlength
      ensures Sent(WordWave(CStr(word[..]), tristate, ShapesOf(protocol, pulseLength)))
    {
      ghost var s0 := Now();
      ghost var sh := ShapesOf(protocol, pulseLength);
      ghost var w := CStr(word[..]);
      ghost var z := |w|;
      CStrBefore(word[..]);
      var i := 0;
      while word[i] != '\0'
        invariant 0 <= i <= z
        invariant Sent(WordWave(word[..i], tristate, sh))
        decreases z - i
      {
        ghost var done := WordWave(word[..i], tristate, sh);
        ghost var next := SymbolWave(word[i], tristate, sh);
        assert word[..i + 1] == word[..i] + [word[i]];
        WordWaveSnoc(word[..i], word[i], tristate, sh);
        SendSymbol(word[i], tristate);
        EmitConcat(s0, transmitterPin, receiverInterrupt, done, next);
        i := i + 1;
      }
      assert i == z;
      assert word[..i] == w;
    }

    /** One pass of the outer loop of the senders: the word, then the sync. */
    method SendRound(word: array<char>, tristate: bool)
      requires '\0' in word[..]
      modifies this`trace, this`receiverInterrupt, rx`receivedValue, rx`receivedBitlength
      ensures Sent(RoundWave(CStr(word[..]), tristate, ShapesOf(protocol, pulseLength)))
    {
      ghost var s0 := Now();
      SendWord(word, tristate);
      SendSync();
      EmitConcat(s0, transmitterPin, receiverInterrupt,
                 WordWave(CStr(word[..]), tristate, ShapesOf(protocol, pulseLength)), SyncWave(protocol, pulseLength));
    }

    /** The repeat loop both senders share: `repeatTransmit` rounds. */
    method SendRounds(word: array<char>, tristate: bool)
      requires '\0' in word[..]
      modifies this`trace, this`receiverInterrupt, rx`receivedValue, rx`receivedBitlength
      ensures Sent(SendWave(CStr(word[..]), tristate, ShapesOf(protocol, pulseLength), repeatTransmit))
    {
      ghost var s0 := Now();
      ghost var round := RoundWave(CStr(word[..]), tristate, ShapesOf(protocol, pulseLength));
      var r := 0;
      while r < repeatTransmit
        invariant 0 <= r && (r <= repeatTransmit || r == 0)
        invariant Sent(Repeat(round, r))
      {
        SendRound(word, tristate);
        EmitConcat(s0, transmitterPin, receiverInterrupt, Repeat(round, r), round);
        r := r + 1;
      }
    }

    /** sendTriState(word): '0', 'F' and '1' as tri-state symbols. */
    method SendTriState(word: array<char>)
      requires '\0' in word[..]
      modifies this`trace, this`receiverInterrupt, rx`receivedValue, rx`receivedBitlength
      ensures Sent(SendWave(CStr(word[..]), true, ShapesOf(protocol, pulseLength), repeatTransmit))
    {
      SendRounds(word, true);
    }

    /** send(word): '0' and '1' as bits of the current protocol. */
    method Send(word: array<char>)
      requires '\0' in word[..]
      modifies this`trace, this`receiverInterrupt, rx`receivedValue, rx`receivedBitlength
      ensures Sent(SendWave(CStr(word[..]), false, ShapesOf(protocol, pulseLength), repeatTransmit))
    {
      SendRounds(word, false);
    }

    /**
     * send(code, length): the digits dec2binWzerofill() leaves in the static
     * buffer, sent as a binary word (`SendCodeWord` says which digits).
     */
    method SendCode(code: u32, length: nat)
      requires bin.Length == BUFFER && length < BUFFER
      modifies bin, this`trace, this`receiverInterrupt, rx`receivedValue, rx`receivedBitlength
      ensures bin[..] == CharFillBuffer(old(bin[..]), code, length, '0')
      ensures Sent(SendWave(CStr(bin[..]), false, ShapesOf(protocol, pulseLength), repeatTransmit))
    {
      Dec2BinWzerofill(bin, code, length);
      assert bin[length] == '\0';
      Send(bin);
    }
  }

  /**
   * Two switches over the same statics: a tolerance the first one sets is
   * overwritten when the second one is constructed.
   */
  method SecondSwitchResetsTolerance(rx: Receiver, bin: array<char>, tolerance: int) returns (first: RCSwitch, second: RCSwitch)
    requires rx.Valid() && bin.Length == BUFFER
    modifies rx`tolerance, rx`receivedValue
    ensures first.rx == rx && second.rx == rx && first.bin == bin && second.bin == bin
    ensures first.rx.tolerance == DEFAULT_TOLERANCE && !first.rx.Available()
  {
    first := new RCSwitch(rx, bin);
    first.SetReceiveTolerance(tolerance);
    second := new RCSwitch(rx, bin);
  }
}
