/**
 * The transmitting side of the raspberry-quigg RCSwitch object: its
 * settings (protocol, pulse length, repeat count, the save/load pair of the
 * auto-change mode), the pulses `transmit` drives onto the pin, the bit,
 * tri-state and sync shapes built from them, and the senders that turn a
 * code word into repeated rounds of pulses. The receive state it shares
 * with the interrupt handler and with every other switch is the `Receiver`
 * object `rx`, given to the constructor.
 *
 * Every level the pin is held at is recorded, in order, in `trace`; the
 * waveform functions below say which pulses each sender appends.
 */
module QuiggSwitch {
  import opened Common
  import opened QuiggHeader
  import opened QuiggCodes
  import opened QuiggReceiver

  // ---------------------------------------------------------------------
  // Waveforms
  // ---------------------------------------------------------------------

  /** send0 and send1: the table row of the current protocol (the dummy row for TYPE_UNDEF). */
  function BitWave(bit: bool, protocol: int, pulseLength: int): seq<Pulse>
    requires IsProtocol(protocol)
  {
    var t := TimingOf(protocol);
    if bit then Wave(pulseLength, t.oneFirst, t.oneSecond, t.highFirst)
    else Wave(pulseLength, t.zeroFirst, t.zeroSecond, t.highFirst)
  }

  /** sendSync: protocol D only drops the pin; the dummy protocol sends nothing. */
  function SyncWave(protocol: int, pulseLength: int): seq<Pulse>
  {
    if protocol == TYPE_A then Wave(pulseLength, 1, 31, true)
    else if protocol == TYPE_B then Wave(pulseLength, 1, 10, true)
    else if protocol == TYPE_C then Wave(pulseLength, 4, 71, true)
    else if protocol == TYPE_D then Wave(pulseLength, 0, 1, true)
    else []
  }

  /** The shapes of this version's symbols, for one protocol and pulse length. */
  function ShapesOf(protocol: int, pulseLength: int): Shapes
    requires IsProtocol(protocol)
  {
    Shapes(BitWave(false, protocol, pulseLength), BitWave(true, protocol, pulseLength),
           TriWave('0', pulseLength), TriWave('1', pulseLength), TriWave('F', pulseLength),
           SyncWave(protocol, pulseLength))
  }

  /** What `send` emits for one character: '0'/'1' as bits or tri-state bits, 'F'/'f' only in tri-state mode, nothing for any other character. */
  function SymbolWave(c: char, tristate: bool, sh: Shapes): seq<Pulse>
  {
    if c == '0' then (if tristate then sh.triZero else sh.zero)
    else if c == '1' then (if tristate then sh.triOne else sh.one)
    else if (c == 'F' || c == 'f') && tristate then sh.triFloat
    else []
  }

  function WordWave(w: seq<char>, tristate: bool, sh: Shapes): seq<Pulse>
  {
    if w == [] then []
    else WordWave(w[..|w| - 1], tristate, sh) + SymbolWave(w[|w| - 1], tristate, sh)
  }

  /** One round of `send`: the word, then the sync. */
  function RoundWave(w: seq<char>, tristate: bool, sh: Shapes): seq<Pulse>
  {
    WordWave(w, tristate, sh) + sh.sync
  }

  /** Everything `send` emits for the C string `w`: `repeat` rounds. */
  function SendWave(w: seq<char>, tristate: bool, sh: Shapes, repeat: int): seq<Pulse>
  {
    Repeat(RoundWave(w, tristate, sh), repeat)
  }

  /** The time one bit of `protocol` takes. */
  function BitPeriod(protocol: int, pulseLength: int): int
    requires IsProtocol(protocol)
  {
    var t := TimingOf(protocol);
    pulseLength * (t.zeroFirst + t.zeroSecond)
  }

  /** In every real protocol a '0' and a '1' take equally long. */
  lemma BitDuration(protocol: int, pulseLength: int)
    requires TYPE_A <= protocol <= TYPE_D
    ensures Duration(ShapesOf(protocol, pulseLength).zero) == BitPeriod(protocol, pulseLength)
    ensures Duration(ShapesOf(protocol, pulseLength).one) == BitPeriod(protocol, pulseLength)
  {
    var t := TimingOf(protocol);
    BitShapes(protocol);
    WaveDuration(pulseLength, t.oneFirst, t.oneSecond, t.highFirst);
    WaveDuration(pulseLength, t.zeroFirst, t.zeroSecond, t.highFirst);
  }

  lemma MulStep(n: int, b: int)
    ensures (n - 1) * b + b == n * b
  {
  }

  /** So a binary word lasts its length times one bit period, whatever its digits. */
  lemma {:induction false} WordDuration(w: seq<char>, protocol: int, pulseLength: int)
    requires TYPE_A <= protocol <= TYPE_D
    requires forall i :: 0 <= i < |w| ==> w[i] == '0' || w[i] == '1'
    ensures Duration(WordWave(w, false, ShapesOf(protocol, pulseLength))) == |w| * BitPeriod(protocol, pulseLength)
  {
    if w != [] {
      var n := |w|;
      var sh := ShapesOf(protocol, pulseLength);
      var c := w[n - 1];
      var bit := SymbolWave(c, false, sh);
      WordDuration(w[..n - 1], protocol, pulseLength);
      DurationConcat(WordWave(w[..n - 1], false, sh), bit);
      BitDuration(protocol, pulseLength);
      assert Duration(bit) == BitPeriod(protocol, pulseLength);
      MulStep(n, BitPeriod(protocol, pulseLength));
    }
  }

  /** Appending one character appends its symbol's pulses. */
  lemma WordWaveSnoc(a: seq<char>, c: char, tristate: bool, sh: Shapes)
    ensures WordWave(a + [c], tristate, sh) == WordWave(a, tristate, sh) + SymbolWave(c, tristate, sh)
  {
    assert (a + [c])[..|a|] == a;
  }

  lemma {:induction false} WordWaveConcat(a: seq<char>, b: seq<char>, tristate: bool, sh: Shapes)
    ensures WordWave(a + b, tristate, sh) == WordWave(a, tristate, sh) + WordWave(b, tristate, sh)
    decreases |b|
  {
    if b == [] {
      assert a + b == a;
    } else {
      var b', c := b[..|b| - 1], b[|b| - 1];
      calc {
        WordWave(a + b, tristate, sh);
        == { assert a + b == (a + b') + [c]; }
        WordWave((a + b') + [c], tristate, sh);
        == { WordWaveSnoc(a + b', c, tristate, sh); }
        WordWave(a + b', tristate, sh) + SymbolWave(c, tristate, sh);
        == { WordWaveConcat(a, b', tristate, sh); }
        WordWave(a, tristate, sh) + WordWave(b', tristate, sh) + SymbolWave(c, tristate, sh);
        == { WordWaveSnoc(b', c, tristate, sh); assert b' + [c] == b; }
        WordWave(a, tristate, sh) + WordWave(b, tristate, sh);
      }
    }
  }

  lemma WordWavePair(x: char, y: char, tristate: bool, sh: Shapes)
    ensures WordWave([x, y], tristate, sh) == SymbolWave(x, tristate, sh) + SymbolWave(y, tristate, sh)
  {
    WordWaveSnoc([], x, tristate, sh);
    WordWaveSnoc([x], y, tristate, sh);
    assert [x, y] == [x] + [y] && [x] == [] + [x];
  }

  /** The pulses of the two-character word `TriPair(c)`. */
  lemma TriPairWave(c: char, sh: Shapes)
    ensures WordWave(TriPair(c), false, sh)
         == if c == '0' then sh.zero + sh.zero
            else if c == '1' then sh.one + sh.one
            else if c == 'F' || c == 'f' then sh.zero + sh.one
            else []
  {
    if c == '0' {
      WordWavePair('0', '0', false, sh);
    } else if c == '1' {
      WordWavePair('1', '1', false, sh);
    } else if c == 'F' || c == 'f' {
      WordWavePair('0', '1', false, sh);
    }
  }

  /** Under protocol A the tri-state symbols are pairs of bits. */
  lemma TriShapesA(pulseLength: int)
    ensures var sh := ShapesOf(TYPE_A, pulseLength);
      sh.triZero == sh.zero + sh.zero && sh.triOne == sh.one + sh.one && sh.triFloat == sh.zero + sh.one
  {
  }

  lemma {:induction false} TriStateIsBinaryA(w: seq<char>, pulseLength: int)
    ensures WordWave(w, true, ShapesOf(TYPE_A, pulseLength)) == WordWave(TriBits(w), false, ShapesOf(TYPE_A, pulseLength))
  {
    if w != [] {
      var sh := ShapesOf(TYPE_A, pulseLength);
      var w', c := w[..|w| - 1], w[|w| - 1];
      calc {
        WordWave(w, true, sh);
        == { assert w == w' + [c]; WordWaveSnoc(w', c, true, sh); }
        WordWave(w', true, sh) + SymbolWave(c, true, sh);
        == { TriStateIsBinaryA(w', pulseLength); }
        WordWave(TriBits(w'), false, sh) + SymbolWave(c, true, sh);
        == { TriShapesA(pulseLength); TriPairWave(c, sh); }
        WordWave(TriBits(w'), false, sh) + WordWave(TriPair(c), false, sh);
        == { WordWaveConcat(TriBits(w'), TriPair(c), false, sh); }
        WordWave(TriBits(w') + TriPair(c), false, sh);
      }
    }
  }

  // ---------------------------------------------------------------------
  // Settings
  // ---------------------------------------------------------------------

  /** The protocol, pulse length and repeat count that sending uses. */
  datatype Settings = Settings(protocol: int, pulseLength: int, repeatTransmit: int)

  /**
   * setProtocol: an identifier outside the table is ignored; otherwise a
   * pulse length or repeat count that is not positive selects the
   * protocol's default.
   */
  function Configure(s: Settings, p: int, pulse: int, repeat: int): (r: Settings)
    ensures !IsProtocol(p) ==> r == s
    ensures IsProtocol(s.protocol) ==> IsProtocol(r.protocol)
    ensures TYPE_A <= p <= TYPE_D ==> r.protocol == p && r.pulseLength > 0 && r.repeatTransmit > 0
  {
    if !IsProtocol(p) then s
    else Settings(p,
                  if pulse > 0 then pulse else DefaultPulseLength(p),
                  if repeat > 0 then repeat else DefaultRepeatTransmit(p))
  }

  /** A settings triple that setProtocol could have produced from its own fields. */
  predicate Reproducible(s: Settings)
    requires IsProtocol(s.protocol)
  {
    (s.pulseLength > 0 || s.pulseLength == DefaultPulseLength(s.protocol))
    && (s.repeatTransmit > 0 || s.repeatTransmit == DefaultRepeatTransmit(s.protocol))
  }

  /**
   * save(q) followed by load() gives back the saved settings exactly when
   * they are reproducible: a zero or negative pulse length or repeat count
   * that is not the protocol's default is replaced by the default on load.
   */
  lemma SaveLoadRestores(s: Settings, q: int)
    requires IsProtocol(s.protocol)
    ensures Configure(Configure(s, q, DEFAULT_PULSE_LENGTH, DEFAULT_REPEAT_TRANSMIT), s.protocol, s.pulseLength, s.repeatTransmit) == s
        <==> Reproducible(s)
  {
  }

  /** setProtocol with the same arguments twice has the effect of once. */
  lemma ConfigureIdempotent(s: Settings, p: int, pulse: int, repeat: int)
    ensures Configure(Configure(s, p, pulse, repeat), p, pulse, repeat) == Configure(s, p, pulse, repeat)
  {
  }

  // ---------------------------------------------------------------------
  // The switch object
  // ---------------------------------------------------------------------

  class RCSwitch {
    var transmitterPin: int
    var autoChangeMode: bool
    var protocol: int
    var pulseLength: int
    var repeatTransmit: int
    var backupProtocol: int
    var backupPulseLength: int
    var backupRepeatTransmit: int
    var receiverInterrupt: int
    /** Every level the transmit pin was held at, oldest first. */
    var trace: seq<Pulse>
    /** The receive state shared with the interrupt handler. */
    const rx: Receiver

    ghost predicate Valid()
      reads this, rx, rx.timings
    {
      IsProtocol(protocol) && rx.Valid()
    }

    function Current(): Settings
      reads this
    {
      Settings(protocol, pulseLength, repeatTransmit)
    }

    function Backup(): Settings
      reads this
    {
      Settings(backupProtocol, backupPulseLength, backupRepeatTransmit)
    }

    /** The pulses sent so far and the last received value and bit length. */
    function Now(): Air
      reads this, rx
    {
      Air(trace, (rx.receivedValue, rx.receivedBitlength))
    }

    /** The effect of sending `ps`: on the pin, on the receive state, and not on the receiver interrupt. */
    twostate predicate Sent(ps: seq<Pulse>)
      reads this, rx
    {
      receiverInterrupt == old(receiverInterrupt)
      && Now() == Emit(old(Now()), transmitterPin, receiverInterrupt, ps)
    }

    /**
     * RCSwitch(): no transmitter pin, type A at its default pulse length and
     * ten repeats, no receiver interrupt. The receive state is a set of
     * statics that every switch shares, so it is passed in: constructing a
     * switch sets the shared tolerance back to 60 percent and clears the
     * shared received value.
     */
    constructor(rx: Receiver)
      requires rx.Valid()
      modifies rx`tolerance, rx`receivedValue
      ensures this.rx == rx && Valid()
      ensures transmitterPin == -1 && receiverInterrupt == -1 && !autoChangeMode
      ensures Current() == Settings(TYPE_A, DefaultPulseLength(TYPE_A), DefaultRepeatTransmit(TYPE_A))
      ensures Backup() == Settings(TYPE_UNDEF, 0, 0)
      ensures trace == []
      ensures rx.tolerance == DEFAULT_TOLERANCE && !rx.Available()
    {
      transmitterPin := -1;
      autoChangeMode := false;
      backupProtocol := TYPE_UNDEF;
      backupPulseLength := 0;
      backupRepeatTransmit := 0;
      receiverInterrupt := -1;
      protocol := TYPE_UNDEF;
      pulseLength := 0;
      repeatTransmit := 0;
      trace := [];
      this.rx := rx;
      new;
      SetRepeatTransmit(10);
      SetProtocol(TYPE_A);
      rx.SetReceiveTolerance(DEFAULT_TOLERANCE);
      rx.receivedValue := 0;
    }

    method SetProtocol(p: int, pulse: int := DEFAULT_PULSE_LENGTH, repeat: int := DEFAULT_REPEAT_TRANSMIT)
      modifies this`protocol, this`pulseLength, this`repeatTransmit
      ensures Current() == Configure(old(Current()), p, pulse, repeat)
    {
      if p < TYPE_MINIMUM || p > TYPE_MAXIMUM {
        return;
      }
      protocol := p;
      if pulse > 0 {
        SetPulseLength(pulse);
      } else {
        SetPulseLength(DefaultPulseLength(p));
      }
      if repeat > 0 {
        SetRepeatTransmit(repeat);
      } else {
        SetRepeatTransmit(DefaultRepeatTransmit(p));
      }
    }

    method SetPulseLength(n: int)
      modifies this`pulseLength
      ensures pulseLength == n
    {
      pulseLength := n;
    }

    method SetRepeatTransmit(n: int)
      modifies this`repeatTransmit
      ensures repeatTransmit == n
    {
      repeatTransmit := n;
    }

    method EnableTransmit(pin: int)
      modifies this`transmitterPin
      ensures transmitterPin == pin
    {
      transmitterPin := pin;
    }

    method DisableTransmit()
      modifies this`transmitterPin
      ensures transmitterPin == -1
    {
      transmitterPin := -1;
    }

    method SetAutoChangeMode(b: bool)
      modifies this`autoChangeMode
      ensures autoChangeMode == b
    {
      autoChangeMode := b;
    }

    /** save(prot): only in auto-change mode, remember the settings and switch to `p` with its defaults. */
    method Save(p: int)
      modifies this`protocol, this`pulseLength, this`repeatTransmit
      modifies this`backupProtocol, this`backupPulseLength, this`backupRepeatTransmit
      ensures !autoChangeMode ==> Current() == old(Current()) && Backup() == old(Backup())
      ensures autoChangeMode ==> (Backup() == old(Current())
        && Current() == Configure(old(Current()), p, DEFAULT_PULSE_LENGTH, DEFAULT_REPEAT_TRANSMIT))
    {
      if !autoChangeMode {
        return;
      }
      backupProtocol := protocol;
      backupPulseLength := pulseLength;
      backupRepeatTransmit := repeatTransmit;
      SetProtocol(p);
    }

    /** load(): only in auto-change mode, pass the remembered settings back through setProtocol. */
    method Load()
      modifies this`protocol, this`pulseLength, this`repeatTransmit
      ensures !autoChangeMode ==> Current() == old(Current())
      ensures autoChangeMode ==>
        Current() == Configure(old(Current()), backupProtocol, backupPulseLength, backupRepeatTransmit)
    {
      if !autoChangeMode {
        return;
      }
      SetProtocol(backupProtocol, backupPulseLength, backupRepeatTransmit);
    }

    /** enableReceive(): with an interrupt configured, clear the last received value and bit length. */
    method EnableReceive()
      modifies rx`receivedValue, rx`receivedBitlength
      ensures Now() == if receiverInterrupt != -1 then old(Now()).(heard := (0, 0)) else old(Now())
    {
      if receiverInterrupt != -1 {
        rx.receivedValue := 0;
        rx.receivedBitlength := 0;
      }
    }

    method EnableReceiveOn(interrupt: int)
      modifies this`receiverInterrupt, rx`receivedValue, rx`receivedBitlength
      ensures receiverInterrupt == interrupt
      ensures Now() == if interrupt != -1 then old(Now()).(heard := (0, 0)) else old(Now())
    {
      receiverInterrupt := interrupt;
      EnableReceive();
    }

    method DisableReceive()
      modifies this`receiverInterrupt
      ensures receiverInterrupt == -1
    {
      receiverInterrupt := -1;
    }

    method Available() returns (b: bool)
      ensures b <==> rx.receivedValue != 0
    {
      b := rx.receivedValue != 0;
    }

    method ResetAvailable()
      modifies rx`receivedValue
      ensures !rx.Available()
      ensures rx.Published() == old(rx.Published()).(value := 0)
    {
      rx.ResetAvailable();
    }

    /** transmit: nothing without a transmitter pin; receiving is switched off around the pulses and back on after. */
    method Transmit(first: int, second: int, highFirst: bool := DEFAULT_HIGH_FIRST)
      modifies this`trace, this`receiverInterrupt, rx`receivedValue, rx`receivedBitlength
      ensures Sent(Wave(pulseLength, first, second, highFirst))
    {
      var disabled := false;
      var backup := receiverInterrupt;
      if transmitterPin != -1 {
        if receiverInterrupt != -1 {
          DisableReceive();
          disabled := true;
        }
        trace := trace + Wave(pulseLength, first, second, highFirst);
        if disabled {
          EnableReceiveOn(backup);
        }
      }
    }

    method Send0()
      requires IsProtocol(protocol)
      modifies this`trace, this`receiverInterrupt, rx`receivedValue, rx`receivedBitlength
      ensures Sent(BitWave(false, protocol, pulseLength))
    {
      var t := TimingOf(protocol);
      Transmit(t.zeroFirst, t.zeroSecond, t.highFirst);
    }

    method Send1()
      requires IsProtocol(protocol)
      modifies this`trace, this`receiverInterrupt, rx`receivedValue, rx`receivedBitlength
      ensures Sent(BitWave(true, protocol, pulseLength))
    {
      var t := TimingOf(protocol);
      Transmit(t.oneFirst, t.oneSecond, t.highFirst);
    }

    method SendT0()
      modifies this`trace, this`receiverInterrupt, rx`receivedValue, rx`receivedBitlength
      ensures Sent(TriWave('0', pulseLength))
    {
      ghost var s0 := Now();
      Transmit(1, 3);
      Transmit(1, 3);
      EmitConcat(s0, transmitterPin, receiverInterrupt, Wave(pulseLength, 1, 3, true), Wave(pulseLength, 1, 3, true));
    }

    method SendT1()
      modifies this`trace, this`receiverInterrupt, rx`receivedValue, rx`receivedBitlength
      ensures Sent(TriWave('1', pulseLength))
    {
      ghost var s0 := Now();
      Transmit(3, 1);
      Transmit(3, 1);
      EmitConcat(s0, transmitterPin, receiverInterrupt, Wave(pulseLength, 3, 1, true), Wave(pulseLength, 3, 1, true));
    }

    method SendTF()
      modifies this`trace, this`receiverInterrupt, rx`receivedValue, rx`receivedBitlength
      ensures Sent(TriWave('F', pulseLength))
    {
      ghost var s0 := Now();
      Transmit(1, 3);
      Transmit(3, 1);
      EmitConcat(s0, transmitterPin, receiverInterrupt, Wave(pulseLength, 1, 3, true), Wave(pulseLength, 3, 1, true));
    }

    method SendSync()
      modifies this`trace, this`receiverInterrupt, rx`receivedValue, rx`receivedBitlength
      ensures Sent(SyncWave(protocol, pulseLength))
    {
      if protocol == TYPE_A {
        Transmit(1, 31);
      } else if protocol == TYPE_B {
        Transmit(1, 10);
      } else if protocol == TYPE_C {
        Transmit(4, 71);
      } else if protocol == TYPE_D {
        Transmit(0, 1);
      }
    }

    /** One character of `send`. */
    method SendSymbol(c: char, tristate: bool)
      requires IsProtocol(protocol)
      modifies this`trace, this`receiverInterrupt, rx`receivedValue, rx`receivedBitlength
      ensures Sent(SymbolWave(c, tristate, ShapesOf(protocol, pulseLength)))
    {
      if c == '0' {
        if tristate { SendT0(); } else { Send0(); }
      } else if c == '1' {
        if tristate { SendT1(); } else { Send1(); }
      } else if c == 'F' || c == 'f' {
        if tristate { SendTF(); }
      }
    }

    /** send(word, tristate): `repeatTransmit` rounds of the characters before the NUL, each followed by the sync. */
    method Send(word: array<char>, tristate: bool := false)
      requires IsProtocol(protocol)
      requires '\0' in word[..]
      modifies this`trace, this`receiverInterrupt, rx`receivedValue, rx`receivedBitlength
      ensures Sent(SendWave(CStr(word[..]), tristate, ShapesOf(protocol, pulseLength), repeatTransmit))
    {
      ghost var s0 := Now();
      ghost var round := RoundWave(CStr(word[..]), tristate, ShapesOf(protocol, pulseLength));
      var r := 0;
      while r < repeatTransmit
        invariant 0 <= r && (r <= repeatTransmit || r == 0)
        invariant Sent(Repeat(round, r))
      {
        SendRound(word, tristate);
        EmitConcat(s0, transmitterPin, receiverInterrupt, Repeat(round, r), round);
        r := r + 1;
      }
    }

    /** One pass of the outer loop of `send`: the word, then the sync. */
    method SendRound(word: array<char>, tristate: bool)
      requires IsProtocol(protocol)
      requires '\0' in word[..]
      modifies this`trace, this`receiverInterrupt, rx`receivedValue, rx`receivedBitlength
      ensures Sent(RoundWave(CStr(word[..]), tristate, ShapesOf(protocol, pulseLength)))
    {
      ghost var s0 := Now();
      SendWord(word, tristate);
      SendSync();
      EmitConcat(s0, transmitterPin, receiverInterrupt,
                 WordWave(CStr(word[..]), tristate, ShapesOf(protocol, pulseLength)), SyncWave(protocol, pulseLength));
    }

    /** The inner loop of `send`: the characters before the NUL, without the sync. */
    method SendWord(word: array<char>, tristate: bool)
      requires IsProtocol(protocol)
      requires '\0' in word[..]
      modifies this`trace, this`receiverInterrupt, rx`receivedValue, rx`receivedBitlength
      ensures Sent(WordWave(CStr(word[..]), tristate, ShapesOf(protocol, pulseLength)))
    {
      ghost var s0 := Now();
      ghost var sh := ShapesOf(protocol, pulseLength);
      ghost var w := CStr(word[..]);
      ghost var z := |w|;
      CStrBefore(word[..]);
      var i := 0;
      while word[i] != '\0'
        invariant 0 <= i <= z
        invariant Sent(WordWave(word[..i], tristate, sh))
        decreases z - i
      {
        ghost var done := WordWave(word[..i], tristate, sh);
        ghost var next := SymbolWave(word[i], tristate, sh);
        assert word[..i + 1] == word[..i] + [word[i]];
        WordWaveSnoc(word[..i], word[i], tristate, sh);
        SendSymbol(word[i], tristate);
        EmitConcat(s0, transmitterPin, receiverInterrupt, done, next);
        i := i + 1;
      }
      assert i == z;
      assert word[..i] == w;
    }

    /** sendTriState(word) is send(word, true). */
    method SendTriState(word: array<char>)
      requires IsProtocol(protocol)
      requires '\0' in word[..]
      modifies this`trace, this`receiverInterrupt, rx`receivedValue, rx`receivedBitlength
      ensures Sent(SendWave(CStr(word[..]), true, ShapesOf(protocol, pulseLength), repeatTransmit))
    {
      Send(word, true);
    }

    /** send(code, length): the `length` low bits of `code` as a binary word. */
    method SendCode(code: u32, length: nat)
      requires IsProtocol(protocol)
      modifies this`trace, this`receiverInterrupt, rx`receivedValue, rx`receivedBitlength
      ensures Sent(SendWave(Digits(code, length, '0'), false, ShapesOf(protocol, pulseLength), repeatTransmit))
    {
      var bin := Dec2Bin(code, length);
      assert bin[..] == Digits(code, length, '0') + ['\0'];
      CStrTerminated(Digits(code, length, '0'));
      Send(bin);
    }
  }

  /** A buffer holding a NUL keeps its C string in front of the first NUL. */
  lemma CStrBefore(s: seq<char>)
    requires '\0' in s
    ensures |CStr(s)| < |s| && CStr(s) == s[..|CStr(s)|] && s[|CStr(s)|] == '\0'
  {
  }

  /** A string without NUL, stored with its terminator, reads back as itself. */
  lemma {:induction false} CStrTerminated(s: seq<char>)
    requires forall i :: 0 <= i < |s| ==> s[i] != '\0'
    ensures CStr(s + ['\0']) == s
  {
    if s != [] {
      assert (s + ['\0'])[1..] == s[1..] + ['\0'];
      CStrTerminated(s[1..]);
    }
  }
}
