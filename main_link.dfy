/**
 * A transmitter and a receiver of the main version joined by a lossless
 * channel: every level the sender drives onto its pin reaches the
 * receiver's interrupt handler with its exact duration.
 *
 * The first part works on the sent levels alone. One stretch of them,
 * from the sync gap ending a round to the high level of the next round's
 * sync, is the buffer `Buffered`; the lemmas show that protocol 1's
 * decoder reads that buffer back as the value of the word that was sent.
 *
 * The second part drives the handler itself. `HearTransmission` feeds
 * handleInterrupt() the edges of the first three rounds, starting from a
 * receiver that has heard nothing yet. It shows that the handler then
 * holds that buffer and publishes what decoding it gives. This holds only
 * at pulse lengths where the handler separates the rounds (`Separable`).
 */
module MainLink {
  import opened Common
  import opened Decoder
  import opened MainReceiver
  import opened MainSwitch
  import QuiggCodes
  import MainHeader

  /** `unsigned` subtraction of two micros() readings gives the time between them, reduced modulo 2^32. */
  lemma ElapsedIsDuration(t0: int, d: int)
    ensures Elapsed(Wrap(t0), Wrap(t0 + d)) == Wrap(d)
  {
    AddSub32Wrap(Wrap(t0 + d), Wrap(t0));
    WrapIsMod(t0);
    WrapIsMod(t0 + d);
    var k := t0 / WORD - (t0 + d) / WORD;
    assert Wrap(t0 + d) - Wrap(t0) == d + WORD * k;
    WrapShift(d, k);
  }

  /** Adding a multiple of 2^32 does not change the 32-bit result. */
  lemma WrapShift(x: int, k: int)
    ensures Wrap(x + WORD * k) == Wrap(x)
  {
    WrapIsMod(x);
    WrapIsMod(x + WORD * k);
    DivUnique(x + WORD * k, WORD, x / WORD + k, x % WORD);
  }

  /** The durations the handler stores for a run of levels, each as the 32-bit elapsed time. */
  function Received(ps: seq<Pulse>): (ts: seq<u32>)
    ensures |ts| == |ps|
    ensures forall i :: 0 <= i < |ps| ==> ts[i] == Wrap(ps[i].micros)
  {
    seq(|ps|, i requires 0 <= i < |ps| => Wrap(ps[i].micros))
  }

  /** The pulses of protocol 1 at pulse length `pl`. */
  function Protocol1(pl: int): Shapes
  {
    ShapesOf(1, pl)
  }

  /**
   * One round of `w` as a buffer of durations: the round's last level (the
   * sync gap of the round before) first, then all its other levels. This is
   * what `HearRound` leaves in the handler's buffer when the round's own
   * sync gap arrives at a separable pulse length.
   */
  function Buffered(w: seq<char>, tristate: bool, pl: int): seq<u32>
  {
    var round := RoundWave(w, tristate, Protocol1(pl));
    Received([round[|round| - 1]] + round[..|round| - 1])
  }

  /** Two or more rounds start with two copies of the round. */
  lemma {:induction false} RepeatStarts<T>(r: seq<T>, n: int)
    requires n >= 2
    ensures 2 * |r| <= |Repeat(r, n)| && Repeat(r, n)[..2 * |r|] == r + r
    decreases n
  {
    if n == 2 {
      assert Repeat(r, 1) == Repeat(r, 0) + r == r;
    } else {
      RepeatStarts(r, n - 1);
      assert Repeat(r, n) == Repeat(r, n - 1) + r;
    }
  }

  /**
   * What send() and sendTriState() put on the pin with two or more repeats
   * contains the buffer `Buffered`: it is the levels from the last level of
   * the first round to the high level of the second round's sync. Whether
   * the handler keeps exactly these levels depends on its separation rule;
   * `HearTransmission` proves that it does.
   */
  lemma SenderLeavesBuffer(w: seq<char>, tristate: bool, pl: int, repeat: int)
    requires repeat >= 2
    ensures var round := RoundWave(w, tristate, Protocol1(pl));
      var sent := SendWave(w, tristate, Protocol1(pl), repeat);
      2 * |round| <= |sent| && Received(sent[|round| - 1..2 * |round| - 1]) == Buffered(w, tristate, pl)
  {
    var round := RoundWave(w, tristate, Protocol1(pl));
    RepeatStarts(round, repeat);
    var sent := SendWave(w, tristate, Protocol1(pl), repeat);
    assert |round| >= 2;
    assert sent[|round| - 1..2 * |round| - 1] == (round + round)[|round| - 1..2 * |round| - 1];
    assert (round + round)[|round| - 1..2 * |round| - 1] == [round[|round| - 1]] + round[..|round| - 1];
  }

  predicate IsBinary(w: seq<char>)
  {
    forall i :: 0 <= i < |w| ==> w[i] == '0' || w[i] == '1'
  }

  /** Bit `k` of a binary word is sent as levels 2k (high) and 2k+1 (low): 3 and 1 pulse lengths for a '1', 1 and 3 for a '0'. */
  lemma {:induction false} BinaryWave(w: seq<char>, pl: int)
    requires IsBinary(w)
    ensures |WordWave(w, false, Protocol1(pl))| == 2 * |w|
    ensures forall k :: 0 <= k < |w| ==>
      WordWave(w, false, Protocol1(pl))[2 * k] == Pulse(true, pl * (if w[k] == '1' then 3 else 1))
      && WordWave(w, false, Protocol1(pl))[2 * k + 1] == Pulse(false, pl * (if w[k] == '1' then 1 else 3))
  {
    if w != [] {
      var n := |w|;
      var w', c := w[..n - 1], w[n - 1];
      BinaryWave(w', pl);
      var a := WordWave(w', false, Protocol1(pl));
      var b := SymbolWave(c, false, Protocol1(pl));
      assert WordWave(w, false, Protocol1(pl)) == a + b;
      assert b == [Pulse(true, pl * (if c == '1' then 3 else 1)), Pulse(false, pl * (if c == '1' then 1 else 3))];
      forall k | 0 <= k < n - 1
        ensures w[k] == w'[k]
      {
      }
    }
  }

  /** The buffer after a binary round: the sync gap, the word's levels, then the sync's high level. */
  lemma BufferedBinary(w: seq<char>, pl: int)
    requires IsBinary(w)
    ensures var ts := Buffered(w, false, pl);
      |ts| == 2 * |w| + 2 && ts[0] == Wrap(pl * 31) && ts[2 * |w| + 1] == Wrap(pl)
      && forall k :: 0 <= k < |w| ==>
           ts[2 * k + 1] == Wrap(pl * (if w[k] == '1' then 3 else 1))
           && ts[2 * k + 2] == Wrap(pl * (if w[k] == '1' then 1 else 3))
  {
    BinaryWave(w, pl);
    var ww := WordWave(w, false, Protocol1(pl));
    var round := RoundWave(w, false, Protocol1(pl));
    assert round == ww + [Pulse(true, pl * 1), Pulse(false, pl * 31)];
    assert [round[|round| - 1]] + round[..|round| - 1] == [Pulse(false, pl * 31)] + ww + [Pulse(true, pl * 1)];
  }

  /**
   * The pulse lengths and tolerances for which nothing the decoder of
   * protocol 1 computes wraps around: the sync gap, the tolerance product
   * and the window's bounds all stay below 2^32, the window is not empty,
   * and it is no wider than one pulse length (a wider one wraps below zero
   * around a level of one pulse length and then accepts nothing).
   */
  predicate LosslessRange(pl: int, tolerance: int)
  {
    0 < pl && 31 * pl < WORD && 0 <= tolerance <= 100 && pl * tolerance < WORD && Window(pl, tolerance) > 0
  }

  /**
   * The window arithmetic of protocol 1 in that range: the pulse length
   * comes back from the gap, a level of 1 or 3 pulse lengths lies inside
   * its own window, and one of 3 lies outside the window around 1.
   */
  lemma Protocol1Windows(pl: int, tolerance: int)
    requires LosslessRange(pl, tolerance)
    ensures Wrap(pl * 31) / 31 == pl
    ensures var tw := Window(pl, tolerance);
      Mul32(pl, 1) == pl && Mul32(pl, 3) == 3 * pl
      && Inside(pl, pl, tw) && Inside(3 * pl, 3 * pl, tw) && !Inside(3 * pl, pl, tw)
  {
    assert Wrap(pl * 31) == pl * 31;
    DivUnique(pl * 31, 31, pl, 0);
    var tw := Window(pl, tolerance);
    assert Mul32(pl, tolerance) == pl * tolerance;
    assert pl * tolerance <= pl * 100;
    assert tw <= pl;
    assert Sub32(pl, tw) == pl - tw && Add32(pl, tw) == pl + tw;
    assert Sub32(3 * pl, tw) == 3 * pl - tw && Add32(3 * pl, tw) == 3 * pl + tw;
  }

  /** The buffer after a binary round of at most 31 digits carries the word for protocol 1's decoder. */
  lemma SentWordCarried(w: seq<char>, pl: int, tolerance: int, ts: seq<u32>)
    requires IsBinary(w)
    requires LosslessRange(pl, tolerance)
    requires Buffered(w, false, pl) <= ts
    ensures DelayOf(ts[0], PROTOCOL1.syncFactor) == pl
    ensures Carries(ts, CentresOf(pl, PROTOCOL1.cycles), Window(pl, tolerance), w)
  {
    BufferedBinary(w, pl);
    Protocol1Windows(pl, tolerance);
    var c, tw := CentresOf(pl, PROTOCOL1.cycles), Window(pl, tolerance);
    var b := Buffered(w, false, pl);
    forall k | 0 <= k < |w|
      ensures PairCarries(ts, 2 * k + 1, c, tw, w[k])
    {
      assert ts[2 * k + 1] == b[2 * k + 1] && ts[2 * k + 2] == b[2 * k + 2];
      if w[k] == '1' {
        assert ts[2 * k + 1] == 3 * pl && ts[2 * k + 2] == pl;
      } else {
        assert ts[2 * k + 1] == pl && ts[2 * k + 2] == 3 * pl;
      }
    }
    assert ts[0] == b[0];
  }

  /**
   * Sending a binary word of up to 31 digits under protocol 1 and feeding
   * the exact durations to the handler: receiveProtocol1() decodes the
   * word's value, and the pulse length it reports is the sender's.
   */
  lemma SentWordDecodes(w: seq<char>, pl: int, tolerance: int, ts: seq<u32>)
    requires IsBinary(w) && |w| <= 31
    requires LosslessRange(pl, tolerance)
    requires Buffered(w, false, pl) <= ts
    ensures 2 * |w| + 1 < |ts| && Decoded(ts, 2 * |w| + 1, tolerance, PROTOCOL1) == BinValue(w)
    ensures DelayOf(ts[0], PROTOCOL1.syncFactor) == pl
  {
    SentWordCarried(w, pl, tolerance, ts);
    DecodesWord(ts, tolerance, PROTOCOL1.syncFactor, PROTOCOL1.cycles, w);
  }

  predicate IsTriState(w: seq<char>)
  {
    forall i :: 0 <= i < |w| ==> w[i] == '0' || w[i] == '1' || w[i] == 'F'
  }

  /** Under protocol 1 a tri-state round leaves the buffer its binary spelling would. */
  lemma BufferedTriState(w: seq<char>, pl: int)
    requires IsTriState(w)
    ensures Buffered(w, true, pl) == Buffered(TriBits(w), false, pl)
  {
    assert forall i :: 0 <= i < |w| ==> w[i] != 'f';
    TriStateIsBinary(w, pl);
  }

  /**
   * sendTriState() of a word of up to 15 tri-state symbols under protocol
   * 1, fed to the handler without loss: receiveProtocol1() decodes the
   * value of its two-bits-per-symbol spelling, with the sender's pulse
   * length.
   */
  lemma SentTriStateDecodes(w: seq<char>, pl: int, tolerance: int, ts: seq<u32>)
    requires IsTriState(w) && |w| <= 15
    requires LosslessRange(pl, tolerance)
    requires Buffered(w, true, pl) <= ts
    ensures 4 * |w| + 1 < |ts| && Decoded(ts, 4 * |w| + 1, tolerance, PROTOCOL1) == BinValue(TriBits(w))
    ensures DelayOf(ts[0], PROTOCOL1.syncFactor) == pl
  {
    var bits := TriBits(w);
    assert |bits| == 2 * |w| by {
      TriBitsAt(w);
    }
    assert Buffered(bits, false, pl) <= ts by {
      BufferedTriState(w, pl);
    }
    assert IsBinary(bits) by {
      TriBitsBinary(w);
    }
    SentWordDecodes(bits, pl, tolerance, ts);
    assert 2 * |bits| + 1 == 4 * |w| + 1;
  }

  /** The spelling of any word is a binary word. */
  lemma TriBitsBinary(w: seq<char>)
    ensures IsBinary(TriBits(w))
  {
    var b := TriBits(w);
    forall i | 0 <= i < |b|
      ensures b[i] == '0' || b[i] == '1'
    {
    }
  }

  /** Two symbols with the same two-bit spelling are the same symbol. */
  lemma TriPairInjective(a: char, b: char)
    requires a in "01F" && b in "01F" && TriPair(a) == TriPair(b)
    ensures a == b
  {
  }

  /** Symbol `k` of a tri-state word is spelled by bits 2k and 2k+1. */
  lemma {:induction false} TriBitsAt(w: seq<char>)
    requires IsTriState(w)
    ensures |TriBits(w)| == 2 * |w|
    ensures forall k :: 0 <= k < |w| ==> TriBits(w)[2 * k..2 * k + 2] == TriPair(w[k])
  {
    if w != [] {
      var n := |w|;
      var w' := w[..n - 1];
      TriBitsAt(w');
      var s := TriBits(w);
      assert s == TriBits(w') + TriPair(w[n - 1]);
      forall k | 0 <= k < n
        ensures s[2 * k..2 * k + 2] == TriPair(w[k])
      {
        if k < n - 1 {
          assert s[2 * k..2 * k + 2] == TriBits(w')[2 * k..2 * k + 2];
          assert w[k] == w'[k];
        }
      }
    }
  }

  /** Tri-state words of one length with the same spelling are the same word. */
  lemma TriBitsInjective(a: seq<char>, b: seq<char>)
    requires IsTriState(a) && IsTriState(b) && |a| == |b| && TriBits(a) == TriBits(b)
    ensures a == b
  {
    TriBitsAt(a);
    TriBitsAt(b);
    forall k | 0 <= k < |a|
      ensures a[k] == b[k]
    {
      assert TriPair(a[k]) == TriBits(a)[2 * k..2 * k + 2] == TriPair(b[k]);
      TriPairInjective(a[k], b[k]);
    }
  }

  /**
   * The decoded value identifies the word: two tri-state words of one
   * length whose binary spellings have the same value are equal.
   */
  lemma TriStateValueInjective(a: seq<char>, b: seq<char>)
    requires IsTriState(a) && IsTriState(b) && |a| == |b|
    requires BinValue(TriBits(a)) == BinValue(TriBits(b))
    ensures a == b
  {
    TriBitsAt(a);
    TriBitsAt(b);
    DigitsOfValue(TriBits(a));
    DigitsOfValue(TriBits(b));
    TriBitsInjective(a, b);
  }

  /** Every type B word is a word of twelve tri-state symbols. */
  lemma TypeBIsTriState(address: int, channel: int, on: bool)
    requires QuiggCodes.CodeWordB(address, channel, on).Some?
    ensures IsTriState(QuiggCodes.CodeWordB(address, channel, on).value)
  {
    var w := QuiggCodes.CodeWordB(address, channel, on).value;
    assert w == QuiggCodes.TYPE_B_CODE[address] + QuiggCodes.TYPE_B_CODE[channel] + "FFF" + [if on then 'F' else '0'];
    assert forall i :: 0 <= i < 4 ==> QuiggCodes.TYPE_B_CODE[address][i] in "0F" && QuiggCodes.TYPE_B_CODE[channel][i] in "0F";
  }

  /**
   * The round trip of a type B command: the word for address and channel
   * 1 to 4 sent with sendTriState() under protocol 1 is decoded to a value
   * from which, among all type B commands, exactly this one's parameters
   * follow.
   */
  lemma TypeBRoundTrip(address: int, channel: int, on: bool, address': int, channel': int, on': bool,
                       pl: int, tolerance: int, ts: seq<u32>)
    requires QuiggCodes.CodeWordB(address, channel, on).Some? && QuiggCodes.CodeWordB(address', channel', on').Some?
    requires LosslessRange(pl, tolerance)
    requires Buffered(QuiggCodes.CodeWordB(address, channel, on).value, true, pl) <= ts
    ensures var w' := QuiggCodes.CodeWordB(address', channel', on').value;
      49 < |ts|
      && (Decoded(ts, 49, tolerance, PROTOCOL1) == BinValue(TriBits(w'))
          <==> (address, channel, on) == (address', channel', on'))
  {
    var w := QuiggCodes.CodeWordB(address, channel, on).value;
    var w' := QuiggCodes.CodeWordB(address', channel', on').value;
    TypeBIsTriState(address, channel, on);
    TypeBIsTriState(address', channel', on');
    SentTriStateDecodes(w, pl, tolerance, ts);
    if BinValue(TriBits(w)) == BinValue(TriBits(w')) {
      TriStateValueInjective(w, w');
      QuiggCodes.CodeWordBRoundTrip(address, channel, on, w);
      QuiggCodes.CodeWordBRoundTrip(address', channel', on', w');
    }
  }

  /**
   * Group 1, channel 1, on, as a type B word under protocol 1 at 350 µs:
   * the word is "0FFF0FFFFFFF", and when the handler has the exact
   * durations of a round and the repeat gap arrives, the chain of attempts
   * publishes its 24-bit spelling's value with protocol 1 and pulse length
   * 350, at the default tolerance.
   */
  lemma TypeBScenario(ts: seq<u32>, third: Shape, previous: Report)
    requires third.syncFactor > 0
    requires Buffered("0FFF0FFFFFFF", true, 350) <= ts
    ensures QuiggCodes.CodeWordB(1, 1, true) == Some("0FFF0FFFFFFF")
    ensures TriBits("0FFF0FFFFFFF") == "000101010001010101010101"
    ensures 49 < |ts| && Chain(ts, 49, DEFAULT_TOLERANCE, third, previous) == Report(0x151555, 24, 350, 1)
  {
    var w := "0FFF0FFFFFFF";
    assert QuiggCodes.TYPE_B_CODE[1] == "0FFF";
    assert "0FFF" + "0FFF" + "FFF" + ['F'] == w;
    assert IsTriState(w);
    assert Window(350, DEFAULT_TOLERANCE) == 210;
    SentTriStateDecodes(w, 350, DEFAULT_TOLERANCE, ts);
    ScenarioBits();
    ScenarioValue();
  }

  /** The two-bits-per-symbol spelling of "0FFF0FFFFFFF". */
  lemma ScenarioBits()
    ensures TriBits("0FFF0FFFFFFF") == "000101010001010101010101"
  {
    assert "0"[..0] == "";
    assert TriBits("0") == "00";
    assert "0F"[..1] == "0";
    assert TriBits("0F") == "0001";
    assert "0FF"[..2] == "0F";
    assert TriBits("0FF") == "000101";
    assert "0FFF"[..3] == "0FF";
    assert TriBits("0FFF") == "00010101";
    assert "0FFF0"[..4] == "0FFF";
    assert TriBits("0FFF0") == "0001010100";
    assert "0FFF0F"[..5] == "0FFF0";
    assert TriBits("0FFF0F") == "000101010001";
    assert "0FFF0FF"[..6] == "0FFF0F";
    assert TriBits("0FFF0FF") == "00010101000101";
    assert "0FFF0FFF"[..7] == "0FFF0FF";
    assert TriBits("0FFF0FFF") == "0001010100010101";
    assert "0FFF0FFFF"[..8] == "0FFF0FFF";
    assert TriBits("0FFF0FFFF") == "000101010001010101";
    assert "0FFF0FFFFF"[..9] == "0FFF0FFFF";
    assert TriBits("0FFF0FFFFF") == "00010101000101010101";
    assert "0FFF0FFFFFF"[..10] == "0FFF0FFFFF";
    assert TriBits("0FFF0FFFFFF") == "0001010100010101010101";
    assert "0FFF0FFFFFFF"[..11] == "0FFF0FFFFFF";
    assert TriBits("0FFF0FFFFFFF") == "000101010001010101010101";
  }

  /** Its value, read most significant bit first. */
  lemma ScenarioValue()
    ensures BinValue("000101010001010101010101") == 0x151555
  {
    assert "0"[..0] == "";
    assert BinValue("0") == 0;
    assert "00"[..1] == "0";
    assert BinValue("00") == 0;
    assert "000"[..2] == "00";
    assert BinValue("000") == 0;
    assert "0001"[..3] == "000";
    assert BinValue("0001") == 1;
    assert "00010"[..4] == "0001";
    assert BinValue("00010") == 2;
    assert "000101"[..5] == "00010";
    assert BinValue("000101") == 5;
    assert "0001010"[..6] == "000101";
    assert BinValue("0001010") == 10;
    assert "00010101"[..7] == "0001010";
    assert BinValue("00010101") == 21;
    assert "000101010"[..8] == "00010101";
    assert BinValue("000101010") == 42;
    assert "0001010100"[..9] == "000101010";
    assert BinValue("0001010100") == 84;
    assert "00010101000"[..10] == "0001010100";
    assert BinValue("00010101000") == 168;
    assert "000101010001"[..11] == "00010101000";
    assert BinValue("000101010001") == 337;
    assert "0001010100010"[..12] == "000101010001";
    assert BinValue("0001010100010") == 674;
    assert "00010101000101"[..13] == "0001010100010";
    assert BinValue("00010101000101") == 1349;
    assert "000101010001010"[..14] == "00010101000101";
    assert BinValue("000101010001010") == 2698;
    assert "0001010100010101"[..15] == "000101010001010";
    assert BinValue("0001010100010101") == 5397;
    assert "00010101000101010"[..16] == "0001010100010101";
    assert BinValue("00010101000101010") == 10794;
    assert "000101010001010101"[..17] == "00010101000101010";
    assert BinValue("000101010001010101") == 21589;
    assert "0001010100010101010"[..18] == "000101010001010101";
    assert BinValue("0001010100010101010") == 43178;
    assert "00010101000101010101"[..19] == "0001010100010101010";
    assert BinValue("00010101000101010101") == 86357;
    assert "000101010001010101010"[..20] == "00010101000101010101";
    assert BinValue("000101010001010101010") == 172714;
    assert "0001010100010101010101"[..21] == "000101010001010101010";
    assert BinValue("0001010100010101010101") == 345429;
    assert "00010101000101010101010"[..22] == "0001010100010101010101";
    assert BinValue("00010101000101010101010") == 690858;
    assert "000101010001010101010101"[..23] == "00010101000101010101010";
    assert BinValue("000101010001010101010101") == 1381717;
  }

  // ---------------------------------------------------------------- the handler hearing the sender

  /** The binary word a round is sent as under protocol 1: a tri-state word goes out as its two-bits-per-symbol spelling. */
  function Spelling(w: seq<char>, tristate: bool): seq<char>
  {
    if tristate then TriBits(w) else w
  }

  /** A word send() (binary) or sendTriState() can put in one packet the decoder reads: at most 31 bits once spelled. */
  predicate Sendable(w: seq<char>, tristate: bool)
  {
    if tristate then IsTriState(w) && |w| <= 15 else IsBinary(w) && |w| <= 31
  }

  /**
   * The pulse lengths at which handleInterrupt() separates the rounds of a
   * protocol 1 transmission: the 31-pulse sync gap is longer than the
   * separation limit, and no level of a bit (at most 3 pulse lengths) is.
   */
  predicate Separable(pl: int)
  {
    SEPARATION_LIMIT < 31 * pl && 3 * pl <= SEPARATION_LIMIT
  }

  /** Under protocol 1 a round of a sendable word is the round of its spelling, and leaves the same buffer. */
  lemma SpelledRound(w: seq<char>, tristate: bool, pl: int)
    requires Sendable(w, tristate)
    ensures var bits := Spelling(w, tristate);
      IsBinary(bits) && |bits| <= 31 && |bits| == (if tristate then 2 * |w| else |w|)
      && RoundWave(w, tristate, Protocol1(pl)) == RoundWave(bits, false, Protocol1(pl))
      && Buffered(w, tristate, pl) == Buffered(bits, false, pl)
  {
    if tristate {
      TriBitsAt(w);
      TriBitsBinary(w);
      assert forall i :: 0 <= i < |w| ==> w[i] != 'f';
      TriStateIsBinary(w, pl);
    }
  }

  /** The buffer is the round turned by one level: its last level, then the others in order. */
  lemma BufferedRotates(w: seq<char>, tristate: bool, pl: int)
    ensures var round := RoundWave(w, tristate, Protocol1(pl));
      var b := Buffered(w, tristate, pl);
      |b| == |round| >= 2 && b[0] == Wrap(round[|round| - 1].micros)
      && forall k :: 0 <= k < |round| - 1 ==> b[k + 1] == Wrap(round[k].micros)
  {
    var round := RoundWave(w, tristate, Protocol1(pl));
    var m := |round|;
    assert round[m - 2..] == Protocol1(pl).sync;
    var turned := [round[m - 1]] + round[..m - 1];
    assert forall k :: 0 <= k < m - 1 ==> turned[k + 1] == round[k];
  }

  /**
   * At a separable pulse length the buffer of a binary word holds the
   * 31-pulse sync gap in slot 0 and levels of at most 3 pulse lengths in
   * all the others.
   */
  lemma BinaryLevels(bits: seq<char>, pl: int)
    requires IsBinary(bits) && Separable(pl)
    ensures var b := Buffered(bits, false, pl);
      |b| == 2 * |bits| + 2 && b[0] == 31 * pl
      && forall j :: 1 <= j < |b| ==> b[j] <= 3 * pl
  {
    BufferedBinary(bits, pl);
    var b := Buffered(bits, false, pl);
    assert Wrap(pl * 1) == pl && Wrap(pl * 3) == 3 * pl && Wrap(pl * 31) == 31 * pl;
    forall j | 1 <= j < |b|
      ensures b[j] <= 3 * pl
    {
      if j < |b| - 1 {
        var k := (j - 1) / 2;
        if bits[k] == '1' {
          if j == 2 * k + 1 {
            assert b[j] == Wrap(pl * 3);
          } else {
            assert b[j] == Wrap(pl * 1);
          }
        } else {
          if j == 2 * k + 1 {
            assert b[j] == Wrap(pl * 1);
          } else {
            assert b[j] == Wrap(pl * 3);
          }
        }
      }
    }
  }

  /** The same for the buffer of any sendable word, which holds at most 31 bits once spelled. */
  lemma BufferedLevels(w: seq<char>, tristate: bool, pl: int)
    requires Sendable(w, tristate) && Separable(pl)
    ensures var b := Buffered(w, tristate, pl);
      |Spelling(w, tristate)| <= 31 && |b| == 2 * |Spelling(w, tristate)| + 2 && b[0] == 31 * pl
      && forall j :: 1 <= j < |b| ==> b[j] <= 3 * pl
  {
    var bits := Spelling(w, tristate);
    assert Buffered(w, tristate, pl) == Buffered(bits, false, pl) && IsBinary(bits) && |bits| <= 31 by {
      SpelledRound(w, tristate, pl);
    }
    BinaryLevels(bits, pl);
  }

  /** One decoding attempt reads only the slots 0 to `cc`, from pair `i` on. */
  lemma {:induction false} ScanPrefix(ts: seq<u32>, us: seq<u32>, cc: int, c: Centres, tw: u32, i: int, code: u32)
    requires 1 <= i && 0 <= cc < |ts| && cc < |us| && ts[..cc + 1] == us[..cc + 1]
    ensures Scan(ts, cc, c, tw, i, code) == Scan(us, cc, c, tw, i, code)
    decreases cc - i
  {
    if i < cc {
      assert ts[i] == ts[..cc + 1][i] == us[i];
      assert ts[i + 1] == ts[..cc + 1][i + 1] == us[i + 1];
      ScanPrefix(ts, us, cc, c, tw, i + 2, Shl(code));
      ScanPrefix(ts, us, cc, c, tw, i + 2, Shl(Add32(code, 1)));
    }
  }

  /** The chain of attempts reads only the slots 0 to `cc`: what lies beyond the packet does not matter. */
  lemma ChainPrefix(ts: seq<u32>, us: seq<u32>, cc: int, tolerance: int, third: Shape, previous: Report)
    requires third.syncFactor > 0 && 0 <= cc && cc < |ts| && cc < |us| && ts[..cc + 1] == us[..cc + 1]
    ensures Chain(ts, cc, tolerance, third, previous) == Chain(us, cc, tolerance, third, previous)
  {
    assert ts[0] == ts[..cc + 1][0] == us[0];
    forall p | 1 <= p <= 3
      ensures Decoded(ts, cc, tolerance, ShapeOf(p, third)) == Decoded(us, cc, tolerance, ShapeOf(p, third))
    {
      var s := ShapeOf(p, third);
      var delay := DelayOf(ts[0], s.syncFactor);
      ScanPrefix(ts, us, cc, CentresOf(delay, s.cycles), Window(delay, tolerance), 1, 0);
    }
  }

  /**
   * handleInterrupt() at the end of a level of `d` µs, `d` no longer than
   * the separation limit, while a packet is being received: the level is
   * appended to the packet and nothing else changes.
   */
  method HearLevel(rx: Receiver, d: u32)
    requires rx.Valid() && 1 <= rx.changeCount < MainHeader.RCSWITCH_MAX_CHANGES && d <= SEPARATION_LIMIT
    modifies rx, rx.timings
    ensures rx.Valid() && rx.changeCount == old(rx.changeCount) + 1
    ensures rx.timings[..] == old(rx.timings[..])[old(rx.changeCount) := d]
    ensures rx.repeatCount == old(rx.repeatCount) && rx.Published() == old(rx.Published())
    ensures rx.tolerance == old(rx.tolerance)
  {
    rx.HandleInterrupt(Add32(rx.lastTime, d));
  }

  /**
   * handleInterrupt() at the end of a gap of `d` µs, longer than the
   * separation limit: a repeat of the gap in slot 0 counts a repeat and on
   * every second one decodes slots 0 to changeCount - 1; either way the
   * gap starts the next packet.
   */
  method HearGap(rx: Receiver, d: u32)
    requires rx.Valid() && rx.changeCount >= 1 && d > SEPARATION_LIMIT
    modifies rx, rx.timings
    ensures rx.Valid() && rx.changeCount == 1 && rx.timings[..] == old(rx.timings[..])[0 := d]
    ensures rx.tolerance == old(rx.tolerance)
    ensures var gap := IsRepeatGap(d, old(rx.timings[0]));
      rx.repeatCount == (if !gap then old(rx.repeatCount) else if old(rx.repeatCount) == 1 then 0 else old(rx.repeatCount) + 1)
      && rx.Published() ==
           if gap && old(rx.repeatCount) == 1
           then Chain(old(rx.timings[..]), old(rx.changeCount) - 1, rx.tolerance, rx.protocol3, old(rx.Published()))
           else old(rx.Published())
  {
    rx.HandleInterrupt(Add32(rx.lastTime, d));
  }

  /**
   * handleInterrupt() at the ends of levels of the durations `ds`, none
   * longer than the separation limit, while a packet is being received:
   * they fill the next slots and nothing else changes.
   */
  method HearLevels(rx: Receiver, ds: seq<u32>)
    requires rx.Valid() && 1 <= rx.changeCount && rx.changeCount + |ds| <= MainHeader.RCSWITCH_MAX_CHANGES
    requires forall k :: 0 <= k < |ds| ==> ds[k] <= SEPARATION_LIMIT
    modifies rx, rx.timings
    ensures rx.Valid() && rx.changeCount == old(rx.changeCount) + |ds|
    ensures forall j :: 0 <= j < old(rx.changeCount) ==> rx.timings[j] == old(rx.timings[j])
    ensures forall k :: 0 <= k < |ds| ==> rx.timings[old(rx.changeCount) + k] == ds[k]
    ensures rx.repeatCount == old(rx.repeatCount) && rx.Published() == old(rx.Published())
    ensures rx.tolerance == old(rx.tolerance)
  {
    ghost var c0 := rx.changeCount;
    var k := 0;
    while k < |ds|
      invariant 0 <= k <= |ds|
      invariant rx.Valid() && rx.changeCount == c0 + k
      invariant forall j :: 0 <= j < c0 ==> rx.timings[j] == old(rx.timings[j])
      invariant forall i :: 0 <= i < k ==> rx.timings[c0 + i] == ds[i]
      invariant rx.repeatCount == old(rx.repeatCount) && rx.Published() == old(rx.Published())
      invariant rx.tolerance == old(rx.tolerance)
    {
      HearLevel(rx, ds[k]);
      k := k + 1;
    }
  }

  /**
   * handleInterrupt() over one round of a sendable word under protocol 1:
   * one interrupt at the end of every level, each at the 32-bit time of
   * the one before plus the level's duration. The receiver has just
   * started a packet (slot 0 holds the gap before it). The round's levels
   * fill slots 1 on, and its sync gap either repeats the gap in slot 0,
   * when it counts a repeat and on every second one decodes the packet, or
   * starts a new packet; either way it is left in slot 0.
   */
  method HearRound(rx: Receiver, w: seq<char>, tristate: bool, pl: int)
    requires rx.Valid() && rx.changeCount == 1
    requires Sendable(w, tristate) && Separable(pl)
    modifies rx, rx.timings
    ensures rx.Valid() && rx.changeCount == 1 && rx.timings[0] == 31 * pl
    ensures rx.tolerance == old(rx.tolerance)
    ensures 2 * |Spelling(w, tristate)| + 1 < |Buffered(w, tristate, pl)|
    ensures var gap := IsRepeatGap(31 * pl, old(rx.timings[0]));
      rx.repeatCount == (if !gap then old(rx.repeatCount) else if old(rx.repeatCount) == 1 then 0 else old(rx.repeatCount) + 1)
      && rx.Published() ==
           if gap && old(rx.repeatCount) == 1
           then Chain([old(rx.timings[0])] + Buffered(w, tristate, pl)[1..], 2 * |Spelling(w, tristate)| + 1,
                      rx.tolerance, rx.protocol3, old(rx.Published()))
           else old(rx.Published())
  {
    var round := RoundWave(w, tristate, Protocol1(pl));
    ghost var b := Buffered(w, tristate, pl);
    var levels := Received(round[..|round| - 1]);
    var sync := Wrap(round[|round| - 1].micros);
    assert levels == b[1..] && sync == b[0] by {
      BufferedRotates(w, tristate, pl);
    }
    assert |Spelling(w, tristate)| <= 31 && |b| == 2 * |Spelling(w, tristate)| + 2 && b[0] == 31 * pl
      && forall j :: 1 <= j < |b| ==> b[j] <= 3 * pl by {
      BufferedLevels(w, tristate, pl);
    }
    ghost var t0 := rx.timings[0];
    HearLevels(rx, levels);
    ghost var ts := rx.timings[..];
    assert ts[..|b|] == [t0] + b[1..];
    HearGap(rx, sync);
    ChainPrefix(ts, [t0] + b[1..], |b| - 1, rx.tolerance, rx.protocol3, old(rx.Published()));
  }

  /**
   * A receiver that has heard nothing since it was constructed hears the
   * first three rounds of send() or sendTriState() under protocol 1. The
   * edge that starts the transmission comes `idle` µs after the receiver's
   * last interrupt. Round 1's sync gap starts a packet, round 2's counts
   * the first repeat and round 3's the second, which decodes the buffered
   * round; nothing is published before. An idle time within 200 µs of
   * the sync gap would itself count as a repeat, so it is excluded.
   */
  method HearTransmission(rx: Receiver, w: seq<char>, tristate: bool, pl: int, idle: u32)
    requires rx.Valid() && rx.changeCount == 0 && rx.repeatCount == 0
    requires Sendable(w, tristate) && Separable(pl) && !IsRepeatGap(31 * pl, idle)
    modifies rx, rx.timings
    ensures rx.Valid() && rx.changeCount == 1 && rx.repeatCount == 0 && rx.tolerance == old(rx.tolerance)
    ensures 2 * |Spelling(w, tristate)| + 1 < |Buffered(w, tristate, pl)|
    ensures rx.Published() ==
      Chain(Buffered(w, tristate, pl), 2 * |Spelling(w, tristate)| + 1, rx.tolerance, rx.protocol3, old(rx.Published()))
  {
    GapNeedsData(idle);
    rx.HandleInterrupt(Add32(rx.lastTime, idle));
    HearRound(rx, w, tristate, pl);
    assert rx.repeatCount == 0 && rx.Published() == old(rx.Published());
    assert IsRepeatGap(31 * pl, 31 * pl);
    HearRound(rx, w, tristate, pl);
    HearRound(rx, w, tristate, pl);
    BufferedLevels(w, tristate, pl);
    var b := Buffered(w, tristate, pl);
    assert [31 * pl] + b[1..] == b;
  }

  /**
   * What the handler then publishes for a binary word of 3 to 31 digits
   * with a nonzero value, at a pulse length and tolerance where nothing
   * wraps: its value, its bit length, the sender's pulse length and
   * protocol 1.
   */
  lemma WordPublishes(w: seq<char>, pl: int, tolerance: int, third: Shape, previous: Report)
    requires IsBinary(w) && 3 <= |w| <= 31 && BinValue(w) != 0
    requires LosslessRange(pl, tolerance) && third.syncFactor > 0
    ensures 2 * |w| + 1 < |Buffered(w, false, pl)| && BinValue(w) < 0x8000_0000
    ensures Chain(Buffered(w, false, pl), 2 * |w| + 1, tolerance, third, previous) == Report(BinValue(w), |w|, pl, 1)
  {
    var b := Buffered(w, false, pl);
    assert 2 * |w| + 1 < |b|
      && Decoded(b, 2 * |w| + 1, tolerance, PROTOCOL1) == BinValue(w)
      && DelayOf(b[0], PROTOCOL1.syncFactor) == pl by {
      SentWordDecodes(w, pl, tolerance, b);
    }
  }

  /** The same for a sendable word, tri-state words being reported as the value of their spelling. */
  lemma BufferedPublishes(w: seq<char>, tristate: bool, pl: int, tolerance: int, third: Shape, previous: Report)
    requires Sendable(w, tristate) && LosslessRange(pl, tolerance) && third.syncFactor > 0
    requires 3 <= |Spelling(w, tristate)| && BinValue(Spelling(w, tristate)) != 0
    ensures 2 * |Spelling(w, tristate)| + 1 < |Buffered(w, tristate, pl)| && BinValue(Spelling(w, tristate)) < 0x8000_0000
    ensures Chain(Buffered(w, tristate, pl), 2 * |Spelling(w, tristate)| + 1, tolerance, third, previous)
         == Report(BinValue(Spelling(w, tristate)), |Spelling(w, tristate)|, pl, 1)
  {
    var bits := Spelling(w, tristate);
    assert Buffered(w, tristate, pl) == Buffered(bits, false, pl) && IsBinary(bits) && |bits| <= 31 by {
      SpelledRound(w, tristate, pl);
    }
    WordPublishes(bits, pl, tolerance, third, previous);
  }

  /**
   * The scenario end to end: a receiver at the default tolerance that has
   * heard nothing yet hears sendTriState("0FFF0FFFFFFF") at 350 µs and
   * publishes 0x151555, 24 bits, 350 µs, protocol 1.
   */
  method HearScenario(rx: Receiver, idle: u32)
    requires rx.Valid() && rx.changeCount == 0 && rx.repeatCount == 0 && rx.tolerance == DEFAULT_TOLERANCE
    requires !IsRepeatGap(31 * 350, idle)
    modifies rx, rx.timings
    ensures rx.Published() == Report(0x151555, 24, 350, 1) && rx.Available()
  {
    var w := "0FFF0FFFFFFF";
    assert IsTriState(w);
    HearTransmission(rx, w, true, 350, idle);
    TypeBScenario(Buffered(w, true, 350), rx.protocol3, old(rx.Published()));
  }
}
