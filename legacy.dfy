/**
 * The oldest version of the library (trunk/RCSwitch/RCSwitch.cpp): a
 * transmitter only, which builds 13-symbol words ending in the sync symbol
 * 'S' and sends them by writing the pin high and low directly, with a
 * fixed pulse length `nDelay`.
 *
 * The pin is modelled as a trace of levels; this version has no "no pin"
 * value, so every write lands on the trace.
 */
module Legacy {
  import opened Common
  import QuiggCodes
  import MainSwitch
  import Trunk

  /** The pulse length the one-argument constructor sets, in microseconds. */
  const DEFAULT_DELAY: int := 469
  /** send() repeats a word this many times. */
  const REPEATS: int := 10
  /** send() reads exactly this many characters of the word, indices 0 to 12. */
  const WORD_LENGTH: int := 13

  // ---------------------------------------------------------------- code words

  /** getCodeWord(): the type B word of the trunk version followed by 'S'; empty for a position outside 1 to 4. */
  function CodeWord(address: int, channel: int, on: bool): (w: seq<char>)
  {
    if address < 1 || address > 4 || channel < 1 || channel > 4 then ""
    else QuiggCodes.TYPE_B_CODE[address] + QuiggCodes.TYPE_B_CODE[channel] + "FF" + (if on then "FF" else "F0") + "S"
  }

  /** getCodeWord2(): the type A word of the trunk version followed by 'S'; empty unless the group has five characters and the channel is 1 to 5. */
  function CodeWord2(group: seq<char>, channel: int, on: bool): (w: seq<char>)
  {
    if |group| != 5 || channel < 1 || channel > 5 then ""
    else QuiggCodes.DipSymbols(group) + Trunk.CHANNEL_CODE[channel] + (if on then "0F" else "F0") + "S"
  }

  /** Both builders are the trunk's builders with a trailing 'S', and reject the same arguments. */
  lemma CodeWordsAreTrunkWords(address: int, channel: int, group: seq<char>, on: bool)
    ensures CodeWord(address, channel, on) ==
      (if Trunk.CodeWordB(address, channel, on) == [] then [] else Trunk.CodeWordB(address, channel, on) + "S")
    ensures CodeWord2(group, channel, on) ==
      (if Trunk.CodeWordA(group, channel, on) == [] then [] else Trunk.CodeWordA(group, channel, on) + "S")
  {
    if 1 <= address <= 4 && 1 <= channel <= 4 {
      PositionNoSync(address);
      PositionNoSync(channel);
    }
  }

  lemma PositionNoSync(n: int)
    requires 0 <= n <= 4
    ensures |QuiggCodes.TYPE_B_CODE[n]| == 4 && 'S' !in QuiggCodes.TYPE_B_CODE[n]
  {
  }

  lemma ChannelNoSync(n: int)
    requires 0 <= n <= 5
    ensures |Trunk.CHANNEL_CODE[n]| == 5 && 'S' !in Trunk.CHANNEL_CODE[n]
  {
  }

  /** A trunk word that is not empty has twelve symbols, none of them the sync. */
  lemma TrunkWordsHaveNoSync(address: int, channel: int, group: seq<char>, on: bool)
    ensures Trunk.CodeWordB(address, channel, on) != [] ==>
      |Trunk.CodeWordB(address, channel, on)| == 12 && 'S' !in Trunk.CodeWordB(address, channel, on)
    ensures Trunk.CodeWordA(group, channel, on) != [] ==>
      |Trunk.CodeWordA(group, channel, on)| == 12 && 'S' !in Trunk.CodeWordA(group, channel, on)
  {
    if 1 <= address <= 4 && 1 <= channel <= 4 {
      PositionNoSync(address);
      PositionNoSync(channel);
    }
    if |group| == 5 && 1 <= channel <= 5 {
      ChannelNoSync(channel);
      var d := QuiggCodes.DipSymbols(group);
      assert forall i :: 0 <= i < |d| ==> d[i] != 'S';
    }
  }

  // ---------------------------------------------------------------- waveforms

  /**
   * What send() emits for one character at pulse length `delay`: send0,
   * sendF and send1 are the tri-state symbols, sendSync a short high and
   * a 31-unit low, and any other character emits nothing.
   */
  function SymbolWave(c: char, delay: int): seq<Pulse>
  {
    if c == '0' || c == 'F' || c == '1' then TriWave(c, delay)
    else if c == 'S' then Wave(delay, 1, 31, true)
    else []
  }

  /** `sCodeWord[i]`: a String reads as NUL past its end. */
  function CharAt(w: seq<char>, i: nat): char
  {
    if i < |w| then w[i] else '\0'
  }

  /** The symbols of characters 0 to n - 1. */
  function Symbols(w: seq<char>, n: nat, delay: int): seq<Pulse>
  {
    if n == 0 then [] else Symbols(w, n - 1, delay) + SymbolWave(CharAt(w, n - 1), delay)
  }

  /** One pass of send(): characters 0 to 12, whatever the word's length. */
  function RoundWave(w: seq<char>, delay: int): seq<Pulse>
  {
    Symbols(w, WORD_LENGTH, delay)
  }

  /** Everything send() emits: ten passes. */
  function SendWave(w: seq<char>, delay: int): seq<Pulse>
  {
    Repeat(RoundWave(w, delay), REPEATS)
  }

  /** Levels that start high and alternate, an even number of them: the pin ends low. */
  predicate Square(ps: seq<Pulse>)
  {
    |ps| % 2 == 0 && forall i :: 0 <= i < |ps| ==> ps[i].high == (i % 2 == 0)
  }

  lemma SquareConcat(a: seq<Pulse>, b: seq<Pulse>)
    requires Square(a) && Square(b)
    ensures Square(a + b)
  {
    forall i | |a| <= i < |a + b|
      ensures (a + b)[i].high == (i % 2 == 0)
    {
      assert (a + b)[i] == b[i - |a|];
    }
  }

  /** A square trace with anything on it has the pin low at its end. */
  lemma SquareEndsLow(ps: seq<Pulse>)
    requires Square(ps) && ps != []
    ensures !ps[|ps| - 1].high && ps[0].high
  {
  }

  /** Every symbol starts high and ends low. */
  lemma SymbolSquare(c: char, delay: int)
    ensures Square(SymbolWave(c, delay))
  {
  }

  lemma {:induction false} SymbolsSquare(w: seq<char>, n: nat, delay: int)
    ensures Square(Symbols(w, n, delay))
  {
    if n > 0 {
      SymbolsSquare(w, n - 1, delay);
      SymbolSquare(CharAt(w, n - 1), delay);
      SquareConcat(Symbols(w, n - 1, delay), SymbolWave(CharAt(w, n - 1), delay));
    }
  }

  lemma {:induction false} RepeatSquare(r: seq<Pulse>, n: int)
    requires Square(r)
    ensures Square(Repeat(r, n))
    decreases n
  {
    if n > 0 {
      RepeatSquare(r, n - 1);
      SquareConcat(Repeat(r, n - 1), r);
    }
  }

  /** Whatever the word, send() keeps the pin's trace square, so the pin is low after it. */
  lemma SendSquare(trace: seq<Pulse>, w: seq<char>, delay: int)
    requires Square(trace)
    ensures Square(trace + SendWave(w, delay))
    ensures trace + SendWave(w, delay) == [] || !(trace + SendWave(w, delay))[|trace + SendWave(w, delay)| - 1].high
  {
    SymbolsSquare(w, WORD_LENGTH, delay);
    RepeatSquare(RoundWave(w, delay), REPEATS);
    SquareConcat(trace, SendWave(w, delay));
  }

  /** An empty word, what the builders return for bad arguments, sends nothing. */
  lemma EmptySendsNothing(delay: int)
    ensures SendWave([], delay) == []
  {
    EmptySymbols(WORD_LENGTH, delay);
    RepeatEmpty(REPEATS);
  }

  lemma {:induction false} EmptySymbols(n: nat, delay: int)
    ensures Symbols([], n, delay) == []
  {
    if n > 0 {
      EmptySymbols(n - 1, delay);
    }
  }

  lemma {:induction false} RepeatEmpty(n: int)
    ensures Repeat<Pulse>([], n) == []
    decreases n
  {
    if n > 0 {
      RepeatEmpty(n - 1);
    }
  }

  /** Characters 0 to k - 1 of a word without 'S' emit what the trunk's tri-state sender emits for them. */
  lemma {:induction false} SymbolsAreTriState(w: seq<char>, k: nat, delay: int)
    requires k <= |w| && 'S' !in w
    ensures Symbols(w, k, delay) == MainSwitch.WordWave(w[..k], true, Trunk.ShapesAt(delay))
  {
    if k > 0 {
      SymbolsAreTriState(w, k - 1, delay);
      assert w[..k][..k - 1] == w[..k - 1];
      assert w[k - 1] != 'S';
    }
  }

  /**
   * Sending a word of twelve symbols and 'S' emits what the trunk's
   * sendTriState() emits for the twelve symbols with the pin set: the same
   * ten rounds of symbols each closed by the sync.
   */
  lemma SyncWordIsTriState(w: seq<char>, delay: int)
    requires |w| == 12 && 'S' !in w
    ensures SendWave(w + "S", delay) == MainSwitch.SendWave(w, true, Trunk.ShapesAt(delay), REPEATS)
  {
    var u := w + "S";
    assert u[..12] == w;
    assert 'S' !in u[..12];
    SymbolsAreTriState(u[..12], 12, delay);
    assert u[..12][..12] == w;
    assert forall k :: 0 <= k < 12 ==> CharAt(u, k) == CharAt(u[..12], k);
    SymbolsPrefix(u, u[..12], 12, delay);
    assert RoundWave(u, delay) == MainSwitch.RoundWave(w, true, Trunk.ShapesAt(delay));
  }

  /** Symbols read only the characters they cover. */
  lemma {:induction false} SymbolsPrefix(u: seq<char>, v: seq<char>, n: nat, delay: int)
    requires forall k :: 0 <= k < n ==> CharAt(u, k) == CharAt(v, k)
    ensures Symbols(u, n, delay) == Symbols(v, n, delay)
  {
    if n > 0 {
      SymbolsPrefix(u, v, n - 1, delay);
    }
  }

  /**
   * switchOn/switchOff: the old switch sends, for every address it
   * accepts, exactly what the trunk switch sends for the same address with
   * its pin set and the same pulse length; for the addresses it rejects it
   * sends nothing.
   */
  lemma SwitchMatchesTrunk(address: int, channel: int, group: seq<char>, on: bool, delay: int)
    ensures SendWave(CodeWord(address, channel, on), delay) ==
      MainSwitch.SendWave(Trunk.CodeWordB(address, channel, on), true, Trunk.ShapesAt(delay), REPEATS)
      || Trunk.CodeWordB(address, channel, on) == []
    ensures Trunk.CodeWordB(address, channel, on) == [] ==> SendWave(CodeWord(address, channel, on), delay) == []
    ensures SendWave(CodeWord2(group, channel, on), delay) ==
      MainSwitch.SendWave(Trunk.CodeWordA(group, channel, on), true, Trunk.ShapesAt(delay), REPEATS)
      || Trunk.CodeWordA(group, channel, on) == []
    ensures Trunk.CodeWordA(group, channel, on) == [] ==> SendWave(CodeWord2(group, channel, on), delay) == []
  {
    CodeWordsAreTrunkWords(address, channel, group, on);
    TrunkWordsHaveNoSync(address, channel, group, on);
    EmptySendsNothing(delay);
    var b := Trunk.CodeWordB(address, channel, on);
    if b != [] {
      SyncWordIsTriState(b, delay);
    }
    var a := Trunk.CodeWordA(group, channel, on);
    if a != [] {
      SyncWordIsTriState(a, delay);
    }
  }

  // ---------------------------------------------------------------- the switch

  class RCSwitch {
    const pin: int
    const delay: int
    /** Every level the pin was held at, oldest first. */
    var trace: seq<Pulse>

    /** RCSwitch(pin): pulses of 469 µs. */
    constructor(pin: int)
      ensures this.pin == pin && delay == DEFAULT_DELAY && trace == []
    {
      this.pin := pin;
      delay := DEFAULT_DELAY;
      trace := [];
    }

    /** RCSwitch(pin, delay). */
    constructor WithDelay(pin: int, delay: int)
      ensures this.pin == pin && this.delay == delay && trace == []
    {
      this.pin := pin;
      this.delay := delay;
      trace := [];
    }

    /** One digitalWrite() and the delayMicroseconds() after it: the pin at `high` for `units` pulse lengths. */
    method Level(high: bool, units: int)
      modifies this`trace
      ensures trace == old(trace) + [Pulse(high, delay * units)]
    {
      trace := trace + [Pulse(high, delay * units)];
    }

    method Send0()
      modifies this`trace
      ensures trace == old(trace) + SymbolWave('0', delay)
    {
      Level(true, 1);
      Level(false, 3);
      Level(true, 1);
      Level(false, 3);
    }

    method Send1()
      modifies this`trace
      ensures trace == old(trace) + SymbolWave('1', delay)
    {
      Level(true, 3);
      Level(false, 1);
      Level(true, 3);
      Level(false, 1);
    }

    method SendF()
      modifies this`trace
      ensures trace == old(trace) + SymbolWave('F', delay)
    {
      Level(true, 1);
      Level(false, 3);
      Level(true, 3);
      Level(false, 1);
    }

    method SendSync()
      modifies this`trace
      ensures trace == old(trace) + SymbolWave('S', delay)
    {
      Level(true, 1);
      Level(false, 31);
    }

    /** The switch on one character in send(). */
    method SendSymbol(c: char)
      modifies this`trace
      ensures trace == old(trace) + SymbolWave(c, delay)
    {
      if c == '0' {
        Send0();
      } else if c == 'F' {
        SendF();
      } else if c == '1' {
        Send1();
      } else if c == 'S' {
        SendSync();
      }
    }

    /** One pass of send(): characters 0 to 12. */
    method SendRound(word: seq<char>)
      modifies this`trace
      ensures trace == old(trace) + RoundWave(word, delay)
    {
      for i := 0 to WORD_LENGTH
        invariant trace == old(trace) + Symbols(word, i, delay)
      {
        var c := if i < |word| then word[i] else '\0';
        SendSymbol(c);
      }
    }

    /** send(word): ten passes, after which a square trace is still square and the pin is low. */
    method Send(word: seq<char>)
      modifies this`trace
      ensures trace == old(trace) + SendWave(word, delay)
      ensures Square(old(trace)) ==> Square(trace) && (trace == [] || !trace[|trace| - 1].high)
    {
      for r := 0 to REPEATS
        invariant trace == old(trace) + Repeat(RoundWave(word, delay), r)
      {
        SendRound(word);
      }
      if Square(old(trace)) {
        SendSquare(old(trace), word, delay);
      }
    }
  }
}
