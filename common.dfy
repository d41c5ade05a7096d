/**
 * Vocabulary shared by every version of the RCSwitch library: optional
 * results (a NULL or empty return), 32-bit unsigned arithmetic as the C++
 * compilers perform it on `unsigned long`, the pulses a transmitter drives
 * onto its pin and their durations, and the binary value of a string of
 * '0'/'1' digits.
 */
module Common {

  datatype Option<T> = None | Some(value: T)

  /** 2^32, the modulus of `unsigned long` (and of `unsigned int` on 32-bit targets). */
  const WORD: int := 0x1_0000_0000

  type u32 = x: int | 0 <= x < 0x1_0000_0000

  /**
   * The C conversion of an integer to a 32-bit unsigned value: add or
   * subtract 2^32 until the value is in range (`WrapIsMod` shows this is
   * the remainder modulo 2^32).
   */
  function Wrap(x: int): (r: u32)
    ensures 0 <= x < WORD ==> r == x
    decreases if x < 0 then WORD - x else x
  {
    if x < 0 then Wrap(x + WORD)
    else if x >= WORD then Wrap(x - WORD)
    else x
  }

  lemma {:induction false} WrapIsMod(x: int)
    ensures Wrap(x) == x % WORD
    decreases if x < 0 then WORD - x else x
  {
    if x < 0 {
      WrapIsMod(x + WORD);
      DivUnique(x + WORD, WORD, x / WORD + 1, x % WORD);
    } else if x >= WORD {
      WrapIsMod(x - WORD);
      DivUnique(x, WORD, (x - WORD) / WORD + 1, (x - WORD) % WORD);
    } else {
      DivUnique(x, WORD, 0, x);
    }
  }

  /** `a + b` on 32-bit unsigned operands: at most one wrap-around. */
  function Add32(a: u32, b: u32): (r: u32)
  {
    if a + b >= WORD then a + b - WORD else a + b
  }

  /** `a - b` on 32-bit unsigned operands: a negative difference wraps once. */
  function Sub32(a: u32, b: u32): (r: u32)
  {
    if a >= b then a - b else a - b + WORD
  }

  /** Both are the C conversion of the exact result. */
  lemma AddSub32Wrap(a: u32, b: u32)
    ensures Add32(a, b) == Wrap(a + b) && Sub32(a, b) == Wrap(a - b)
  {
  }

  function Mul32(a: int, b: int): u32 { Wrap(a * b) }

  /**
   * The decoders' test `t > centre - tol && t < centre + tol`, with both
   * bounds computed in 32-bit unsigned arithmetic.
   */
  predicate Inside(t: int, centre: u32, tol: u32)
  {
    t > Sub32(centre, tol) && t < Add32(centre, tol)
  }

  /** Without wrap-around the window is the open integer interval around `centre`. */
  lemma InsideExact(t: int, centre: u32, tol: u32)
    requires tol <= centre && centre + tol < WORD
    ensures Inside(t, centre, tol) <==> centre - tol < t < centre + tol
  {
  }

  /** When `centre - tol` wraps below zero the window is empty for every 32-bit `t` below the upper bound. */
  lemma InsideWrapped(t: int, centre: u32, tol: u32)
    requires centre < tol && centre + tol < WORD - tol
    requires 0 <= t < WORD
    ensures !Inside(t, centre, tol)
  {
  }

  function Pow2(n: nat): (r: nat)
    ensures r >= 1
  {
    if n == 0 then 1 else 2 * Pow2(n - 1)
  }

  /** Bit `k` of `d` (bit 0 is the least significant). */
  predicate Bit(d: nat, k: nat)
  {
    (d / Pow2(k)) % 2 == 1
  }

  /** The value of a digit string read most significant digit first; every digit other than '1' counts as 0. */
  function BinValue(s: seq<char>): (v: nat)
    ensures v < Pow2(|s|)
  {
    if s == [] then 0
    else 2 * BinValue(s[..|s| - 1]) + (if s[|s| - 1] == '1' then 1 else 0)
  }

  /** The transmit pin held high (`high`) or low for `micros` microseconds. */
  datatype Pulse = Pulse(high: bool, micros: int)

  function Durations(ps: seq<Pulse>): (ds: seq<int>)
    ensures |ds| == |ps|
    ensures forall i :: 0 <= i < |ps| ==> ds[i] == ps[i].micros
  {
    seq(|ps|, i requires 0 <= i < |ps| => ps[i].micros)
  }

  /** `n` copies of `r` one after the other; no copy when `n` is zero or negative (a C `for` loop). */
  function Repeat<T>(r: seq<T>, n: int): (s: seq<T>)
    ensures |s| == if n <= 0 then 0 else n * |r|
    decreases n
  {
    if n <= 0 then [] else Repeat(r, n - 1) + r
  }

  /** The characters of a C string stored in `s`: everything before the first NUL. */
  function CStr(s: seq<char>): (r: seq<char>)
    ensures r <= s
    ensures '\0' !in r
    ensures |r| < |s| ==> s[|r|] == '\0'
  {
    if s == [] || s[0] == '\0' then [] else [s[0]] + CStr(s[1..])
  }

  /** The `n` low bits of `d`, most significant first: '1' for a set bit, `fill` for a clear one. */
  function Digits(d: nat, n: nat, fill: char): (r: seq<char>)
    ensures |r| == n
  {
    seq(n, i requires 0 <= i < n => if Bit(d, n - 1 - i) then '1' else fill)
  }

  lemma DivUnique(d: int, m: int, q: int, r: int)
    requires m > 0 && d == m * q + r && 0 <= r < m
    ensures d / m == q && d % m == r
  {
    var q', r' := d / m, d % m;
    assert m * (q - q') == r' - r;
    if q - q' >= 1 {
      assert false;
    } else if q - q' <= -1 {
      assert false;
    }
  }

  lemma Pow2Add(a: nat, b: nat)
    ensures Pow2(a + b) == Pow2(a) * Pow2(b)
    decreases a
  {
    if a > 0 {
      Pow2Add(a - 1, b);
    }
  }

  lemma {:induction false} Pow2Mono(a: nat, b: nat)
    requires a <= b
    ensures Pow2(a) <= Pow2(b)
    decreases b
  {
    if a < b {
      Pow2Mono(a, b - 1);
    }
  }

  lemma Pow2Of31()
    ensures Pow2(31) == 0x8000_0000
  {
    assert Pow2(8) == 0x100;
    assert Pow2(16) == 0x1_0000;
    assert Pow2(24) == 0x100_0000;
  }

  /** Bit `k + 1` of `d` is bit `k` of `d / 2`: the effect of one right shift. */
  lemma BitShift(d: nat, k: nat)
    ensures d / Pow2(k + 1) == (d / 2) / Pow2(k)
    ensures Bit(d, k + 1) == Bit(d / 2, k)
  {
    var p := Pow2(k);
    var q := (d / 2) / p;
    var r := (d / 2) % p;
    assert d / 2 == p * q + r;
    assert d == (2 * p) * q + (2 * r + d % 2);
    DivUnique(d, 2 * p, q, 2 * r + d % 2);
  }

  /** The low `n` bits of `d` are the low `n - 1` bits of `d / 2` followed by bit 0. */
  lemma ModStep(d: nat, n: nat)
    requires n >= 1
    ensures d % Pow2(n) == 2 * ((d / 2) % Pow2(n - 1)) + d % 2
  {
    var p := Pow2(n - 1);
    var a := (d / 2) / p;
    var b := (d / 2) % p;
    assert d / 2 == p * a + b;
    assert d == (2 * p) * a + (2 * b + d % 2);
    DivUnique(d, 2 * p, a, 2 * b + d % 2);
  }

  /** Dropping the last digit of `n` digits of `d` leaves the `n - 1` digits of `d / 2`. */
  lemma DigitsStep(d: nat, n: nat, fill: char)
    requires n >= 1
    ensures Digits(d, n, fill)[..n - 1] == Digits(d / 2, n - 1, fill)
    ensures Digits(d, n, fill)[n - 1] == if d % 2 == 1 then '1' else fill
  {
    var s := Digits(d, n, fill);
    var t := Digits(d / 2, n - 1, fill);
    forall i | 0 <= i < n - 1
      ensures s[i] == t[i]
    {
      BitShift(d, n - 2 - i);
    }
    assert Pow2(0) == 1 && d / Pow2(0) == d;
    assert s[n - 1] == if Bit(d, 0) then '1' else fill;
  }

  /** Reading the digits back gives the low `n` bits of `d`: the digits string and `BinValue` are inverse. */
  lemma {:induction false} DigitsValue(d: nat, n: nat, fill: char)
    requires fill != '1'
    ensures BinValue(Digits(d, n, fill)) == d % Pow2(n)
  {
    if n > 0 {
      DigitsStep(d, n, fill);
      DigitsValue(d / 2, n - 1, fill);
      ModStep(d, n);
    }
  }

  /** Bits at or above position `n` have no influence on the `n` digits. */
  lemma {:induction false} DigitsLowBits(d: nat, n: nat, fill: char)
    ensures Digits(d, n, fill) == Digits(d % Pow2(n), n, fill)
  {
    if n > 0 {
      var e := d % Pow2(n);
      ModStep(d, n);
      assert e / 2 == (d / 2) % Pow2(n - 1) && e % 2 == d % 2;
      DigitsStep(d, n, fill);
      DigitsStep(e, n, fill);
      DigitsLowBits(d / 2, n - 1, fill);
      var s, t := Digits(d, n, fill), Digits(e, n, fill);
      assert s == s[..n - 1] + [s[n - 1]];
      assert t == t[..n - 1] + [t[n - 1]];
    }
  }

  /** Writing the value of a '0'/'1' string back as digits gives the string again: `Digits` inverts `BinValue`. */
  lemma {:induction false} DigitsOfValue(s: seq<char>)
    requires forall i :: 0 <= i < |s| ==> s[i] == '0' || s[i] == '1'
    ensures Digits(BinValue(s), |s|, '0') == s
  {
    if |s| > 0 {
      var n := |s|;
      var t := s[..n - 1];
      var v := BinValue(s);
      DigitsOfValue(t);
      DigitsStep(v, n, '0');
      assert v / 2 == BinValue(t) && v % 2 == (if s[n - 1] == '1' then 1 else 0);
      var r := Digits(v, n, '0');
      assert r == r[..n - 1] + [r[n - 1]];
      assert s == t + [s[n - 1]];
    }
  }

  // ---------------------------------------------------------------- transmitting

  /** One call of transmit(): the pin at one level for `first` pulse lengths, then at the other for `second`. */
  function Wave(pulseLength: int, first: int, second: int, highFirst: bool): seq<Pulse>
  {
    [Pulse(highFirst, pulseLength * first), Pulse(!highFirst, pulseLength * second)]
  }

  /** Total time a sequence of pulses takes. */
  function Duration(ps: seq<Pulse>): int
  {
    if ps == [] then 0 else Duration(ps[..|ps| - 1]) + ps[|ps| - 1].micros
  }

  lemma {:induction false} DurationConcat(a: seq<Pulse>, b: seq<Pulse>)
    ensures Duration(a + b) == Duration(a) + Duration(b)
    decreases |b|
  {
    if b == [] {
      assert a + b == a;
    } else {
      assert (a + b)[..|a + b| - 1] == a + b[..|b| - 1];
      assert (a + b)[|a + b| - 1] == b[|b| - 1];
      DurationConcat(a, b[..|b| - 1]);
    }
  }

  lemma WaveDuration(pulseLength: int, first: int, second: int, highFirst: bool)
    ensures Duration(Wave(pulseLength, first, second, highFirst)) == pulseLength * (first + second)
  {
    var w := Wave(pulseLength, first, second, highFirst);
    assert w[..1][..0] == [];
    assert Duration(w[..1]) == w[0].micros;
    assert pulseLength * first + pulseLength * second == pulseLength * (first + second);
  }

  /** What the air and the receiver see: the pulses sent so far, and the last received value and bit length. */
  datatype Air = Air(trace: seq<Pulse>, heard: (u32, int))

  /**
   * The effect of transmit() sending `ps` in the main and branch versions:
   * nothing without a transmitter pin; otherwise the pulses are appended
   * and, when a receiver interrupt is configured, re-enabling it afterwards
   * clears the last received value and bit length.
   */
  function Emit(s: Air, pin: int, interrupt: int, ps: seq<Pulse>): Air
  {
    if pin == -1 || ps == [] then s
    else Air(s.trace + ps, if interrupt != -1 then (0, 0) else s.heard)
  }

  /** Transmitting `a` and then `b` is transmitting `a + b`. */
  lemma EmitConcat(s: Air, pin: int, interrupt: int, a: seq<Pulse>, b: seq<Pulse>)
    ensures Emit(Emit(s, pin, interrupt, a), pin, interrupt, b) == Emit(s, pin, interrupt, a + b)
  {
    if pin != -1 && a != [] && b != [] {
      assert s.trace + a + b == s.trace + (a + b);
    }
  }

  /** The pulses of each symbol a sender knows, for one protocol and pulse length: bits, tri-state symbols and the sync. */
  datatype Shapes = Shapes(zero: seq<Pulse>, one: seq<Pulse>,
                           triZero: seq<Pulse>, triOne: seq<Pulse>, triFloat: seq<Pulse>,
                           sync: seq<Pulse>)

  /** sendT0, sendT1 and sendTF in every version: two fixed 1:3 / 3:1 halves, whatever the protocol ('F' and anything else is the float symbol). */
  function TriWave(symbol: char, pulseLength: int): seq<Pulse>
  {
    var short := Wave(pulseLength, 1, 3, true);
    var long := Wave(pulseLength, 3, 1, true);
    if symbol == '0' then short + short
    else if symbol == '1' then long + long
    else short + long
  }

  /**
   * A tri-state symbol is two bits of a protocol whose '0' is 1:3 and whose
   * '1' is 3:1 (protocol A of the branch, protocol 1 of the main version):
   * '0' is "00", '1' is "11" and 'F' is "01", so under such a protocol a
   * tri-state word is sent as the binary word `TriBits` of it.
   */
  function TriBits(w: seq<char>): (b: seq<char>)
    ensures forall i :: 0 <= i < |b| ==> b[i] == '0' || b[i] == '1'
  {
    if w == [] then []
    else TriBits(w[..|w| - 1]) + TriPair(w[|w| - 1])
  }

  function TriPair(c: char): seq<char>
  {
    if c == '0' then "00" else if c == '1' then "11" else if c == 'F' || c == 'f' then "01" else []
  }
}
