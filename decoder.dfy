/**
 * The pulse-pair decoder that the receiving versions of the library share:
 * the interrupt handler stores level durations in `timings`, slot 0 holding
 * the long gap before the packet, and a decoding attempt for one protocol
 * reads slots 1, 2, 3, ... in pairs, shifting a 0 into the code for a pair
 * that fits the protocol's '0' shape and a 1 for a pair that fits its '1'
 * shape. The constants and functions here are the parts every version
 * computes the same way; each version's receiver module instantiates them
 * with its own protocols.
 */
module Decoder {
  import opened Common

  /** A level lasting longer than this many microseconds separates two packets. */
  const SEPARATION_LIMIT: int := 5000
  /** How close, in microseconds, a separating gap must be to the stored one to count as a repeat. */
  const REPEAT_SLACK: int := 200
  /** A packet with this many level changes or fewer is taken for noise and not published. */
  const NOISE_CHANGES: int := 6

  /** What a receiver publishes: value, bit length, pulse length and protocol. */
  datatype Report = Report(value: u32, bitlength: int, delay: int, protocol: int)

  /** The microseconds between two interrupts, as `unsigned` subtraction computes them. */
  function Elapsed(last: u32, now: u32): u32
  {
    Sub32(now, last)
  }

  /** A separating gap whose length is within `REPEAT_SLACK` of the gap stored in slot 0. */
  predicate IsRepeatGap(d: u32, t0: u32)
  {
    d > SEPARATION_LIMIT && Inside(d, t0, REPEAT_SLACK)
  }

  /** An empty buffer (slot 0 still zero) never sees a repeat gap: `0 - 200` wraps to a huge lower bound. */
  lemma GapNeedsData(d: u32)
    ensures !IsRepeatGap(d, 0)
  {
  }

  /** The pulse length recovered from the gap in slot 0. */
  function DelayOf(t0: u32, syncFactor: nat): u32
    requires syncFactor > 0
  {
    t0 / syncFactor
  }

  /** The tolerance window: `tolerance` percent of the pulse length, rounded down. */
  function Window(delay: u32, tolerance: int): u32
  {
    Mul32(delay, tolerance) / 100
  }

  /** The two levels of a '0' and of a '1', in pulse lengths. */
  datatype Cycles = Cycles(zeroFirst: nat, zeroSecond: nat, oneFirst: nat, oneSecond: nat)

  /** The expected durations of the four levels at pulse length `delay`. */
  datatype Centres = Centres(zeroFirst: u32, zeroSecond: u32, oneFirst: u32, oneSecond: u32)

  function CentresOf(delay: u32, cy: Cycles): Centres
  {
    Centres(Mul32(delay, cy.zeroFirst), Mul32(delay, cy.zeroSecond),
            Mul32(delay, cy.oneFirst), Mul32(delay, cy.oneSecond))
  }

  /** Slots `i` and `i + 1` hold the two levels of a '0' bit. */
  predicate MatchesZero(ts: seq<u32>, i: int, c: Centres, tw: u32)
    requires 0 <= i && i + 1 < |ts|
  {
    Inside(ts[i], c.zeroFirst, tw) && Inside(ts[i + 1], c.zeroSecond, tw)
  }

  /** Slots `i` and `i + 1` hold the two levels of a '1' bit. */
  predicate MatchesOne(ts: seq<u32>, i: int, c: Centres, tw: u32)
    requires 0 <= i && i + 1 < |ts|
  {
    Inside(ts[i], c.oneFirst, tw) && Inside(ts[i + 1], c.oneSecond, tw)
  }

  /** `code << 1` on an `unsigned long`: the top bit is shifted out. */
  function Shl(code: u32): u32
  {
    if 2 * code >= WORD then 2 * code - WORD else 2 * code
  }

  /**
   * The decoding loop from pair `i` on, with `code` accumulated so far: a
   * '0' pair shifts the code, a '1' pair adds one and shifts, and any other
   * pair abandons the attempt with code 0.
   */
  function Scan(ts: seq<u32>, cc: int, c: Centres, tw: u32, i: int, code: u32): u32
    requires 1 <= i && cc < |ts|
    decreases cc - i
  {
    if i >= cc then code
    else if MatchesZero(ts, i, c, tw) then Scan(ts, cc, c, tw, i + 2, Shl(code))
    else if MatchesOne(ts, i, c, tw) then Scan(ts, cc, c, tw, i + 2, Shl(Add32(code, 1)))
    else 0
  }

  /** The code one attempt computes from slots 0 to `cc`: the scan shifted back right once. */
  function Decode(ts: seq<u32>, cc: int, tolerance: int, syncFactor: nat, cy: Cycles): (code: u32)
    requires syncFactor > 0 && 0 <= cc < |ts|
    ensures code < 0x8000_0000
  {
    var delay := DelayOf(ts[0], syncFactor);
    Scan(ts, cc, CentresOf(delay, cy), Window(delay, tolerance), 1, 0) / 2
  }

  /** Once a pair matches neither bit shape, the rest of the scan cannot revive the attempt: `k` pairs on from `i`. */
  lemma {:induction false} ScanRejects(ts: seq<u32>, cc: int, c: Centres, tw: u32, i: int, code: u32, k: nat)
    requires 1 <= i && i + 2 * k < cc < |ts|
    requires !MatchesZero(ts, i + 2 * k, c, tw) && !MatchesOne(ts, i + 2 * k, c, tw)
    ensures Scan(ts, cc, c, tw, i, code) == 0
    decreases k
  {
    if k > 0 {
      if MatchesZero(ts, i, c, tw) {
        ScanRejects(ts, cc, c, tw, i + 2, Shl(code), k - 1);
      } else if MatchesOne(ts, i, c, tw) {
        ScanRejects(ts, cc, c, tw, i + 2, Shl(Add32(code, 1)), k - 1);
      }
    }
  }

  /**
   * A packet whose `k`-th pair of levels (slots 2k+1 and 2k+2) fits neither
   * bit shape decodes to 0: the attempt fails.
   */
  lemma NoiseRejected(ts: seq<u32>, cc: int, tolerance: int, syncFactor: nat, cy: Cycles, k: nat)
    requires syncFactor > 0 && 2 * k + 1 < cc < |ts|
    requires var delay := DelayOf(ts[0], syncFactor);
      var c := CentresOf(delay, cy);
      !MatchesZero(ts, 2 * k + 1, c, Window(delay, tolerance)) && !MatchesOne(ts, 2 * k + 1, c, Window(delay, tolerance))
    ensures Decode(ts, cc, tolerance, syncFactor, cy) == 0
  {
    var delay := DelayOf(ts[0], syncFactor);
    ScanRejects(ts, cc, CentresOf(delay, cy), Window(delay, tolerance), 1, 0, k);
  }

  /**
   * Slots `i` and `i + 1` carry the digit `d`: a '0' fits the zero shape,
   * and a '1' fits the one shape but not the zero shape (the zero shape is
   * checked first).
   */
  predicate PairCarries(ts: seq<u32>, i: int, c: Centres, tw: u32, d: char)
    requires 0 <= i && i + 1 < |ts|
  {
    (d == '0' && MatchesZero(ts, i, c, tw))
    || (d == '1' && !MatchesZero(ts, i, c, tw) && MatchesOne(ts, i, c, tw))
  }

  /** The pairs of slots 1 to 2|w| carry the binary word `w`. */
  ghost predicate Carries(ts: seq<u32>, c: Centres, tw: u32, w: seq<char>)
  {
    2 * |w| + 1 < |ts|
    && forall k :: 0 <= k < |w| ==> PairCarries(ts, 2 * k + 1, c, tw, w[k])
  }

  lemma BinValueSnoc(w: seq<char>, j: int)
    requires 0 <= j < |w|
    ensures BinValue(w[..j + 1]) == 2 * BinValue(w[..j]) + (if w[j] == '1' then 1 else 0)
  {
    assert w[..j + 1][..j] == w[..j];
  }

  /** The code after reading the digit `d`: shifted, after adding one for a '1'. */
  function Step(code: u32, d: char): u32
  {
    if d == '1' then Shl(Add32(code, 1)) else Shl(code)
  }

  /** Below 2^31 nothing is shifted out: a step doubles the code with the digit added. */
  lemma StepValue(code: u32, d: char)
    requires code + 1 < 0x8000_0000
    ensures Step(code, d) == 2 * (code + if d == '1' then 1 else 0)
  {
  }

  /** One step of the scan over a pair that carries `d`. */
  lemma ScanDigit(ts: seq<u32>, cc: int, c: Centres, tw: u32, i: int, code: u32, d: char)
    requires 1 <= i < cc < |ts| && PairCarries(ts, i, c, tw, d)
    ensures Scan(ts, cc, c, tw, i, code) == Scan(ts, cc, c, tw, i + 2, Step(code, d))
  {
  }

  /**
   * From pair `j` (slot `i`) on, the scan finishes reading `w` when the
   * code accumulated so far is twice the value of the first `j` digits: it
   * ends as twice the value of `w`.
   */
  lemma {:induction false} ScanReadsBits(ts: seq<u32>, cc: int, c: Centres, tw: u32, w: seq<char>, j: int, i: int, code: u32)
    requires Carries(ts, c, tw, w) && |w| <= 31 && 0 <= j <= |w|
    requires cc == 2 * |w| + 1 && i == 2 * j + 1 && code == 2 * BinValue(w[..j])
    ensures Scan(ts, cc, c, tw, i, code) == 2 * BinValue(w)
    decreases |w| - j
  {
    if j == |w| {
      assert w[..j] == w;
    } else {
      BinValueSnoc(w, j);
      Pow2Mono(j + 1, 31);
      Pow2Of31();
      assert BinValue(w[..j + 1]) < 0x8000_0000;
      StepValue(code, w[j]);
      var next := Step(code, w[j]);
      assert next == 2 * BinValue(w[..j + 1]);
      ScanReadsBits(ts, cc, c, tw, w, j + 1, i + 2, next);
      assert PairCarries(ts, i, c, tw, w[j]);
      ScanDigit(ts, cc, c, tw, i, code, w[j]);
    }
  }

  /** A buffer carrying a binary word of up to 31 digits decodes to that word's value. */
  lemma DecodesWord(ts: seq<u32>, tolerance: int, syncFactor: nat, cy: Cycles, w: seq<char>)
    requires syncFactor > 0 && |ts| > 0 && |w| <= 31
    requires var delay := DelayOf(ts[0], syncFactor); Carries(ts, CentresOf(delay, cy), Window(delay, tolerance), w)
    ensures Decode(ts, 2 * |w| + 1, tolerance, syncFactor, cy) == BinValue(w)
  {
    var delay := DelayOf(ts[0], syncFactor);
    var c, tw := CentresOf(delay, cy), Window(delay, tolerance);
    assert w[..0] == [];
    ScanReadsBits(ts, 2 * |w| + 1, c, tw, w, 0, 1, 0);
    assert Decode(ts, 2 * |w| + 1, tolerance, syncFactor, cy) == Scan(ts, 2 * |w| + 1, c, tw, 1, 0) / 2;
  }
}
