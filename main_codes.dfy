/**
 * The code-word builders of the main RCSwitch.cpp and the converter
 * `dec2binWcharfill` they use. The converter writes into one static buffer
 * of 64 characters that every call shares; here that buffer is an array
 * passed in by its owner, so that what a call leaves behind in it is part
 * of the state. Type A and B words and the REV word are the same as the
 * raspberry-quigg branch builds, and the builders are proved against the
 * branch's functions; the Intertechno builder accepts other families and
 * has its own function and parser.
 */
module MainCodes {
  import opened Common
  import QuiggCodes

  /** Size of the static buffer of dec2binWcharfill(). */
  const BUFFER: nat := 64

  // ---------------------------------------------------------------- dec2binWcharfill

  /** How many times `Dec >>= 1` runs before `Dec` reaches zero: the number of significant bits. */
  function SigBits(d: nat): (n: nat)
    ensures d == 0 <==> n == 0
  {
    if d == 0 then 0 else 1 + SigBits(d / 2)
  }

  /** `d` fits in `n` bits exactly when it has at most `n` significant bits. */
  lemma {:induction false} SigBitsFits(d: nat, n: nat)
    ensures SigBits(d) <= n <==> d < Pow2(n)
    decreases d
  {
    if d > 0 && n > 0 {
      SigBitsFits(d / 2, n - 1);
    }
  }

  /** Bits at and above the significant ones are clear. */
  lemma HighBitsClear(d: nat, k: nat)
    requires k >= SigBits(d)
    ensures !Bit(d, k)
  {
    SigBitsFits(d, k);
    DivUnique(d, Pow2(k), 0, d);
  }

  /** The character the first loop writes for bit `k` of `d`. */
  function BitChar(d: nat, k: nat, fill: char): char
  {
    if Bit(d, k) then '1' else fill
  }

  /**
   * The first loop from the state (`Dec`, `i`) = (`d`, `i`): bit 0 of the
   * remaining value is written at 32 + i, then the value is shifted right.
   */
  function Stored(buf: seq<char>, d: nat, i: nat, fill: char): (r: seq<char>)
    requires |buf| == BUFFER && i + SigBits(d) <= 32
    ensures |r| == BUFFER
    decreases d
  {
    if d == 0 then buf
    else Stored(buf[32 + i := if d % 2 == 1 then '1' else fill], d / 2, i + 1, fill)
  }

  /** The character the second loop writes at position `j`: a copy from the upper half, or `fill`. */
  function CopyChar(buf: seq<char>, n: nat, i: nat, j: nat, fill: char): char
    requires |buf| == BUFFER && n < BUFFER && i <= 32 && j < n
  {
    if j >= Sub32(n, i) then buf[31 + i - (j - Sub32(n, i))] else fill
  }

  /** The second loop from position `j` on. */
  function Copied(buf: seq<char>, n: nat, i: nat, j: nat, fill: char): (r: seq<char>)
    requires |buf| == BUFFER && n < BUFFER && i <= 32 && j <= n
    ensures |r| == BUFFER
    decreases n - j
  {
    if j == n then buf
    else Copied(buf[j := CopyChar(buf, n, i, j, fill)], n, i, j + 1, fill)
  }

  /** The whole buffer after dec2binWcharfill(dec, n, fill) on a buffer holding `buf`. */
  function CharFillBuffer(buf: seq<char>, dec: u32, n: nat, fill: char): (r: seq<char>)
    requires |buf| == BUFFER && n < BUFFER
    ensures |r| == BUFFER && r[n] == '\0'
  {
    SigBitsFits(dec, 32);
    Pow2Of31();
    Copied(Stored(buf, dec, 0, fill), n, SigBits(dec), 0, fill)[n := '\0']
  }

  /** After the first loop, slot `m` holds bit `m - 32 - i` of `d` when that is a significant bit, and is unchanged otherwise. */
  lemma {:induction false} StoredAt(buf: seq<char>, d: nat, i: nat, fill: char, m: nat)
    requires |buf| == BUFFER && i + SigBits(d) <= 32 && m < BUFFER
    ensures Stored(buf, d, i, fill)[m] ==
      if 32 + i <= m < 32 + i + SigBits(d) then BitChar(d, m - 32 - i, fill) else buf[m]
    decreases d
  {
    if d > 0 {
      var next := buf[32 + i := if d % 2 == 1 then '1' else fill];
      StoredAt(next, d / 2, i + 1, fill, m);
      if 32 + i < m < 32 + i + SigBits(d) {
        BitShift(d, m - 33 - i);
      } else if m == 32 + i {
        assert Pow2(0) == 1 && d / Pow2(0) == d;
      }
    }
  }

  /**
   * For `n` of at most 33 the second loop never reads a slot it has
   * already written: position `k` from `start` on gets CopyChar of the
   * buffer as it was before the loop, and every other slot is unchanged.
   */
  lemma {:induction false} CopiedAt(buf: seq<char>, n: nat, i: nat, start: nat, fill: char, k: nat)
    requires |buf| == BUFFER && n <= 33 && i <= 32 && start <= n && k < BUFFER
    ensures Copied(buf, n, i, start, fill)[k] ==
      if start <= k < n then CopyChar(buf, n, i, k, fill) else buf[k]
    decreases n - start
  {
    if start < n {
      var next := buf[start := CopyChar(buf, n, i, start, fill)];
      CopiedAt(next, n, i, start + 1, fill, k);
      if start < k < n {
        assert CopyChar(next, n, i, k, fill) == CopyChar(buf, n, i, k, fill);
      }
    }
  }

  /** Character `k` of dec2binWcharfill(dec, n, fill) for `n` up to 33. */
  lemma CharFillAt(buf: seq<char>, dec: u32, n: nat, fill: char, k: nat)
    requires |buf| == BUFFER && k < n <= 33
    ensures CharFillBuffer(buf, dec, n, fill)[k] ==
      if dec < Pow2(n) then BitChar(dec, n - 1 - k, fill) else fill
  {
    SigBitsFits(dec, 32);
    Pow2Of31();
    SigBitsFits(dec, n);
    var i := SigBits(dec);
    var stored := Stored(buf, dec, 0, fill);
    var copied := Copied(stored, n, i, 0, fill);
    assert CharFillBuffer(buf, dec, n, fill)[k] == copied[k];
    CopiedAt(stored, n, i, 0, fill, k);
    if k >= Sub32(n, i) {
      assert i <= n && 31 + i - (k - Sub32(n, i)) == 31 + n - k;
      StoredAt(buf, dec, 0, fill, 31 + n - k);
      assert copied[k] == BitChar(dec, n - 1 - k, fill);
    } else {
      assert copied[k] == fill;
      if dec < Pow2(n) {
        HighBitsClear(dec, n - 1 - k);
      }
    }
  }

  /**
   * For bit lengths up to 33, dec2binWcharfill() yields `dec` in `n`
   * characters, most significant first, a clear bit and the padding both
   * as `fill` — when `dec` fits in `n` bits; when it does not, the unsigned
   * `bitLength - i` wraps around and every character is `fill`. The string
   * is NUL-terminated.
   */
  lemma CharFillDigits(buf: seq<char>, dec: u32, n: nat, fill: char)
    requires |buf| == BUFFER && n <= 33
    ensures var r := CharFillBuffer(buf, dec, n, fill);
      r[n] == '\0'
      && (dec < Pow2(n) ==> r[..n] == Digits(dec, n, fill))
      && (dec >= Pow2(n) ==> r[..n] == seq(n, _ => fill))
  {
    var r := CharFillBuffer(buf, dec, n, fill);
    forall k | 0 <= k < n
      ensures r[k] == if dec < Pow2(n) then Digits(dec, n, fill)[k] else fill
    {
      CharFillAt(buf, dec, n, fill, k);
    }
  }

  /** With fill '0' the string reads back as `dec`: dec2binWzerofill() and BinValue are inverse. */
  lemma ZeroFillValue(buf: seq<char>, dec: u32, n: nat)
    requires |buf| == BUFFER && n <= 33 && dec < Pow2(n)
    ensures BinValue(CharFillBuffer(buf, dec, n, '0')[..n]) == dec
  {
    CharFillDigits(buf, dec, n, '0');
    DigitsValue(dec, n, '0');
    DivUnique(dec, Pow2(n), 0, dec);
  }

  /** The last step of the second loop copies slot 32, which a step after position 32 no longer changes. */
  lemma {:induction false} CopiedLast(buf: seq<char>, n: nat, i: nat, j: nat, fill: char)
    requires |buf| == BUFFER && 34 <= n < BUFFER && 1 <= i <= 32 && n - i > 32
    requires j <= n - 1 && (j > 32 ==> buf[32] == fill)
    ensures Copied(buf, n, i, j, fill)[n - 1] == fill
    decreases n - j
  {
    var next := buf[j := CopyChar(buf, n, i, j, fill)];
    if j < n - 1 {
      CopiedLast(next, n, i, j + 1, fill);
    } else {
      assert Copied(next, n, i, j + 1, fill) == next;
    }
  }

  /**
   * For bit lengths of 34 and more the second loop overwrites slot 32
   * with `fill` before it copies the least significant bit from there, so
   * a value of at most `n - 33` significant bits loses its last digit.
   */
  lemma CharFillDropsLowBit(buf: seq<char>, dec: u32, n: nat, fill: char)
    requires |buf| == BUFFER && 34 <= n < BUFFER && 0 < dec && SigBits(dec) <= n - 33
    ensures CharFillBuffer(buf, dec, n, fill)[n - 1] == fill
  {
    SigBitsFits(dec, 32);
    Pow2Of31();
    CopiedLast(Stored(buf, dec, 0, fill), n, SigBits(dec), 0, fill);
  }

  /** The smallest instance: dec2binWzerofill(1, 34) ends in '0' where the digits of 1 end in '1'. */
  lemma ZeroFillOneIn34(buf: seq<char>)
    requires |buf| == BUFFER
    ensures CharFillBuffer(buf, 1, 34, '0')[33] == '0'
    ensures Digits(1, 34, '0')[33] == '1'
  {
    assert SigBits(1) == 1 by {
      assert SigBits(0) == 0;
    }
    CharFillDropsLowBit(buf, 1, 34, '0');
    assert Pow2(0) == 1;
  }

  /**
   * dec2binWcharfill(): `Dec`'s bits go to slots 32 onwards least
   * significant first, then the first `bitLength` slots are filled from
   * there in reverse with `fill` in front, and a NUL follows.
   */
  method Dec2BinWcharfill(bin: array<char>, dec: u32, bitLength: nat, fill: char)
    requires bin.Length == BUFFER && bitLength < BUFFER
    modifies bin
    ensures bin[..] == CharFillBuffer(old(bin[..]), dec, bitLength, fill)
  {
    var i := StoreBits(bin, dec, fill);
    CopyBits(bin, bitLength, i, fill);
    bin[bitLength] := '\0';
  }

  /** The first loop of dec2binWcharfill(): `i` counts the bits stored. */
  method StoreBits(bin: array<char>, dec: u32, fill: char) returns (i: nat)
    requires bin.Length == BUFFER
    modifies bin
    ensures i == SigBits(dec) <= 32
    ensures bin[..] == Stored(old(bin[..]), dec, 0, fill)
  {
    SigBitsFits(dec, 32);
    Pow2Of31();
    ghost var start := bin[..];
    var d: int := dec;
    i := 0;
    while d > 0
      invariant 0 <= d && i + SigBits(d) == SigBits(dec) <= 32
      invariant Stored(bin[..], d, i, fill) == Stored(start, dec, 0, fill)
      decreases d
    {
      bin[32 + i] := if d % 2 == 1 then '1' else fill;
      i := i + 1;
      d := d / 2;
    }
  }

  /** The second loop of dec2binWcharfill(). */
  method CopyBits(bin: array<char>, bitLength: nat, i: nat, fill: char)
    requires bin.Length == BUFFER && bitLength < BUFFER && i <= 32
    modifies bin
    ensures bin[..] == Copied(old(bin[..]), bitLength, i, 0, fill)
  {
    ghost var stored := bin[..];
    var j := 0;
    while j < bitLength
      invariant 0 <= j <= bitLength
      invariant Copied(bin[..], bitLength, i, j, fill) == Copied(stored, bitLength, i, 0, fill)
      decreases bitLength - j
    {
      if j >= Sub32(bitLength, i) {
        bin[j] := bin[31 + i - (j - Sub32(bitLength, i))];
      } else {
        bin[j] := fill;
      }
      j := j + 1;
    }
  }

  /** dec2binWzerofill(): dec2binWcharfill() with fill '0'. */
  method Dec2BinWzerofill(bin: array<char>, dec: u32, bitLength: nat)
    requires bin.Length == BUFFER && bitLength < BUFFER
    modifies bin
    ensures bin[..] == CharFillBuffer(old(bin[..]), dec, bitLength, '0')
  {
    Dec2BinWcharfill(bin, dec, bitLength, '0');
  }

  // ---------------------------------------------------------------- type A and B

  /** getCodeWordA(): the branch's type A word, written into a fresh buffer through a cursor. */
  method GetCodeWordA(group: array<char>, device: array<char>, on: bool) returns (r: array<char>)
    requires group.Length >= 5 && device.Length >= 5
    ensures fresh(r) && r[..] == QuiggCodes.CodeWordA(group[..], device[..], on) + ['\0']
  {
    ghost var want := QuiggCodes.CodeWordA(group[..], device[..], on);
    r := new char[13];
    var j := 0;
    for i := 0 to 5
      invariant j == i
      invariant forall k :: 0 <= k < j ==> r[k] == want[k]
    {
      if group[i] == '0' {
        r[j] := 'F';
      } else {
        r[j] := '0';
      }
      j := j + 1;
    }
    for i := 0 to 5
      invariant j == 5 + i
      invariant forall k :: 0 <= k < j ==> r[k] == want[k]
    {
      if device[i] == '0' {
        r[j] := 'F';
      } else {
        r[j] := '0';
      }
      j := j + 1;
    }
    if on {
      r[j] := '0';
      r[j + 1] := 'F';
    } else {
      r[j] := 'F';
      r[j + 1] := '0';
    }
    j := j + 2;
    r[j] := '\0';
    assert r[..] == want + ['\0'];
  }

  /** getCodeWordB(): null outside positions 1 to 4, else the branch's type B word in a fresh buffer. */
  method GetCodeWordB(address: int, channel: int, on: bool) returns (r: Option<array<char>>)
    ensures r.Some? <==> QuiggCodes.CodeWordB(address, channel, on).Some?
    ensures r.Some? ==> fresh(r.value) && r.value[..] == QuiggCodes.CodeWordB(address, channel, on).value + ['\0']
  {
    var code := QuiggCodes.TYPE_B_CODE;
    if address < 1 || address > 4 || channel < 1 || channel > 4 {
      return None;
    }
    ghost var want := QuiggCodes.CodeWordB(address, channel, on).value;
    var s := new char[13];
    var pos := 0;
    for i := 0 to 4
      invariant pos == i
      invariant forall j :: 0 <= j < pos ==> s[j] == want[j]
    {
      s[pos] := code[address][i];
      pos := pos + 1;
    }
    for i := 0 to 4
      invariant pos == 4 + i
      invariant forall j :: 0 <= j < pos ==> s[j] == want[j]
    {
      s[pos] := code[channel][i];
      pos := pos + 1;
    }
    s[pos] := 'F';
    pos := pos + 1;
    s[pos] := 'F';
    pos := pos + 1;
    s[pos] := 'F';
    pos := pos + 1;
    s[pos] := if on then 'F' else '0';
    pos := pos + 1;
    s[pos] := '\0';
    assert s[..] == want + ['\0'];
    return Some(s);
  }

  // ---------------------------------------------------------------- type C

  /** The family letter 'a' to 'p' as an index 0 to 15, or -1 for any other character. */
  function FamilyIndex(family: char): (k: int)
    ensures -1 <= k < 16
    ensures k != -1 <==> 'a' <= family <= 'p'
    ensures k != -1 ==> family == (97 + k) as char
  {
    if (family as int) < 97 || (family as int) > 112 then -1 else family as int - 97
  }

  /** The family code of index `k` is `k` as a nibble: bit `i` set puts an 'F' at symbol `i`. */
  lemma FamilyCodeIsNibble(k: nat)
    requires k < 16
    ensures QuiggCodes.TYPE_C_CODE[k] == QuiggCodes.Nibble(k)
  {
    assert Pow2(0) == 1 && Pow2(1) == 2 && Pow2(2) == 4 && Pow2(3) == 8;
    var code, n := QuiggCodes.TYPE_C_CODE[k], QuiggCodes.Nibble(k);
    forall i | 0 <= i < 4
      ensures code[i] == n[i]
    {
      QuiggCodes.NibbleBits(k, i);
    }
  }

  /** Each Intertechno family code is the family's index as a nibble. */
  lemma FamilyCodesAreNibbles()
    ensures forall k :: 0 <= k < 16 ==> QuiggCodes.TYPE_C_CODE[k] == QuiggCodes.Nibble(k)
  {
    forall k | 0 <= k < 16
      ensures QuiggCodes.TYPE_C_CODE[k] == QuiggCodes.Nibble(k)
    {
      FamilyCodeIsNibble(k);
    }
  }

  /** The Intertechno word of families 'a' to 'p': family code, device and group nibble, "0FF", then on 'F' or off '0'. */
  function CodeWordC(family: char, group: int, device: int, on: bool): (r: Option<seq<char>>)
    ensures r.Some? <==> 'a' <= family <= 'p' && 1 <= group <= 4 && 1 <= device <= 4
    ensures r.Some? ==> |r.value| == 12 && r.value[8..11] == "0FF"
  {
    var k := FamilyIndex(family);
    if k == -1 || group < 1 || group > 4 || device < 1 || device > 4 then None
    else Some(QuiggCodes.TYPE_C_CODE[k] + QuiggCodes.Nibble((device - 1) + (group - 1) * 4) + "0FF" + [if on then 'F' else '0'])
  }

  /** Reads family, group, device and status back from an Intertechno word. */
  function ParseC(w: seq<char>): Option<(char, int, int, bool)>
  {
    if |w| == 12 && (forall i :: 0 <= i < 8 ==> w[i] in "0F") && w[8..11] == "0FF" && w[11] in "F0" then
      var x := QuiggCodes.NibbleValue(w[4..8]);
      Some(((97 + QuiggCodes.NibbleValue(w[..4])) as char, x / 4 + 1, x % 4 + 1, w[11] == 'F'))
    else None
  }

  lemma NibbleSymbols(x: nat)
    ensures forall i :: 0 <= i < 4 ==> QuiggCodes.Nibble(x)[i] in "0F"
  {
  }

  /** ParseC inverts CodeWordC. */
  lemma CodeWordCParses(family: char, group: int, device: int, on: bool)
    requires CodeWordC(family, group, device, on).Some?
    ensures ParseC(CodeWordC(family, group, device, on).value) == Some((family, group, device, on))
  {
    var k := FamilyIndex(family);
    FamilyCodeIsNibble(k);
    var x := (device - 1) + (group - 1) * 4;
    var v := CodeWordC(family, group, device, on).value;
    assert v[..4] == QuiggCodes.Nibble(k);
    assert v[4..8] == QuiggCodes.Nibble(x);
    QuiggCodes.NibbleRoundTrip(k);
    QuiggCodes.NibbleRoundTrip(x);
    NibbleSymbols(k);
    NibbleSymbols(x);
    assert forall i :: 0 <= i < 8 ==> v[i] in "0F" by {
      assert v[..8] == QuiggCodes.Nibble(k) + QuiggCodes.Nibble(x);
    }
    assert x / 4 + 1 == group && x % 4 + 1 == device;
  }

  /** Only words CodeWordC builds parse. */
  lemma ParseCBuilds(w: seq<char>)
    requires ParseC(w).Some?
    ensures CodeWordC(ParseC(w).value.0, ParseC(w).value.1, ParseC(w).value.2, ParseC(w).value.3) == Some(w)
  {
    FamilyCodesAreNibbles();
    QuiggCodes.NibbleOfValue(w[..4]);
    QuiggCodes.NibbleOfValue(w[4..8]);
    var k := QuiggCodes.NibbleValue(w[..4]);
    var x := QuiggCodes.NibbleValue(w[4..8]);
    var p := ParseC(w).value;
    assert FamilyIndex(p.0) == k;
    var v := CodeWordC(p.0, p.1, p.2, p.3).value;
    assert (x % 4 + 1 - 1) + (x / 4 + 1 - 1) * 4 == x;
    assert v == w[..4] + w[4..8] + w[8..11] + [w[11]];
    assert w == w[..4] + w[4..8] + w[8..11] + [w[11]];
  }

  /**
   * getCodeWordC(): null for a bad family, group or device; otherwise the
   * device and group number goes through dec2binWzerofill() into the
   * shared buffer and is read back from it in reverse.
   */
  method GetCodeWordC(bin: array<char>, family: char, group: int, device: int, on: bool) returns (r: Option<array<char>>)
    requires bin.Length == BUFFER
    modifies bin
    ensures r.Some? <==> CodeWordC(family, group, device, on).Some?
    ensures r.Some? ==> fresh(r.value) && r.value[..] == CodeWordC(family, group, device, on).value + ['\0']
    ensures r.None? ==> bin[..] == old(bin[..])
    ensures r.Some? ==> bin[..] == CharFillBuffer(old(bin[..]), (device - 1) + (group - 1) * 4, 4, '0')
  {
    if (family as int) < 97 || (family as int) > 112 || group < 1 || group > 4 || device < 1 || device > 4 {
      return None;
    }
    var x := (device - 1) + (group - 1) * 4;
    ghost var old0 := bin[..];
    Dec2BinWzerofill(bin, x, 4);
    CharFillDigits(old0, x, 4, '0');
    assert Pow2(4) == 16;
    var s := FillC(bin, family as int - 97, x, on);
    return Some(s);
  }

  /** The second half of getCodeWordC(): the family code, the four digits in `bin` reversed as 'F'/'0', then "0FF" and the status. */
  method FillC(bin: array<char>, k: int, x: nat, on: bool) returns (s: array<char>)
    requires bin.Length == BUFFER && 0 <= k < 16 && x < 16
    requires forall j :: 0 <= j < 4 ==> bin[j] == Digits(x, 4, '0')[j]
    ensures fresh(s)
    ensures s[..] == QuiggCodes.TYPE_C_CODE[k] + QuiggCodes.Nibble(x) + "0FF" + [if on then 'F' else '0'] + ['\0']
  {
    ghost var familyCode := QuiggCodes.TYPE_C_CODE[k];
    ghost var nibble := QuiggCodes.Nibble(x);
    s := new char[13];
    var pos := 0;
    for i := 0 to 4
      modifies s
      invariant pos == i
      invariant forall j :: 0 <= j < pos ==> s[j] == familyCode[j]
    {
      s[pos] := QuiggCodes.TYPE_C_CODE[k][i];
      pos := pos + 1;
    }
    for i := 0 to 4
      modifies s
      invariant pos == 4 + i
      invariant forall j :: 0 <= j < 4 ==> s[j] == familyCode[j]
      invariant forall j :: 4 <= j < pos ==> s[j] == nibble[j - 4]
    {
      s[pos] := if bin[3 - i] == '1' then 'F' else '0';
      pos := pos + 1;
    }
    s[pos] := '0';
    pos := pos + 1;
    s[pos] := 'F';
    pos := pos + 1;
    s[pos] := 'F';
    pos := pos + 1;
    s[pos] := if on then 'F' else '0';
    pos := pos + 1;
    s[pos] := '\0';
    assert s[..] == familyCode + nibble + "0FF" + [if on then 'F' else '0'] + ['\0'];
  }

  // ---------------------------------------------------------------- type D (REV)

  /** The value getCodeWordD() converts for a group letter: 8, 4, 2, 1 for a/A to d/D, 0 for any other. */
  function GroupValue(group: char): (v: nat)
    ensures v != 0 <==> QuiggCodes.GroupE(group).Some?
  {
    if group == 'a' || group == 'A' then 8
    else if group == 'b' || group == 'B' then 4
    else if group == 'c' || group == 'C' then 2
    else if group == 'd' || group == 'D' then 1
    else 0
  }

  /** The value getCodeWordD() converts for a device number: 4, 2, 1 for 1 to 3, 0 for any other. */
  function DeviceValue(device: int): (v: nat)
    ensures v != 0 <==> QuiggCodes.DeviceE(device).Some?
  {
    if device == 1 then 4 else if device == 2 then 2 else if device == 3 then 1 else 0
  }

  /** The group's conversion through the shared buffer yields the branch's one-hot group code. */
  lemma GroupDigits(buf: seq<char>, group: char)
    requires |buf| == BUFFER && QuiggCodes.GroupE(group).Some?
    ensures CharFillBuffer(buf, GroupValue(group), 4, 'F')[..4] == QuiggCodes.GroupE(group).value
  {
    QuiggCodes.GroupCodesE();
    assert Pow2(4) == 16;
    CharFillDigits(buf, GroupValue(group), 4, 'F');
  }

  /** The device's conversion through the shared buffer yields the branch's one-hot device code. */
  lemma DeviceDigits(buf: seq<char>, device: int)
    requires |buf| == BUFFER && QuiggCodes.DeviceE(device).Some?
    ensures CharFillBuffer(buf, DeviceValue(device), 3, 'F')[..3] == QuiggCodes.DeviceE(device).value
  {
    QuiggCodes.DeviceCodesE();
    assert Pow2(3) == 8;
    CharFillDigits(buf, DeviceValue(device), 3, 'F');
  }

  /** The first switch of getCodeWordD(): convert the group's value into the shared buffer, or report a bad group. */
  method ConvertGroup(bin: array<char>, group: char) returns (ok: bool)
    requires bin.Length == BUFFER
    modifies bin
    ensures ok <==> QuiggCodes.GroupE(group).Some?
    ensures !ok ==> bin[..] == old(bin[..])
    ensures ok ==> bin[..] == CharFillBuffer(old(bin[..]), GroupValue(group), 4, 'F')
    ensures ok ==> bin[..4] == QuiggCodes.GroupE(group).value
  {
    ghost var old0 := bin[..];
    if group == 'a' || group == 'A' {
      Dec2BinWcharfill(bin, 8, 4, 'F');
    } else if group == 'b' || group == 'B' {
      Dec2BinWcharfill(bin, 4, 4, 'F');
    } else if group == 'c' || group == 'C' {
      Dec2BinWcharfill(bin, 2, 4, 'F');
    } else if group == 'd' || group == 'D' {
      Dec2BinWcharfill(bin, 1, 4, 'F');
    } else {
      return false;
    }
    GroupDigits(old0, group);
    return true;
  }

  /** The second switch of getCodeWordD(): convert the device's value into the shared buffer, or report a bad device. */
  method ConvertDevice(bin: array<char>, device: int) returns (ok: bool)
    requires bin.Length == BUFFER
    modifies bin
    ensures ok <==> QuiggCodes.DeviceE(device).Some?
    ensures !ok ==> bin[..] == old(bin[..])
    ensures ok ==> bin[..] == CharFillBuffer(old(bin[..]), DeviceValue(device), 3, 'F')
    ensures ok ==> bin[..3] == QuiggCodes.DeviceE(device).value
  {
    ghost var old0 := bin[..];
    if device == 1 {
      Dec2BinWcharfill(bin, 4, 3, 'F');
    } else if device == 2 {
      Dec2BinWcharfill(bin, 2, 3, 'F');
    } else if device == 3 {
      Dec2BinWcharfill(bin, 1, 3, 'F');
    } else {
      return false;
    }
    DeviceDigits(old0, device);
    return true;
  }

  /** The end of getCodeWordD(): five '0' from index 7, index 10 (on) or 11 (off) raised to '1', and the NUL. */
  method CommandD(s: array<char>, on: bool)
    requires s.Length == 13
    modifies s
    ensures s[..7] == old(s[..7])
    ensures s[7..] == "000" + (if on then "10" else "01") + ['\0']
  {
    var pos := 7;
    for i := 0 to 5
      invariant pos == 7 + i
      invariant s[..7] == old(s[..7])
      invariant forall j :: 7 <= j < pos ==> s[j] == '0'
    {
      s[pos] := '0';
      pos := pos + 1;
    }
    if on {
      s[10] := '1';
    } else {
      s[11] := '1';
    }
    s[12] := '\0';
  }

  /**
   * getCodeWordD(): null for a bad group or device; otherwise the branch's
   * REV word, its group and device codes read from the shared buffer after
   * dec2binWcharfill() with fill 'F', then five '0' of which index 10 (on)
   * or 11 (off) is raised to '1'.
   */
  method GetCodeWordD(bin: array<char>, group: char, device: int, on: bool) returns (r: Option<array<char>>)
    requires bin.Length == BUFFER
    modifies bin
    ensures r.Some? <==> QuiggCodes.CodeWordE(group, device, on).Some?
    ensures r.Some? ==> fresh(r.value) && r.value[..] == QuiggCodes.CodeWordE(group, device, on).value + ['\0']
    ensures GroupValue(group) == 0 ==> bin[..] == old(bin[..])
    ensures GroupValue(group) != 0 && DeviceValue(device) == 0 ==>
      bin[..] == CharFillBuffer(old(bin[..]), GroupValue(group), 4, 'F')
    ensures r.Some? ==>
      bin[..] == CharFillBuffer(CharFillBuffer(old(bin[..]), GroupValue(group), 4, 'F'), DeviceValue(device), 3, 'F')
  {
    ghost var old0 := bin[..];
    var s := new char[13];
    var pos := 0;
    var ok := ConvertGroup(bin, group);
    if !ok {
      return None;
    }
    ghost var mid := bin[..];
    ghost var groupCode := QuiggCodes.GroupE(group).value;
    for i := 0 to 4
      modifies s
      invariant pos == i
      invariant forall j :: 0 <= j < pos ==> s[j] == groupCode[j]
    {
      assert bin[i] == bin[..4][i];
      s[pos] := bin[i];
      pos := pos + 1;
    }
    assert bin[..] == mid;
    ok := ConvertDevice(bin, device);
    if !ok {
      return None;
    }
    ghost var final := bin[..];
    assert final == CharFillBuffer(CharFillBuffer(old0, GroupValue(group), 4, 'F'), DeviceValue(device), 3, 'F');
    ghost var deviceCode := QuiggCodes.DeviceE(device).value;
    for i := 0 to 3
      modifies s
      invariant pos == 4 + i
      invariant forall j :: 0 <= j < 4 ==> s[j] == groupCode[j]
      invariant forall j :: 4 <= j < pos ==> s[j] == deviceCode[j - 4]
    {
      assert bin[i] == bin[..3][i];
      s[pos] := bin[i];
      pos := pos + 1;
    }
    assert s[..7] == groupCode + deviceCode;
    CommandD(s, on);
    assert bin[..] == final;
    ghost var want := QuiggCodes.CodeWordE(group, device, on).value;
    assert want == groupCode + deviceCode + "000" + (if on then "10" else "01");
    assert s[..] == want + ['\0'];
    return Some(s);
  }
}
