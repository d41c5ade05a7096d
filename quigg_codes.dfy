/**
 * The code-word builders of the raspberry-quigg branch and the `dec2bin`
 * converter they use. Each builder fills a fresh character buffer through a
 * write cursor; each is proved equal to a function that returns the word,
 * or `None` where the C++ returns a null pointer, and each function has a
 * parser that inverts it.
 */
module QuiggCodes {
  import opened Common
  import opened QuiggHeader

  /** TYPE_A_CODE: the DIP settings selecting switches 1 to 5 (row 0 selects none). */
  const TYPE_A_CODE: seq<seq<char>> := ["00000", "10000", "01000", "00100", "00010", "00001"]

  /** TYPE_B_CODE: the tri-state address of rotary positions 1 to 4 (row 0 is unused). */
  const TYPE_B_CODE: seq<seq<char>> := ["FFFF", "0FFF", "F0FF", "FF0F", "FFF0"]

  /** TYPE_C_CODE: the Intertechno family codes 'a' to 'p'. */
  const TYPE_C_CODE: seq<seq<char>> :=
    ["0000", "F000", "0F00", "FF00", "00F0", "F0F0", "0FF0", "FFF0",
     "000F", "F00F", "0F0F", "FF0F", "00FF", "F0FF", "0FFF", "FFFF"]

  /** TYPE_D_CODE[device][status]: the eight command bits of a Quigg switch. */
  const TYPE_D_CODE: seq<seq<seq<char>>> :=
    [["11100001", "11110000"],
     ["00000000", "00010001"],
     ["10000010", "10010011"],
     ["11000011", "11010010"],
     ["01000001", "01010000"]]

  // ---------------------------------------------------------------- dec2bin

  lemma HalveShift(a: nat, k: nat)
    ensures (a / Pow2(k)) / 2 == a / Pow2(k + 1)
  {
    var p := Pow2(k);
    var q := a / p;
    var r := a % p;
    assert a == p * q + r;
    assert a == (2 * p) * (q / 2) + (p * (q % 2) + r);
    DivUnique(a, 2 * p, q / 2, p * (q % 2) + r);
  }

  /**
   * dec2bin(): a fresh NUL-terminated buffer with the `bitLength` low bits
   * of `dec`, most significant first, a set bit as '1' and a clear one as
   * `fill`.
   */
  method Dec2Bin(dec: u32, bitLength: nat, fill: char := DEFAULT_FILL) returns (bin: array<char>)
    ensures fresh(bin) && bin.Length == bitLength + 1
    ensures bin[..bitLength] == Digits(dec, bitLength, fill) && bin[bitLength] == '\0'
  {
    bin := new char[bitLength + 1];
    bin[bitLength] := '\0';
    ghost var want := Digits(dec, bitLength, fill);
    var d: int := dec;
    var i := bitLength - 1;
    while i >= 0
      modifies bin
      invariant -1 <= i < bitLength
      invariant d == dec / Pow2(bitLength - 1 - i)
      invariant forall j :: i < j < bitLength ==> bin[j] == want[j]
      invariant bin[bitLength] == '\0'
    {
      assert want[i] == if Bit(dec, bitLength - 1 - i) then '1' else fill;
      assert Bit(dec, bitLength - 1 - i) == (d % 2 == 1);
      bin[i] := if d % 2 == 1 then '1' else fill;
      HalveShift(dec, bitLength - 1 - i);
      d := d / 2;
      i := i - 1;
    }
    assert bin[..bitLength] == want;
  }

  /** The string dec2bin() yields, read back, is the value of the low bits: reading inverts writing. */
  lemma Dec2BinValue(dec: u32, bitLength: nat)
    ensures |Digits(dec, bitLength, DEFAULT_FILL)| == bitLength
    ensures BinValue(Digits(dec, bitLength, DEFAULT_FILL)) == dec % Pow2(bitLength)
    ensures dec < Pow2(bitLength) ==> BinValue(Digits(dec, bitLength, DEFAULT_FILL)) == dec
  {
    DigitsValue(dec, bitLength, DEFAULT_FILL);
    if dec < Pow2(bitLength) {
      DivUnique(dec, Pow2(bitLength), 0, dec);
    }
  }

  // ---------------------------------------------------------------- type A

  /** A DIP switch setting becomes a tri-state symbol: off ('0') is floating, anything else is '0'. */
  function DipSymbols(s: seq<char>): (r: seq<char>)
    ensures |r| == |s|
    ensures forall i :: 0 <= i < |s| ==> r[i] in "0F" && (r[i] == 'F' <==> s[i] == '0')
  {
    seq(|s|, i requires 0 <= i < |s| => if s[i] == '0' then 'F' else '0')
  }

  /** Every DIP character other than '0' reads as "on" ('1'). */
  function NormalDips(s: seq<char>): (r: seq<char>)
    ensures |r| == |s|
    ensures forall i :: 0 <= i < |s| ==> r[i] in "01" && (r[i] == '0' <==> s[i] == '0')
  {
    seq(|s|, i requires 0 <= i < |s| => if s[i] == '0' then '0' else '1')
  }

  /** The word of a 10-pole DIP switch: five group symbols, five device symbols, then on "0F" or off "F0". */
  function CodeWordA(group: seq<char>, device: seq<char>, on: bool): (w: seq<char>)
    requires |group| >= 5 && |device| >= 5
    ensures |w| == 12
    ensures forall i :: 0 <= i < 10 ==> w[i] in "0F"
  {
    DipSymbols(group[..5]) + DipSymbols(device[..5]) + (if on then "0F" else "F0")
  }

  /** Reads the DIP settings and the status back from a type A word; `None` for any other string. */
  function ParseA(w: seq<char>): (r: Option<(seq<char>, seq<char>, bool)>)
    ensures r.Some? ==> |r.value.0| == 5 && |r.value.1| == 5
  {
    if |w| == 12 && (forall i :: 0 <= i < 10 ==> w[i] in "0F") && (w[10..] == "0F" || w[10..] == "F0") then
      var dips := seq(10, i requires 0 <= i < 10 => if w[i] == 'F' then '0' else '1');
      Some((dips[..5], dips[5..], w[10..] == "0F"))
    else None
  }

  /** ParseA inverts CodeWordA, up to the reading of every DIP character other than '0' as '1'. */
  lemma CodeWordAParses(group: seq<char>, device: seq<char>, on: bool)
    requires |group| >= 5 && |device| >= 5
    ensures ParseA(CodeWordA(group, device, on)) == Some((NormalDips(group[..5]), NormalDips(device[..5]), on))
  {
    var v := CodeWordA(group, device, on);
    assert v[10..] == (if on then "0F" else "F0");
    var dips := seq(10, i requires 0 <= i < 10 => if v[i] == 'F' then '0' else '1');
    assert dips[..5] == NormalDips(group[..5]);
    assert dips[5..] == NormalDips(device[..5]);
  }

  /** Only words CodeWordA builds parse as type A words. */
  lemma ParseABuilds(w: seq<char>)
    requires ParseA(w).Some?
    ensures CodeWordA(ParseA(w).value.0, ParseA(w).value.1, ParseA(w).value.2) == w
  {
    var (g, d, o) := ParseA(w).value;
    var u := CodeWordA(g, d, o);
    assert u[10..] == w[10..];
    forall i | 0 <= i < 10
      ensures u[i] == w[i]
    {
      assert w[i] in "0F";
      if i < 5 {
        assert u[i] == DipSymbols(g)[i];
      } else {
        assert u[i] == DipSymbols(d)[i - 5];
      }
    }
    assert u == u[..10] + u[10..] && w == w[..10] + w[10..];
  }

  /** getCodeWordA(): fills a fresh buffer of 13 characters through a write cursor. */
  method GetCodeWordA(group: array<char>, device: array<char>, on: bool) returns (r: array<char>)
    requires group.Length >= 5 && device.Length >= 5
    ensures fresh(r) && r[..] == CodeWordA(group[..], device[..], on) + ['\0']
  {
    ghost var want := CodeWordA(group[..], device[..], on);
    r := new char[13];
    var pos := 0;
    for i := 0 to 5
      invariant pos == i
      invariant forall j :: 0 <= j < pos ==> r[j] == want[j]
    {
      r[pos] := if group[i] == '0' then 'F' else '0';
      pos := pos + 1;
    }
    for i := 0 to 5
      invariant pos == 5 + i
      invariant forall j :: 0 <= j < pos ==> r[j] == want[j]
    {
      r[pos] := if device[i] == '0' then 'F' else '0';
      pos := pos + 1;
    }
    r[pos] := if on then '0' else 'F';
    pos := pos + 1;
    r[pos] := if on then 'F' else '0';
    pos := pos + 1;
    r[pos] := '\0';
    assert r[..] == want + ['\0'];
  }

  // ---------------------------------------------------------------- type B

  /** The word of a switch with two four-position rotary switches; `None` outside positions 1 to 4. */
  function CodeWordB(address: int, channel: int, on: bool): (r: Option<seq<char>>)
    ensures r.Some? <==> 1 <= address <= 4 && 1 <= channel <= 4
    ensures r.Some? ==> |r.value| == 12 && r.value[8..11] == "FFF"
  {
    if address < 1 || address > 4 || channel < 1 || channel > 4 then None
    else Some(TYPE_B_CODE[address] + TYPE_B_CODE[channel] + "FFF" + [if on then 'F' else '0'])
  }

  /** The rotary position (1 to 4) a four-symbol address stands for, if any. */
  function PositionB(s: seq<char>): (n: int)
    ensures 0 <= n <= 4
    ensures n != 0 ==> TYPE_B_CODE[n] == s
  {
    if s == "0FFF" then 1 else if s == "F0FF" then 2 else if s == "FF0F" then 3 else if s == "FFF0" then 4 else 0
  }

  /** Reads address, channel and status back from a type B word. */
  function ParseB(w: seq<char>): Option<(int, int, bool)>
  {
    if |w| == 12 && PositionB(w[..4]) != 0 && PositionB(w[4..8]) != 0 && w[8..11] == "FFF" && w[11] in "F0" then
      Some((PositionB(w[..4]), PositionB(w[4..8]), w[11] == 'F'))
    else None
  }

  /** CodeWordB and ParseB are inverse: every word built parses back, and every word that parses is the one built. */
  lemma CodeWordBRoundTrip(address: int, channel: int, on: bool, w: seq<char>)
    ensures CodeWordB(address, channel, on).Some? ==> ParseB(CodeWordB(address, channel, on).value) == Some((address, channel, on))
    ensures ParseB(w).Some? ==> CodeWordB(ParseB(w).value.0, ParseB(w).value.1, ParseB(w).value.2) == Some(w)
  {
    if CodeWordB(address, channel, on).Some? {
      var v := CodeWordB(address, channel, on).value;
      assert v[..4] == TYPE_B_CODE[address] && v[4..8] == TYPE_B_CODE[channel];
    }
    if ParseB(w).Some? {
      var v := CodeWordB(ParseB(w).value.0, ParseB(w).value.1, ParseB(w).value.2).value;
      assert v == w[..4] + w[4..8] + w[8..11] + [w[11]];
      assert w == w[..4] + w[4..8] + w[8..11] + [w[11]];
    }
  }

  /** getCodeWordB(): null outside positions 1 to 4, else a fresh buffer filled through a cursor. */
  method GetCodeWordB(address: int, channel: int, on: bool) returns (r: Option<array<char>>)
    ensures r.Some? <==> CodeWordB(address, channel, on).Some?
    ensures r.Some? ==> fresh(r.value) && r.value[..] == CodeWordB(address, channel, on).value + ['\0']
  {
    if address < 1 || address > 4 || channel < 1 || channel > 4 {
      return None;
    }
    ghost var want := CodeWordB(address, channel, on).value;
    var pos := 0;
    var s := new char[13];
    for i := 0 to 4
      invariant pos == i
      invariant forall j :: 0 <= j < pos ==> s[j] == want[j]
    {
      s[pos] := TYPE_B_CODE[address][i];
      pos := pos + 1;
    }
    for i := 0 to 4
      invariant pos == 4 + i
      invariant forall j :: 0 <= j < pos ==> s[j] == want[j]
    {
      s[pos] := TYPE_B_CODE[channel][i];
      pos := pos + 1;
    }
    s[pos] := 'F';
    pos := pos + 1;
    s[pos] := 'F';
    pos := pos + 1;
    s[pos] := 'F';
    pos := pos + 1;
    s[pos] := if on then 'F' else '0';
    pos := pos + 1;
    s[pos] := '\0';
    assert s[..] == want + ['\0'];
    return Some(s);
  }

  // ---------------------------------------------------------------- type C

  /** The family letter as an index 0 to 5 after folding capitals (`+ 32` below 'a'), or -1 outside 'a' to 'f'. */
  function FamilyIndex(family: char): (k: int)
    ensures -1 <= k <= 5
    ensures k != -1 <==> 'a' <= family <= 'f' || 'A' <= family <= 'F'
  {
    var f := if family < 'a' then family as int + 32 else family as int;
    if f < 'a' as int || f > 'f' as int then -1 else f - 'a' as int
  }

  /** The four low bits of `x` least significant first, a set bit as 'F' and a clear one as '0', read from dec2bin's string backwards. */
  function Nibble(x: nat): (r: seq<char>)
    ensures |r| == 4
  {
    var bits := Digits(x, 4, DEFAULT_FILL);
    seq(4, i requires 0 <= i < 4 => if bits[3 - i] == '1' then 'F' else '0')
  }

  /** The value of four symbols written by Nibble. */
  function NibbleValue(s: seq<char>): nat
    requires |s| == 4
  {
    BinValue(seq(4, i requires 0 <= i < 4 => if s[3 - i] == 'F' then '1' else '0'))
  }

  lemma NibbleRoundTrip(x: nat)
    requires x < 16
    ensures NibbleValue(Nibble(x)) == x
  {
    var bits := Digits(x, 4, DEFAULT_FILL);
    var n := Nibble(x);
    var back := seq(4, i requires 0 <= i < 4 => if n[3 - i] == 'F' then '1' else '0');
    assert back == bits;
    DigitsValue(x, 4, DEFAULT_FILL);
    assert Pow2(4) == 16;
  }

  /** Symbol `i` of a nibble is 'F' exactly when bit `i` is set. */
  lemma NibbleBits(x: nat, i: nat)
    requires i < 4
    ensures Nibble(x)[i] == 'F' <==> Bit(x, i)
  {
  }

  /** The family codes of 'a' to 'f' are pairwise distinct. */
  lemma FamiliesDistinct()
    ensures forall k, k' :: 0 <= k < 6 && 0 <= k' < 6 && TYPE_C_CODE[k] == TYPE_C_CODE[k'] ==> k == k'
  {
    forall k, k' | 0 <= k < 6 && 0 <= k' < 6 && TYPE_C_CODE[k] == TYPE_C_CODE[k']
      ensures k == k'
    {
      var a, b := TYPE_C_CODE[k], TYPE_C_CODE[k'];
      assert a[0] == b[0] && a[1] == b[1] && a[2] == b[2];
    }
  }

  /** The Intertechno word: family code, device and group nibble, "0FF", then on 'F' or off '0'. */
  function CodeWordC(family: char, group: int, device: int, on: bool): (r: Option<seq<char>>)
    ensures r.Some? <==> ('a' <= family <= 'f' || 'A' <= family <= 'F') && 1 <= group <= 4 && 1 <= device <= 4
    ensures r.Some? ==> |r.value| == 12 && r.value[8..11] == "0FF"
  {
    var k := FamilyIndex(family);
    if k == -1 || group < 1 || group > 4 || device < 1 || device > 4 then None
    else Some(TYPE_C_CODE[k] + Nibble((device - 1) + (group - 1) * 4) + "0FF" + [if on then 'F' else '0'])
  }

  /** Reads the family (lower case), group, device and status back from an Intertechno word of families 'a' to 'f'. */
  function ParseC(w: seq<char>): Option<(char, int, int, bool)>
  {
    if |w| == 12 && (exists k :: 0 <= k < 6 && TYPE_C_CODE[k] == w[..4])
      && (forall i :: 4 <= i < 8 ==> w[i] in "0F") && w[8..11] == "0FF" && w[11] in "F0"
    then
      var k :| 0 <= k < 6 && TYPE_C_CODE[k] == w[..4];
      var x := NibbleValue(w[4..8]);
      Some((('a' as int + k) as char, x / 4 + 1, x % 4 + 1, w[11] == 'F'))
    else None
  }

  lemma NibbleOfValue(s: seq<char>)
    requires |s| == 4 && forall i :: 0 <= i < 4 ==> s[i] in "0F"
    ensures NibbleValue(s) < 16 && Nibble(NibbleValue(s)) == s
  {
    var back := seq(4, i requires 0 <= i < 4 => if s[3 - i] == 'F' then '1' else '0');
    assert Pow2(4) == 16;
    DigitsOfValue(back);
  }

  /** ParseC inverts CodeWordC (families folded to lower case). */
  lemma CodeWordCParses(family: char, group: int, device: int, on: bool)
    requires CodeWordC(family, group, device, on).Some?
    ensures ParseC(CodeWordC(family, group, device, on).value)
      == Some((('a' as int + FamilyIndex(family)) as char, group, device, on))
  {
    FamiliesDistinct();
    var k := FamilyIndex(family);
    var x := (device - 1) + (group - 1) * 4;
    var v := CodeWordC(family, group, device, on).value;
    assert v[..4] == TYPE_C_CODE[k];
    assert v[4..8] == Nibble(x);
    NibbleRoundTrip(x);
    assert forall i :: 4 <= i < 8 ==> v[i] in "0F";
    assert x / 4 + 1 == group && x % 4 + 1 == device;
  }

  /** Only words CodeWordC builds parse. */
  lemma ParseCBuilds(w: seq<char>)
    requires ParseC(w).Some?
    ensures CodeWordC(ParseC(w).value.0, ParseC(w).value.1, ParseC(w).value.2, ParseC(w).value.3) == Some(w)
  {
    var k :| 0 <= k < 6 && TYPE_C_CODE[k] == w[..4];
    FamiliesDistinct();
    NibbleOfValue(w[4..8]);
    var x := NibbleValue(w[4..8]);
    var p := ParseC(w).value;
    assert p.0 == ('a' as int + k) as char && FamilyIndex(p.0) == k;
    var v := CodeWordC(p.0, p.1, p.2, p.3).value;
    assert (x % 4 + 1 - 1) + (x / 4 + 1 - 1) * 4 == x;
    assert v == w[..4] + w[4..8] + w[8..11] + [w[11]];
    assert w == w[..4] + w[4..8] + w[8..11] + [w[11]];
  }

  /** getCodeWordC(): null for a bad family, group or device, else a fresh buffer filled through a cursor. */
  method GetCodeWordC(family: char, group: int, device: int, on: bool) returns (r: Option<array<char>>)
    ensures r.Some? <==> CodeWordC(family, group, device, on).Some?
    ensures r.Some? ==> fresh(r.value) && r.value[..] == CodeWordC(family, group, device, on).value + ['\0']
  {
    var f := family as int;
    if f < 'a' as int {
      f := f + 32;
    }
    if f < 'a' as int || f > 'f' as int || group < 1 || group > 4 || device < 1 || device > 4 {
      return None;
    }
    var x := (device - 1) + (group - 1) * 4;
    var code := Dec2Bin(x, 4);
    var s := FillC(f - 'a' as int, code, x, on);
    return Some(s);
  }

  /** The buffer getCodeWordC() fills: the family code, the four digits of `code` reversed as 'F'/'0', "0FF" and the status. */
  method FillC(k: int, code: array<char>, x: nat, on: bool) returns (s: array<char>)
    requires 0 <= k < 16 && code.Length >= 4 && code[..4] == Digits(x, 4, DEFAULT_FILL)
    ensures fresh(s)
    ensures s[..] == TYPE_C_CODE[k] + Nibble(x) + "0FF" + [if on then 'F' else '0'] + ['\0']
  {
    ghost var familyCode := TYPE_C_CODE[k];
    ghost var nibble := Nibble(x);
    s := new char[13];
    var pos := 0;
    for i := 0 to 4
      modifies s
      invariant pos == i
      invariant forall j :: 0 <= j < pos ==> s[j] == familyCode[j]
    {
      s[pos] := TYPE_C_CODE[k][i];
      pos := pos + 1;
    }
    for i := 0 to 4
      modifies s
      invariant pos == 4 + i
      invariant forall j :: 0 <= j < 4 ==> s[j] == familyCode[j]
      invariant forall j :: 4 <= j < pos ==> s[j] == nibble[j - 4]
    {
      assert code[3 - i] == code[..4][3 - i];
      s[pos] := if code[3 - i] == '1' then 'F' else '0';
      pos := pos + 1;
    }
    s[pos] := '0';
    pos := pos + 1;
    s[pos] := 'F';
    pos := pos + 1;
    s[pos] := 'F';
    pos := pos + 1;
    s[pos] := if on then 'F' else '0';
    pos := pos + 1;
    s[pos] := '\0';
    assert s[..] == familyCode + nibble + "0FF" + [if on then 'F' else '0'] + ['\0'];
  }

  // ---------------------------------------------------------------- type D

  /** The Quigg word: start bit '1', the twelve group bits, then the eight command bits of the device and status. */
  function CodeWordD(group: seq<char>, device: int, on: bool): (w: seq<char>)
    requires |group| >= 12 && 0 <= device < 5
    ensures |w| == 21 && w[0] == '1' && w[1..13] == group[..12]
  {
    "1" + group[..12] + TYPE_D_CODE[device][if on then 1 else 0]
  }

  /** The ten command codes are pairwise distinct, so the command bits identify device and status. */
  lemma CommandsDistinct()
    ensures forall d, s, d', s' ::
      (0 <= d < 5 && 0 <= s < 2 && 0 <= d' < 5 && 0 <= s' < 2 && TYPE_D_CODE[d][s] == TYPE_D_CODE[d'][s'])
      ==> d == d' && s == s'
  {
    forall d, s, d', s' | 0 <= d < 5 && 0 <= s < 2 && 0 <= d' < 5 && 0 <= s' < 2
      && TYPE_D_CODE[d][s] == TYPE_D_CODE[d'][s']
      ensures d == d' && s == s'
    {
      var a, b := TYPE_D_CODE[d][s], TYPE_D_CODE[d'][s'];
      assert a[0] == b[0] && a[1] == b[1] && a[3] == b[3] && a[7] == b[7];
    }
  }

  /** Reads group, device and status back from a Quigg word. */
  function ParseD(w: seq<char>): Option<(seq<char>, int, bool)>
  {
    if |w| == 21 && w[0] == '1' && exists d, s :: 0 <= d < 5 && 0 <= s < 2 && TYPE_D_CODE[d][s] == w[13..] then
      var d, s :| 0 <= d < 5 && 0 <= s < 2 && TYPE_D_CODE[d][s] == w[13..];
      Some((w[1..13], d, s == 1))
    else None
  }

  /** CodeWordD and ParseD are inverse. */
  lemma CodeWordDRoundTrip(group: seq<char>, device: int, on: bool, w: seq<char>)
    requires |group| >= 12 && 0 <= device < 5
    ensures ParseD(CodeWordD(group, device, on)) == Some((group[..12], device, on))
    ensures ParseD(w).Some? ==> CodeWordD(ParseD(w).value.0, ParseD(w).value.1, ParseD(w).value.2) == w
  {
    CommandsDistinct();
    var v := CodeWordD(group, device, on);
    var s := if on then 1 else 0;
    assert v[13..] == TYPE_D_CODE[device][s];
    if ParseD(w).Some? {
      var u := CodeWordD(ParseD(w).value.0, ParseD(w).value.1, ParseD(w).value.2);
      assert u == [w[0]] + w[1..13] + w[13..];
      assert w == [w[0]] + w[1..13] + w[13..];
    }
  }

  /** getCodeWordD(): copies the start bit, the group and the command bits into a fresh buffer of 22 characters. */
  method GetCodeWordD(group: array<char>, device: int, on: bool) returns (r: array<char>)
    requires group.Length >= 12 && 0 <= device < 5
    ensures fresh(r) && r[..] == CodeWordD(group[..], device, on) + ['\0']
  {
    ghost var want := CodeWordD(group[..], device, on);
    r := new char[22];
    var pos := 0;
    r[pos] := '1';
    pos := pos + 1;
    for i := 0 to 12
      invariant pos == 1 + i
      invariant forall j :: 0 <= j < pos ==> r[j] == want[j]
    {
      r[pos] := group[i];
      pos := pos + 1;
    }
    for i := 0 to 8
      invariant pos == 13 + i
      invariant forall j :: 0 <= j < pos ==> r[j] == want[j]
    {
      r[pos] := TYPE_D_CODE[device][if on then 1 else 0][i];
      pos := pos + 1;
    }
    r[pos] := '\0';
    assert r[..] == want + ['\0'];
  }

  // ---------------------------------------------------------------- type E

  /** The one-hot group code of a REV switch, group a/A to d/D; the C++ builds it as dec2bin(8, 4, 'F') to dec2bin(1, 4, 'F'). */
  function GroupE(group: char): (r: Option<seq<char>>)
    ensures r.Some? <==> group in "aAbBcCdD"
    ensures r.Some? ==> |r.value| == 4
  {
    if group == 'a' || group == 'A' then Some("1FFF")
    else if group == 'b' || group == 'B' then Some("F1FF")
    else if group == 'c' || group == 'C' then Some("FF1F")
    else if group == 'd' || group == 'D' then Some("FFF1")
    else None
  }

  /** The one-hot device code, device 1 to 3; the C++ builds it as dec2bin(4, 3, 'F') to dec2bin(1, 3, 'F'). */
  function DeviceE(device: int): (r: Option<seq<char>>)
    ensures r.Some? <==> 1 <= device <= 3
    ensures r.Some? ==> |r.value| == 3
  {
    if device == 1 then Some("1FF")
    else if device == 2 then Some("F1F")
    else if device == 3 then Some("FF1")
    else None
  }

  /** The REV word: group code, device code, "000", then on "10" or off "01"; `None` for a bad group or device. */
  function CodeWordE(group: char, device: int, on: bool): (r: Option<seq<char>>)
    ensures r.Some? <==> group in "aAbBcCdD" && 1 <= device <= 3
  {
    if GroupE(group).None? || DeviceE(device).None? then None
    else Some(GroupE(group).value + DeviceE(device).value + "000" + (if on then "10" else "01"))
  }

  /** dec2bin() with fill 'F' yields the one-hot group codes "1FFF" to "FFF1". */
  lemma GroupCodesE()
    ensures Digits(8, 4, 'F') == "1FFF" && Digits(4, 4, 'F') == "F1FF"
    ensures Digits(2, 4, 'F') == "FF1F" && Digits(1, 4, 'F') == "FFF1"
  {
    assert Pow2(0) == 1 && Pow2(1) == 2 && Pow2(2) == 4 && Pow2(3) == 8;
    assert Bit(8, 3) && !Bit(8, 2) && !Bit(8, 1) && !Bit(8, 0);
    assert !Bit(4, 3) && Bit(4, 2) && !Bit(4, 1) && !Bit(4, 0);
    assert !Bit(2, 3) && !Bit(2, 2) && Bit(2, 1) && !Bit(2, 0);
    assert !Bit(1, 3) && !Bit(1, 2) && !Bit(1, 1) && Bit(1, 0);
  }

  /** dec2bin() with fill 'F' yields the one-hot device codes "1FF", "F1F" and "FF1". */
  lemma DeviceCodesE()
    ensures Digits(4, 3, 'F') == "1FF" && Digits(2, 3, 'F') == "F1F" && Digits(1, 3, 'F') == "FF1"
  {
    assert Pow2(0) == 1 && Pow2(1) == 2 && Pow2(2) == 4;
    assert Bit(4, 2) && !Bit(4, 1) && !Bit(4, 0);
    assert !Bit(2, 2) && Bit(2, 1) && !Bit(2, 0);
    assert !Bit(1, 2) && !Bit(1, 1) && Bit(1, 0);
  }

  /** Reads group (lower case), device and status back from a REV word. */
  function ParseE(w: seq<char>): Option<(char, int, bool)>
  {
    if |w| == 12 && w[..4] in ["1FFF", "F1FF", "FF1F", "FFF1"] && w[4..7] in ["1FF", "F1F", "FF1"]
      && w[7..10] == "000" && w[10..] in ["10", "01"]
    then
      var g, d := w[..4], w[4..7];
      Some((if g == "1FFF" then 'a' else if g == "F1FF" then 'b' else if g == "FF1F" then 'c' else 'd',
            if d == "1FF" then 1 else if d == "F1F" then 2 else 3,
            w[10..] == "10"))
    else None
  }

  /** ParseE inverts CodeWordE (groups folded to lower case). */
  lemma CodeWordEParses(group: char, device: int, on: bool)
    requires CodeWordE(group, device, on).Some?
    ensures ParseE(CodeWordE(group, device, on).value)
      == Some((if group < 'a' then (group as int + 32) as char else group, device, on))
  {
    var v := CodeWordE(group, device, on).value;
    assert v[..4] == GroupE(group).value && v[4..7] == DeviceE(device).value;
    assert v[7..10] == "000" && v[10..] == (if on then "10" else "01");
  }

  /** Only words CodeWordE builds parse. */
  lemma ParseEBuilds(w: seq<char>)
    requires ParseE(w).Some?
    ensures CodeWordE(ParseE(w).value.0, ParseE(w).value.1, ParseE(w).value.2) == Some(w)
  {
    var v := CodeWordE(ParseE(w).value.0, ParseE(w).value.1, ParseE(w).value.2).value;
    assert v == w[..4] + w[4..7] + w[7..10] + w[10..];
    assert w == w[..4] + w[4..7] + w[7..10] + w[10..];
  }

  /** The first switch of getCodeWordE(): dec2bin's string for the group, or nothing for a bad group. */
  method GroupCode(group: char) returns (r: Option<array<char>>)
    ensures r.Some? <==> GroupE(group).Some?
    ensures r.Some? ==> fresh(r.value) && r.value.Length == 5 && r.value[..4] == GroupE(group).value
  {
    GroupCodesE();
    var code: array<char>;
    if group == 'a' || group == 'A' {
      code := Dec2Bin(8, 4, 'F');
    } else if group == 'b' || group == 'B' {
      code := Dec2Bin(4, 4, 'F');
    } else if group == 'c' || group == 'C' {
      code := Dec2Bin(2, 4, 'F');
    } else if group == 'd' || group == 'D' {
      code := Dec2Bin(1, 4, 'F');
    } else {
      return None;
    }
    return Some(code);
  }

  /** The second switch of getCodeWordE(): dec2bin's string for the device, or nothing for a bad device. */
  method DeviceCode(device: int) returns (r: Option<array<char>>)
    ensures r.Some? <==> DeviceE(device).Some?
    ensures r.Some? ==> fresh(r.value) && r.value.Length == 4 && r.value[..3] == DeviceE(device).value
  {
    DeviceCodesE();
    var code: array<char>;
    if device == 1 {
      code := Dec2Bin(4, 3, 'F');
    } else if device == 2 {
      code := Dec2Bin(2, 3, 'F');
    } else if device == 3 {
      code := Dec2Bin(1, 3, 'F');
    } else {
      return None;
    }
    return Some(code);
  }

  /** getCodeWordE(): null for a bad group or device, else a fresh buffer filled from dec2bin's strings. */
  method GetCodeWordE(group: char, device: int, on: bool) returns (r: Option<array<char>>)
    ensures r.Some? <==> CodeWordE(group, device, on).Some?
    ensures r.Some? ==> fresh(r.value) && r.value[..] == CodeWordE(group, device, on).value + ['\0']
  {
    var groupCode := GroupCode(group);
    if groupCode.None? {
      return None;
    }
    var s := new char[13];
    var pos := 0;
    for i := 0 to 4
      modifies s
      invariant pos == i
      invariant forall j :: 0 <= j < pos ==> s[j] == GroupE(group).value[j]
    {
      assert groupCode.value[i] == groupCode.value[..4][i];
      s[pos] := groupCode.value[i];
      pos := pos + 1;
    }
    var deviceCode := DeviceCode(device);
    if deviceCode.None? {
      return None;
    }
    ghost var want := CodeWordE(group, device, on).value;
    assert want[..4] == GroupE(group).value && want[4..7] == DeviceE(device).value;
    for i := 0 to 3
      modifies s
      invariant pos == 4 + i
      invariant forall j :: 0 <= j < pos ==> s[j] == want[j]
    {
      assert deviceCode.value[i] == deviceCode.value[..3][i];
      s[pos] := deviceCode.value[i];
      pos := pos + 1;
    }
    s[pos] := '0';
    pos := pos + 1;
    s[pos] := '0';
    pos := pos + 1;
    s[pos] := '0';
    pos := pos + 1;
    s[pos] := if on then '1' else '0';
    pos := pos + 1;
    s[pos] := if on then '0' else '1';
    pos := pos + 1;
    s[pos] := '\0';
    assert s[..] == want + ['\0'];
    return Some(s);
  }
}
