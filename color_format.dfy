/**
 * The colour formatter: the `#RRGGBB` text of rgbToHex and the
 * `rgb(r, g, b)` text written into the readouts (script.js:185, 237-239).
 *
 * rgbToHex packs the channels into (1 << 24) + (r << 16) + (g << 8) + b,
 * renders that number in base 16, drops the leading "1" and upper-cases
 * the rest. Each step is modelled as the JavaScript built-in it calls, and
 * the lemmas below show that the result is "#" and six upper-case,
 * zero-padded digits that parse back to the channels.
 */
module ColorFormat {
  import opened Options
  import opened Pixels

  // ---------------------------------------------------------------------
  // Digits
  // ---------------------------------------------------------------------

  /** The digit `Number.prototype.toString(16)` writes for d. */
  function LowerHexDigit(d: int): char
    requires 0 <= d < 16
  {
    if d < 10 then ('0' as int + d) as char else ('a' as int + d - 10) as char
  }

  /** The upper-case digit for d. */
  function UpperHexDigit(d: int): char
    requires 0 <= d < 16
  {
    if d < 10 then ('0' as int + d) as char else ('A' as int + d - 10) as char
  }

  predicate IsHexDigit(c: char) {
    '0' <= c <= '9' || 'a' <= c <= 'f' || 'A' <= c <= 'F'
  }

  predicate IsUpperHexDigit(c: char) {
    '0' <= c <= '9' || 'A' <= c <= 'F'
  }

  predicate AllHexDigits(s: string) {
    forall i :: 0 <= i < |s| ==> IsHexDigit(s[i])
  }

  /** The value of a hexadecimal digit of either case. */
  function HexDigitValue(c: char): (v: int)
    requires IsHexDigit(c)
    ensures 0 <= v < 16
  {
    if '0' <= c <= '9' then c as int - '0' as int
    else if 'a' <= c <= 'f' then c as int - 'a' as int + 10
    else c as int - 'A' as int + 10
  }

  /** The number a string of hexadecimal digits denotes, most significant first. */
  function ParseHex(s: string): nat
    requires AllHexDigits(s)
  {
    if s == [] then 0 else ParseHex(s[..|s| - 1]) * 16 + HexDigitValue(s[|s| - 1])
  }

  // ---------------------------------------------------------------------
  // The JavaScript built-ins rgbToHex uses
  // ---------------------------------------------------------------------

  /**
   * `n.toString(16)` for a non-negative integer n: its base-16 digits in
   * lower case, with no leading zero, which parse back to n.
   */
  function ToHexString(n: nat): (s: string)
    ensures 1 <= |s|
    ensures forall i :: 0 <= i < |s| ==> '0' <= s[i] <= '9' || 'a' <= s[i] <= 'f'
    ensures 1 < |s| ==> s[0] != '0'
    ensures ParseHex(s) == n
    decreases n
  {
    if n < 16 then
      [LowerHexDigit(n)]
    else
      var prefix := ToHexString(n / 16);
      var s := prefix + [LowerHexDigit(n % 16)];
      assert s[..|s| - 1] == prefix;
      s
  }

  /** `String.prototype.toUpperCase` on one character, for ASCII letters. */
  function UpperChar(c: char): char {
    if 'a' <= c <= 'z' then (c as int - 32) as char else c
  }

  /** `String.prototype.toUpperCase`, mapping ASCII letters character by character. */
  function ToUpperCase(s: string): (u: string)
    ensures |u| == |s|
    ensures forall i :: 0 <= i < |s| ==> u[i] == UpperChar(s[i])
  {
    if s == [] then [] else [UpperChar(s[0])] + ToUpperCase(s[1..])
  }

  // ---------------------------------------------------------------------
  // rgbToHex
  // ---------------------------------------------------------------------

  /**
   * The number rgbToHex renders: (1 << 24) + (r << 16) + (g << 8) + b.
   * For channels below 256 none of the shifts leaves the 32-bit range, so
   * each shift is a multiplication by a power of two.
   */
  function PackedColor(r: Byte, g: Byte, b: Byte): (p: nat)
    ensures 0x100_0000 <= p < 0x200_0000
  {
    0x100_0000 + r * 0x1_0000 + g * 0x100 + b
  }

  /** rgbToHex(r, g, b). */
  function RgbToHex(r: Byte, g: Byte, b: Byte): string {
    "#" + ToUpperCase(ToHexString(PackedColor(r, g, b))[1..])
  }

  /** A number with at least one digit gains one more digit at the end when scaled by 16. */
  lemma ToHexStringAppend(n: nat, d: int)
    requires 1 <= n && 0 <= d < 16
    ensures ToHexString(n * 16 + d) == ToHexString(n) + [LowerHexDigit(d)]
  {
    assert (n * 16 + d) / 16 == n && (n * 16 + d) % 16 == d;
  }

  /** The two lower-case digits of a channel. */
  function LowerPair(v: Byte): string {
    [LowerHexDigit(v / 16), LowerHexDigit(v % 16)]
  }

  /** The two upper-case digits of a channel. */
  function UpperPair(v: Byte): string {
    [UpperHexDigit(v / 16), UpperHexDigit(v % 16)]
  }

  /** Appending two digits hi, lo to a number's digits. */
  lemma ToHexStringAppendPair(n: nat, hi: int, lo: int)
    requires 1 <= n && 0 <= hi < 16 && 0 <= lo < 16
    ensures ToHexString((n * 16 + hi) * 16 + lo) == ToHexString(n) + [LowerHexDigit(hi), LowerHexDigit(lo)]
  {
    ToHexStringAppend(n, hi);
    ToHexStringAppend(n * 16 + hi, lo);
  }

  /** Scaling by 256 and adding a channel appends that channel's two digits. */
  lemma ToHexStringAppendByte(n: nat, v: Byte)
    requires 1 <= n
    ensures ToHexString(n * 256 + v) == ToHexString(n) + LowerPair(v)
  {
    var hi, lo := v / 16, v % 16;
    assert (n * 16 + hi) * 16 + lo == n * 256 + v;
    ToHexStringAppendPair(n, hi, lo);
  }

  /** Appending three channels, one pair of digits each. */
  lemma ToHexStringAppendBytes(n: nat, r: Byte, g: Byte, b: Byte)
    requires 1 <= n
    ensures ToHexString(((n * 256 + r) * 256 + g) * 256 + b)
         == ToHexString(n) + LowerPair(r) + LowerPair(g) + LowerPair(b)
  {
    ToHexStringAppendByte(n, r);
    ToHexStringAppendByte(n * 256 + r, g);
    ToHexStringAppendByte((n * 256 + r) * 256 + g, b);
  }

  /** The digits toString(16) writes for the packed colour: a "1" and three pairs. */
  lemma PackedColorDigits(r: Byte, g: Byte, b: Byte)
    ensures ToHexString(PackedColor(r, g, b)) == ['1'] + LowerPair(r) + LowerPair(g) + LowerPair(b)
  {
    var one: nat := 1;
    assert ToHexString(one) == ['1'];
    assert PackedColor(r, g, b) == ((one * 256 + r) * 256 + g) * 256 + b;
    ToHexStringAppendBytes(one, r, g, b);
  }

  lemma UpperOfLowerPair(v: Byte)
    ensures ToUpperCase(LowerPair(v)) == UpperPair(v)
  {
  }

  lemma UpperCaseConcat(x: string, y: string)
    ensures ToUpperCase(x + y) == ToUpperCase(x) + ToUpperCase(y)
  {
    var u, v := ToUpperCase(x + y), ToUpperCase(x) + ToUpperCase(y);
    assert |u| == |v|;
    forall i | 0 <= i < |u|
      ensures u[i] == v[i]
    {
      if i < |x| {
        assert (x + y)[i] == x[i];
      } else {
        assert (x + y)[i] == y[i - |x|];
      }
    }
  }

  /**
   * rgbToHex writes exactly "#", then the two upper-case digits of r, of g
   * and of b, each pair zero-padded.
   */
  lemma RgbToHexDigits(r: Byte, g: Byte, b: Byte)
    ensures RgbToHex(r, g, b) == "#" + UpperPair(r) + UpperPair(g) + UpperPair(b)
  {
    PackedColorDigits(r, g, b);
    var tail := LowerPair(r) + LowerPair(g) + LowerPair(b);
    assert ToHexString(PackedColor(r, g, b))[1..] == tail;
    UpperCaseConcat(LowerPair(r) + LowerPair(g), LowerPair(b));
    UpperCaseConcat(LowerPair(r), LowerPair(g));
    UpperOfLowerPair(r);
    UpperOfLowerPair(g);
    UpperOfLowerPair(b);
  }

  lemma UpperDigitValue(d: int)
    requires 0 <= d < 16
    ensures IsHexDigit(UpperHexDigit(d)) && IsUpperHexDigit(UpperHexDigit(d))
    ensures HexDigitValue(UpperHexDigit(d)) == d
  {
  }

  lemma ParseUpperPair(v: Byte)
    ensures AllHexDigits(UpperPair(v))
    ensures ParseHex(UpperPair(v)) == v
  {
    UpperDigitValue(v / 16);
    UpperDigitValue(v % 16);
    var s := UpperPair(v);
    assert s[..1] == [UpperHexDigit(v / 16)];
    assert s[..1][..0] == [];
    assert ParseHex(s[..1]) == v / 16;
    assert ParseHex(s) == (v / 16) * 16 + v % 16;
  }

  /**
   * The round trip of the formatter: the text is '#' followed by exactly
   * six upper-case hexadecimal digits, and those digits, read back in
   * pairs, give the channels again.
   */
  lemma RgbToHexRoundTrip(r: Byte, g: Byte, b: Byte)
    ensures var hex := RgbToHex(r, g, b);
      && |hex| == 7
      && hex[0] == '#'
      && (forall i :: 1 <= i < 7 ==> IsUpperHexDigit(hex[i]))
      && AllHexDigits(hex[1..])
      && ParseHex(hex[1..3]) == r
      && ParseHex(hex[3..5]) == g
      && ParseHex(hex[5..7]) == b
  {
    RgbToHexDigits(r, g, b);
    var hex := RgbToHex(r, g, b);
    ParseUpperPair(r);
    ParseUpperPair(g);
    ParseUpperPair(b);
    UpperDigitValue(r / 16);
    UpperDigitValue(r % 16);
    UpperDigitValue(g / 16);
    UpperDigitValue(g % 16);
    UpperDigitValue(b / 16);
    UpperDigitValue(b % 16);
    assert hex[1..3] == UpperPair(r);
    assert hex[3..5] == UpperPair(g);
    assert hex[5..7] == [hex[5], hex[6]] == UpperPair(b);
  }

  /** Reads a `#RRGGBB` text back into its three channels. */
  function ParseHexColor(s: string): Option<(int, int, int)> {
    if |s| == 7 && s[0] == '#' && AllHexDigits(s[1..]) then
      assert AllHexDigits(s[1..3]) && AllHexDigits(s[3..5]) && AllHexDigits(s[5..7]) by {
        assert s[1..3] == s[1..][0..2] && s[3..5] == s[1..][2..4] && s[5..7] == s[1..][4..6];
      }
      Some((ParseHex(s[1..3]), ParseHex(s[3..5]), ParseHex(s[5..7])))
    else
      None
  }

  /** Parsing the hex text gives back exactly the colour it was made from. */
  lemma ParseRgbToHex(r: Byte, g: Byte, b: Byte)
    ensures ParseHexColor(RgbToHex(r, g, b)) == Some((r, g, b))
  {
    RgbToHexRoundTrip(r, g, b);
  }

  /** Distinct colours have distinct hex texts. */
  lemma RgbToHexInjective(r: Byte, g: Byte, b: Byte, r': Byte, g': Byte, b': Byte)
    requires RgbToHex(r, g, b) == RgbToHex(r', g', b')
    ensures r == r' && g == g' && b == b'
  {
    ParseRgbToHex(r, g, b);
    ParseRgbToHex(r', g', b');
  }

  /** The two digit pairs the examples below use: 255 is FF and 0 is 00. */
  lemma ExtremePairs()
    ensures UpperPair(255) == "FF" && UpperPair(0) == "00"
  {
    assert UpperHexDigit(15) == 'F';
  }

  /** rgbToHex(0, 0, 0) is "#000000": the leading sentinel digit is dropped. */
  lemma HexOfBlack()
    ensures RgbToHex(0, 0, 0) == "#000000"
  {
    RgbToHexDigits(0, 0, 0);
    ExtremePairs();
  }

  /** rgbToHex(255, 0, 0) is "#FF0000". */
  lemma HexOfRed()
    ensures RgbToHex(255, 0, 0) == "#FF0000"
  {
    RgbToHexDigits(255, 0, 0);
    ExtremePairs();
  }

  /** rgbToHex(255, 255, 255) is "#FFFFFF": the digits are upper-case. */
  lemma HexOfWhite()
    ensures RgbToHex(255, 255, 255) == "#FFFFFF"
  {
    RgbToHexDigits(255, 255, 255);
    ExtremePairs();
  }

  // ---------------------------------------------------------------------
  // The rgb(r, g, b) text
  // ---------------------------------------------------------------------

  predicate IsDecimalDigit(c: char) {
    '0' <= c <= '9'
  }

  predicate AllDecimalDigits(s: string) {
    forall i :: 0 <= i < |s| ==> IsDecimalDigit(s[i])
  }

  /** The number a string of decimal digits denotes. */
  function ParseDecimal(s: string): nat
    requires AllDecimalDigits(s)
  {
    if s == [] then 0 else ParseDecimal(s[..|s| - 1]) * 10 + (s[|s| - 1] as int - '0' as int)
  }

  /**
   * The text a template literal `${n}` gives for a non-negative integer n:
   * its decimal digits with no leading zero, which parse back to n.
   */
  function Decimal(n: nat): (s: string)
    ensures 1 <= |s|
    ensures AllDecimalDigits(s)
    ensures 1 < |s| ==> s[0] != '0'
    ensures ParseDecimal(s) == n
    decreases n
  {
    var last := ('0' as int + n % 10) as char;
    if n < 10 then
      [last]
    else
      var prefix := Decimal(n / 10);
      var s := prefix + [last];
      assert s[..|s| - 1] == prefix;
      s
  }

  /** The text updateColorDisplay builds: `rgb(${r}, ${g}, ${b})`. */
  function RgbText(r: Byte, g: Byte, b: Byte): (t: string)
    ensures 12 <= |t|
    ensures t[..4] == "rgb(" && t[|t| - 1] == ')'
  {
    "rgb(" + Decimal(r) + ", " + Decimal(g) + ", " + Decimal(b) + ")"
  }

  /** A decimal text never contains the separator ','. */
  lemma DecimalHasNoComma(n: nat)
    ensures ',' !in Decimal(n)
  {
    var s := Decimal(n);
    assert forall i :: 0 <= i < |s| ==> s[i] != ',';
  }

  /** In x + y, with x comma-free and y starting with a comma, the first comma sits at |x|. */
  lemma FirstCommaAt(x: string, y: string)
    requires ',' !in x
    requires 1 <= |y| && y[0] == ','
    ensures forall i :: 0 <= i < |x| ==> (x + y)[i] != ','
    ensures (x + y)[|x|] == ','
  {
    assert forall i :: 0 <= i < |x| ==> (x + y)[i] == x[i];
  }

  /**
   * Two texts that each start with a comma-free field followed by a comma
   * can only be equal field by field.
   */
  lemma SplitAtComma(x: string, y: string, x': string, y': string)
    requires ',' !in x && ',' !in x'
    requires 1 <= |y| && 1 <= |y'| && y[0] == ',' && y'[0] == ','
    requires x + y == x' + y'
    ensures x == x' && y == y'
  {
    FirstCommaAt(x, y);
    FirstCommaAt(x', y');
    assert |x| == |x'|;
    assert x == (x + y)[..|x|] == (x' + y')[..|x'|] == x';
    assert y == (x + y)[|x|..] == (x' + y')[|x'|..] == y';
  }

  /** The rgb text split after its first field. */
  lemma RgbTextShape(r: Byte, g: Byte, b: Byte)
    ensures RgbText(r, g, b) == "rgb(" + (Decimal(r) + (", " + (Decimal(g) + (", " + (Decimal(b) + ")")))))
  {
  }

  /** Distinct colours have distinct `rgb(r, g, b)` texts: each field reads back. */
  lemma RgbTextInjective(r: Byte, g: Byte, b: Byte, r': Byte, g': Byte, b': Byte)
    requires RgbText(r, g, b) == RgbText(r', g', b')
    ensures r == r' && g == g' && b == b'
  {
    var dr, dg, db := Decimal(r), Decimal(g), Decimal(b);
    var dr', dg', db' := Decimal(r'), Decimal(g'), Decimal(b');
    DecimalHasNoComma(r);
    DecimalHasNoComma(g);
    DecimalHasNoComma(r');
    DecimalHasNoComma(g');
    RgbTextShape(r, g, b);
    RgbTextShape(r', g', b');
    var rest, rest' := ", " + (db + ")"), ", " + (db' + ")");
    var tail, tail' := ", " + (dg + rest), ", " + (dg' + rest');
    PrefixCancel("rgb(", dr + tail, dr' + tail');
    SplitAtComma(dr, tail, dr', tail');
    PrefixCancel(", ", dg + rest, dg' + rest');
    SplitAtComma(dg, rest, dg', rest');
    PrefixCancel(", ", db + ")", db' + ")");
    assert db == (db + ")")[..|db|] == (db' + ")")[..|db'|] == db';
  }

  lemma PrefixCancel(p: string, a: string, b: string)
    requires p + a == p + b
    ensures a == b
  {
    assert a == (p + a)[|p|..] == (p + b)[|p|..] == b;
  }

  lemma RgbTextOfRed()
    ensures RgbText(255, 0, 0) == "rgb(255, 0, 0)"
  {
    assert Decimal(255) == "255";
  }
}
