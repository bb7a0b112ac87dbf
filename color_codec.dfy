/**
 * The `#AARRGGBB` colour-string codec of the colour picker: the converter that
 * turns a colour string into a colour (UWPColorPickerSample/ColorConverter.cs)
 * and the `"#{0:X2}{1:X2}{2:X2}{3:X2}"` formatter that the view model uses to
 * produce such strings.
 */
module ColorCodec {
  import opened Wrappers

  /** An unsigned 8-bit channel value. */
  type Byte = x: int | 0 <= x < 256

  /** A colour: alpha, red, green and blue channels. */
  datatype Color = Color(a: Byte, r: Byte, g: Byte, b: Byte)

  /** `Colors.Transparent`, the converter's fallback colour. */
  const Transparent: Color := Color(0x00, 0xFF, 0xFF, 0xFF)

  /** `Colors.Red`. */
  const OpaqueRed: Color := Color(0xFF, 0xFF, 0x00, 0x00)

  /**
   * The platform's named colours (`Colors.Red`, `Colors.Transparent`, ...),
   * looked up by exact, case-sensitive property name.
   */
  type ColorNames = map<string, Color>

  /** Colour names are identifiers: none of them begins with '#'. */
  predicate NamesAreIdentifiers(names: ColorNames) {
    forall n :: n in names ==> |n| == 0 || n[0] != '#'
  }

  // ---------------------------------------------------------------------------
  // Hexadecimal digits

  predicate IsHexDigit(c: char) {
    '0' <= c <= '9' || 'a' <= c <= 'f' || 'A' <= c <= 'F'
  }

  predicate IsUpperHexDigit(c: char) {
    '0' <= c <= '9' || 'A' <= c <= 'F'
  }

  function HexDigitValue(c: char): (d: nat)
    requires IsHexDigit(c)
    ensures d < 16
  {
    if '0' <= c <= '9' then c as int - '0' as int
    else if 'a' <= c <= 'f' then c as int - 'a' as int + 10
    else c as int - 'A' as int + 10
  }

  /** The upper-case digit that `X2` writes for the value `d`. */
  function HexChar(d: nat): (c: char)
    requires d < 16
    ensures IsUpperHexDigit(c) && IsHexDigit(c)
    ensures HexDigitValue(c) == d
  {
    if d < 10 then ('0' as int + d) as char else ('A' as int + d - 10) as char
  }

  // ---------------------------------------------------------------------------
  // Formatting: "#{0:X2}{1:X2}{2:X2}{3:X2}"

  /** `{0:X2}`: two upper-case hexadecimal digits, most significant first. */
  function X2(v: Byte): (s: string)
    ensures |s| == 2 && IsUpperHexDigit(s[0]) && IsUpperHexDigit(s[1])
    ensures 16 * HexDigitValue(s[0]) + HexDigitValue(s[1]) == v
  {
    [HexChar(v / 16), HexChar(v % 16)]
  }

  /** `string.Format("#{0:X2}{1:X2}{2:X2}{3:X2}", a, r, g, b)`. */
  function FormatArgb(c: Color): (s: string)
    ensures |s| == 9 && s[0] == '#'
    ensures forall i :: 1 <= i < 9 ==> IsUpperHexDigit(s[i])
  {
    "#" + X2(c.a) + X2(c.r) + X2(c.g) + X2(c.b)
  }

  // ---------------------------------------------------------------------------
  // Parsing: ColorConverter.Convert

  /**
   * `System.Convert.ToInt32(p, 16)` on a two-character substring. The runtime
   * accepts a leading '+' sign, rejects '-' for base 16, and skips a "0x" prefix,
   * which in a two-character string leaves no digit and so fails.
   */
  function ParseHexInt(p: string): (r: Option<int>)
    requires |p| == 2
  {
    if p[0] == '+' then
      if IsHexDigit(p[1]) then Some(HexDigitValue(p[1])) else None
    else if IsHexDigit(p[0]) && IsHexDigit(p[1]) then
      Some(16 * HexDigitValue(p[0]) + HexDigitValue(p[1]))
    else
      None
  }

  /** `System.Convert.ToByte(int)`: an OverflowException outside 0..255. */
  function ToByte(v: int): (r: Option<Byte>)
    ensures r.Some? <==> 0 <= v < 256
    ensures r.Some? ==> r.value == v
  {
    if 0 <= v < 256 then Some(v) else None
  }

  /** `ToByte(ToInt32(s.Substring(i, 2), 16))`. */
  function ParsePair(s: string, i: nat): Option<Byte>
    requires i + 2 <= |s|
  {
    match ParseHexInt(s[i..i + 2])
    case None => None
    case Some(v) => ToByte(v)
  }

  /**
   * The `try` block of `Convert`: `None` when any `Substring` or conversion
   * throws (a string shorter than 9 characters, or a malformed pair).
   */
  function ParseArgb(s: string): Option<Color> {
    if |s| < 9 then None
    else
      match (ParsePair(s, 1), ParsePair(s, 3), ParsePair(s, 5), ParsePair(s, 7))
      case (Some(a), Some(r), Some(g), Some(b)) => Some(Color(a, r, g, b))
      case _ => None
  }

  /**
   * `ColorConverter.Convert`: null gives `Transparent`; a colour name wins over
   * hexadecimal parsing; otherwise the `#AARRGGBB` parse, falling back to
   * `Transparent` on any exception.
   */
  function Convert(value: Option<string>, names: ColorNames): Color {
    match value
    case None => Transparent
    case Some(s) =>
      if s in names then names[s]
      else ParseArgb(s).GetOr(Transparent)
  }

  datatype ConverterError = NotSupported

  /** `ColorConverter.ConvertBack`: always throws `NotSupportedException`. */
  function ConvertBack(value: Color): (r: Result<string, ConverterError>)
    ensures r.Failure? && r.error == NotSupported
  {
    Failure(NotSupported)
  }

  // ---------------------------------------------------------------------------
  // Properties of the codec

  /** The pair value of two hexadecimal digits at `s[i]` and `s[i + 1]`. */
  function HexByte(s: string, i: nat): Byte
    requires i + 2 <= |s| && IsHexDigit(s[i]) && IsHexDigit(s[i + 1])
  {
    16 * HexDigitValue(s[i]) + HexDigitValue(s[i + 1])
  }

  /** Every pair the conversion accepts fits in a byte, so `ToByte` never throws. */
  lemma ParsedPairFitsByte(p: string)
    requires |p| == 2 && ParseHexInt(p).Some?
    ensures 0 <= ParseHexInt(p).value <= 0xFF
  {
  }

  /** A null value converts to the fallback colour. */
  lemma ConvertNull(names: ColorNames)
    ensures Convert(None, names) == Transparent
  {
  }

  /** A successful name lookup takes precedence over hexadecimal parsing. */
  lemma ConvertNamed(s: string, names: ColorNames)
    requires s in names
    ensures Convert(Some(s), names) == names[s]
  {
  }

  /**
   * Eight hexadecimal digits (either case) after any first character give the
   * four channels in the order A, R, G, B.
   */
  lemma ConvertHex(s: string, names: ColorNames)
    requires s !in names && |s| >= 9
    requires forall i :: 1 <= i < 9 ==> IsHexDigit(s[i])
    ensures Convert(Some(s), names)
         == Color(HexByte(s, 1), HexByte(s, 3), HexByte(s, 5), HexByte(s, 7))
  {
    assert IsHexDigit(s[1]) && IsHexDigit(s[2]) && IsHexDigit(s[3]) && IsHexDigit(s[4]);
    assert IsHexDigit(s[5]) && IsHexDigit(s[6]) && IsHexDigit(s[7]) && IsHexDigit(s[8]);
  }

  /** A string shorter than nine characters (and not a name) falls back. */
  lemma ConvertShort(s: string, names: ColorNames)
    requires s !in names && |s| < 9
    ensures Convert(Some(s), names) == Transparent
  {
  }

  /**
   * A character in positions 1..8 that is neither a hexadecimal digit nor a
   * '+' sign opening its pair makes the conversion fall back.
   */
  lemma ConvertRejects(s: string, j: nat, names: ColorNames)
    requires s !in names && 1 <= j < 9 <= |s|
    requires !IsHexDigit(s[j]) && !(s[j] == '+' && j % 2 == 1)
    ensures Convert(Some(s), names) == Transparent
  {
    var i := if j % 2 == 1 then j else j - 1;
    assert ParsePair(s, i) == None by {
      assert s[i..i + 2][0] == s[i] && s[i..i + 2][1] == s[i + 1];
    }
  }

  /**
   * Only positions 1..8 are read: the first character and anything after the
   * ninth never change the parsed colour.
   */
  lemma ParseArgbReadsOnlyPairs(s: string, t: string)
    requires |s| >= 9 && |t| >= 9 && s[1..9] == t[1..9]
    ensures ParseArgb(s) == ParseArgb(t)
  {
    SamePair(s, t, 1);
    SamePair(s, t, 3);
    SamePair(s, t, 5);
    SamePair(s, t, 7);
  }

  /** For strings that are not colour names, the converter too reads only positions 1..8. */
  lemma {:induction false} ConvertReadsOnlyPairs(s: string, t: string, names: ColorNames)
    requires s !in names && t !in names
    requires |s| >= 9 && |t| >= 9 && s[1..9] == t[1..9]
    ensures Convert(Some(s), names) == Convert(Some(t), names)
  {
    ParseArgbReadsOnlyPairs(s, t);
  }

  lemma SamePair(s: string, t: string, i: nat)
    requires |s| >= 9 && |t| >= 9 && s[1..9] == t[1..9] && 1 <= i <= 7
    ensures s[i..i + 2] == t[i..i + 2]
  {
    assert s[i] == s[1..9][i - 1] == t[1..9][i - 1] == t[i];
    assert s[i + 1] == s[1..9][i] == t[1..9][i] == t[i + 1];
  }

  /** A pair written by `X2` parses back to its value. */
  lemma {:induction false} X2RoundTrip(v: Byte)
    ensures ParseHexInt(X2(v)) == Some(v)
  {
    var s := X2(v);
    assert s[0] != '+';
  }

  /** The four pairs of a formatted colour, by position. */
  lemma FormatArgbPairs(c: Color)
    ensures FormatArgb(c)[1..3] == X2(c.a)
    ensures FormatArgb(c)[3..5] == X2(c.r)
    ensures FormatArgb(c)[5..7] == X2(c.g)
    ensures FormatArgb(c)[7..9] == X2(c.b)
  {
    var s := FormatArgb(c);
    assert s == "#" + X2(c.a) + X2(c.r) + X2(c.g) + X2(c.b);
    assert s[1..3] == [s[1], s[2]];
    assert s[3..5] == [s[3], s[4]];
    assert s[5..7] == [s[5], s[6]];
    assert s[7..9] == [s[7], s[8]];
  }

  /** Parsing a formatted colour gives the colour back. */
  lemma {:induction false} ParseFormatRoundTrip(c: Color)
    ensures ParseArgb(FormatArgb(c)) == Some(c)
  {
    FormatArgbPairs(c);
    X2RoundTrip(c.a);
    X2RoundTrip(c.r);
    X2RoundTrip(c.g);
    X2RoundTrip(c.b);
  }

  /**
   * The round trip through the converter: no colour name begins with '#', so
   * the formatted string reaches the hexadecimal parse and yields the colour.
   */
  lemma {:induction false} ConvertFormatRoundTrip(c: Color, names: ColorNames)
    requires NamesAreIdentifiers(names)
    ensures Convert(Some(FormatArgb(c)), names) == c
  {
    ParseFormatRoundTrip(c);
    assert FormatArgb(c) !in names;
  }

  /** Formatting is injective: distinct colours never share a string. */
  lemma {:induction false} FormatArgbInjective(c: Color, d: Color)
    requires FormatArgb(c) == FormatArgb(d)
    ensures c == d
  {
    ParseFormatRoundTrip(c);
    ParseFormatRoundTrip(d);
  }

  /** A pair of a '+' sign and one hexadecimal digit is accepted with that digit's value. */
  lemma SignedPair(d: char)
    requires IsHexDigit(d)
    ensures ParseHexInt(['+', d]) == Some(HexDigitValue(d))
  {
  }

  /** A '+' before any other character is rejected. */
  lemma SignedPairRejected(d: char)
    requires !IsHexDigit(d)
    ensures ParseHexInt(['+', d]) == None
  {
  }

  /** A pair opened by a '+' sign is accepted, as `Convert.ToInt32` allows it. */
  lemma SignedPairsAccepted(names: ColorNames)
    requires NamesAreIdentifiers(names)
    ensures Convert(Some("#+F+F+F+F"), names) == Color(15, 15, 15, 15)
  {
    var s := "#+F+F+F+F";
    assert s !in names;
    assert s[1..3] == "+F" && s[3..5] == "+F" && s[5..7] == "+F" && s[7..9] == "+F";
  }

  /** The canonical string of `Colors.Red`. */
  lemma OpaqueRedString()
    ensures FormatArgb(OpaqueRed) == "#FFFF0000"
  {
  }

  /** The fallback colour's canonical string. */
  lemma TransparentString()
    ensures FormatArgb(Transparent) == "#00FFFFFF"
  {
  }
}
