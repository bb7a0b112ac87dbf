/**
 * The colour picker's view model (UWPColorPickerSample/ColorPickerViewModel.cs):
 * a canonical `#AARRGGBB` colour string, the four integer channel fields with
 * their decimal-text mirrors, and eight gradient-endpoint strings, all rewritten
 * together by `UpdateColor`.
 *
 * The generated property setters store the value in the backing field and then
 * call the matching `On...Changed` hook; they are the `Set...` methods here.
 * The hue swatch and the pick point are floating-point functions of the colour;
 * the model records the colour each was last derived from.
 */
module ColorPicker {
  import opened Wrappers
  import opened ColorCodec
  import opened DecimalText

  datatype Channel = A | R | G | B

  function ChannelOf(c: Color, ch: Channel): Byte {
    match ch
    case A => c.a
    case R => c.r
    case G => c.g
    case B => c.b
  }

  /** The colour with one channel replaced. */
  function WithChannel(c: Color, ch: Channel, v: Byte): (r: Color)
    ensures ChannelOf(r, ch) == v
    ensures forall other :: other != ch ==> ChannelOf(r, other) == ChannelOf(c, other)
  {
    match ch
    case A => c.(a := v)
    case R => c.(r := v)
    case G => c.(g := v)
    case B => c.(b := v)
  }

  function Max(x: int, y: int): int { if x < y then y else x }

  function Min(x: int, y: int): int { if x < y then x else y }

  /** A C# `(byte)` cast in an unchecked context: the low eight bits. */
  function UncheckedByte(v: int): Byte {
    v % 256
  }

  /**
   * `updated.X = (byte)Math.Max(0, v); updated.X = Math.Min((byte)0xff, updated.X);`
   * The cast happens before the `Min`, so values above 255 wrap instead of
   * being clamped, and the `Min` never changes anything.
   */
  function NormalizeChannel(v: Int32): (x: Byte)
    ensures v < 0 ==> x == 0
    ensures 0 <= v < 256 ==> x == v
    ensures 256 <= v ==> x < v && (v - x) % 256 == 0
    ensures x == UncheckedByte(Max(0, v))
  {
    Min(0xFF, UncheckedByte(Max(0, v)))
  }

  /** Everything `UpdateColor` writes, in one value. */
  datatype Fields = Fields(
    color: string,
    alpha: int, alphaString: string,
    red: int, redString: string,
    green: int, greenString: string,
    blue: int, blueString: string,
    redStartColor: string, redEndColor: string,
    greenStartColor: string, greenEndColor: string,
    blueStartColor: string, blueEndColor: string,
    alphaStartColor: string, alphaEndColor: string,
    hueBasis: Color)

  /** The fields after `UpdateColor(c)`. */
  function FieldsFor(c: Color): Fields {
    Fields(
      FormatArgb(c),
      c.a, DecimalString(c.a),
      c.r, DecimalString(c.r),
      c.g, DecimalString(c.g),
      c.b, DecimalString(c.b),
      FormatArgb(Color(0xFF, 0x00, c.g, c.b)), FormatArgb(Color(0xFF, 0xFF, c.g, c.b)),
      FormatArgb(Color(0xFF, c.r, 0x00, c.b)), FormatArgb(Color(0xFF, c.r, 0xFF, c.b)),
      FormatArgb(Color(0xFF, c.r, c.g, 0x00)), FormatArgb(Color(0xFF, c.r, c.g, 0xFF)),
      FormatArgb(Color(0x00, c.r, c.g, c.b)), FormatArgb(Color(0xFF, c.r, c.g, c.b)),
      c)
  }

  /**
   * What `UpdateColor(c)` leaves: the canonical string and the decimal mirrors
   * read back as `c` and its channels, and each gradient runs along one channel
   * of `c`, opaque for the three colour channels.
   */
  lemma {:induction false} FieldsForMeaning(c: Color)
    ensures var f := FieldsFor(c);
      && |f.color| == 9 && f.color[0] == '#' && ParseArgb(f.color) == Some(c)
      && f.alpha == c.a && f.red == c.r && f.green == c.g && f.blue == c.b
      && ParseInt(f.alphaString) == Some(c.a) && ParseInt(f.redString) == Some(c.r)
      && ParseInt(f.greenString) == Some(c.g) && ParseInt(f.blueString) == Some(c.b)
      && ParseArgb(f.redStartColor) == Some(Color(0xFF, 0x00, c.g, c.b))
      && ParseArgb(f.redEndColor) == Some(Color(0xFF, 0xFF, c.g, c.b))
      && ParseArgb(f.greenStartColor) == Some(Color(0xFF, c.r, 0x00, c.b))
      && ParseArgb(f.greenEndColor) == Some(Color(0xFF, c.r, 0xFF, c.b))
      && ParseArgb(f.blueStartColor) == Some(Color(0xFF, c.r, c.g, 0x00))
      && ParseArgb(f.blueEndColor) == Some(Color(0xFF, c.r, c.g, 0xFF))
      && ParseArgb(f.alphaStartColor) == Some(Color(0x00, c.r, c.g, c.b))
      && ParseArgb(f.alphaEndColor) == Some(Color(0xFF, c.r, c.g, c.b))
      && f.hueBasis == c
  {
    ParseFormatRoundTrip(c);
    DecimalRoundTrip(c.a);
    DecimalRoundTrip(c.r);
    DecimalRoundTrip(c.g);
    DecimalRoundTrip(c.b);
    ParseFormatRoundTrip(Color(0xFF, 0x00, c.g, c.b));
    ParseFormatRoundTrip(Color(0xFF, 0xFF, c.g, c.b));
    ParseFormatRoundTrip(Color(0xFF, c.r, 0x00, c.b));
    ParseFormatRoundTrip(Color(0xFF, c.r, 0xFF, c.b));
    ParseFormatRoundTrip(Color(0xFF, c.r, c.g, 0x00));
    ParseFormatRoundTrip(Color(0xFF, c.r, c.g, 0xFF));
    ParseFormatRoundTrip(Color(0x00, c.r, c.g, c.b));
    ParseFormatRoundTrip(Color(0xFF, c.r, c.g, c.b));
  }

  /**
   * The colour a channel handler produces from the current colour and the
   * channel field's value: only that channel changes.
   */
  function ChannelUpdate(current: Color, ch: Channel, v: Int32): (c: Color)
    ensures ChannelOf(c, ch) == NormalizeChannel(v)
    ensures forall other :: other != ch ==> ChannelOf(c, other) == ChannelOf(current, other)
  {
    WithChannel(current, ch, NormalizeChannel(v))
  }

  /**
   * The colour string alone determines everything `UpdateColor` writes: two
   * colours with the same string give the same channels, decimal strings,
   * gradients and hue basis.
   */
  lemma {:induction false} FieldsForInjective(c: Color, d: Color)
    requires FieldsFor(c).color == FieldsFor(d).color
    ensures FieldsFor(c) == FieldsFor(d)
    ensures c == d
  {
    FormatArgbInjective(c, d);
  }

  /**
   * Re-converting the canonical string of a shown colour gives the same
   * fields: `OnColorChanged` on a consistent view model changes nothing.
   */
  lemma {:induction false} CanonicalColorIsStable(c: Color, names: ColorNames)
    requires NamesAreIdentifiers(names)
    ensures FieldsFor(Convert(Some(FieldsFor(c).color), names)) == FieldsFor(c)
  {
    ConvertFormatRoundTrip(c, names);
  }

  /** An unparseable colour string is canonicalised to "#00FFFFFF". */
  lemma {:induction false} UnparseableColorBecomesTransparent(s: string, names: ColorNames)
    requires s !in names && ParseArgb(s) == None
    ensures FieldsFor(Convert(Some(s), names)).color == "#00FFFFFF"
  {
    TransparentString();
  }

  /**
   * A channel handler re-run with the value the view model already shows for
   * that channel changes nothing (the reverted string path ends here).
   */
  lemma {:induction false} ChannelUpdateWithShownValue(c: Color, ch: Channel)
    ensures ChannelUpdate(c, ch, ChannelOf(c, ch)) == c
  {
    var v := ChannelOf(c, ch);
    assert NormalizeChannel(v) == v;
    match ch
    case A =>
    case R =>
    case G =>
    case B =>
  }

  /** A channel value above 255 wraps: 300 becomes 44, not 255. */
  lemma ChannelWrapsAbove255()
    ensures NormalizeChannel(300) == 44
    ensures NormalizeChannel(256) == 0
    ensures NormalizeChannel(-5) == 0
  {
  }

  class ColorPickerViewModel {
    /** The platform's colour names, as the converter looks them up. */
    const names: ColorNames

    var color: string
    var alpha: Int32
    var alphaString: string
    var red: Int32
    var redString: string
    var green: Int32
    var greenString: string
    var blue: Int32
    var blueString: string
    var redStartColor: string
    var redEndColor: string
    var greenStartColor: string
    var greenEndColor: string
    var blueStartColor: string
    var blueEndColor: string
    var alphaStartColor: string
    var alphaEndColor: string
    /** The colour `hueColor` was last derived from. */
    var hueBasis: Color
    /** The colour `pickPointX`, `pickPointY` and `colorSpectrumPoint` were last derived from. */
    var pickBasis: Color

    ghost predicate Valid()
      reads this
    {
      NamesAreIdentifiers(names)
    }

    function Snapshot(): Fields
      reads this
    {
      Fields(
        color,
        alpha, alphaString, red, redString, green, greenString, blue, blueString,
        redStartColor, redEndColor, greenStartColor, greenEndColor,
        blueStartColor, blueEndColor, alphaStartColor, alphaEndColor,
        hueBasis)
    }

    /** `(Color)Converter.Convert(this.color, ...)`. */
    function Current(): Color
      reads this
    {
      Convert(Some(color), names)
    }

    /** Every field shows `c`, as `UpdateColor(c); UpdatePickPoint()` leaves them. */
    ghost predicate Shows(c: Color)
      reads this
    {
      Snapshot() == FieldsFor(c) && pickBasis == c
    }

    constructor (names: ColorNames)
      requires NamesAreIdentifiers(names)
      ensures Valid() && this.names == names
      ensures Shows(OpaqueRed) && color == "#FFFF0000"
      ensures alpha == 255 && red == 255 && green == 0 && blue == 0
    {
      this.names := names;
      color := "#FFFF0000";
      alpha, red, green, blue := 0, 0, 0, 0;
      alphaString, redString, greenString, blueString := "", "", "", "";
      redStartColor, redEndColor, greenStartColor, greenEndColor := "", "", "", "";
      blueStartColor, blueEndColor, alphaStartColor, alphaEndColor := "", "", "", "";
      hueBasis, pickBasis := Transparent, Transparent;
      new;
      UpdateColor(OpaqueRed);
      UpdatePickPoint();
      ConvertFormatRoundTrip(OpaqueRed, names);
      OpaqueRedString();
    }

    /** Rewrites every colour field from `c`. */
    method UpdateColor(c: Color)
      modifies this
      ensures Snapshot() == FieldsFor(c)
      ensures pickBasis == old(pickBasis)
    {
      UpdateChannelFields(c);
      UpdateGradients(c);
      hueBasis := c;
    }

    /** The colour string and the channel fields with their decimal mirrors. */
    method UpdateChannelFields(c: Color)
      modifies this`color, this`alpha, this`alphaString, this`red, this`redString,
        this`green, this`greenString, this`blue, this`blueString
      ensures color == FormatArgb(c)
      ensures alpha == c.a && alphaString == DecimalString(c.a)
      ensures red == c.r && redString == DecimalString(c.r)
      ensures green == c.g && greenString == DecimalString(c.g)
      ensures blue == c.b && blueString == DecimalString(c.b)
    {
      color := FormatArgb(c);
      alpha := c.a;
      alphaString := DecimalString(alpha);
      red := c.r;
      redString := DecimalString(red);
      green := c.g;
      greenString := DecimalString(green);
      blue := c.b;
      blueString := DecimalString(blue);
    }

    /** The eight gradient endpoints, one channel of `c` swept from 0x00 to 0xFF. */
    method UpdateGradients(c: Color)
      modifies this`redStartColor, this`redEndColor, this`greenStartColor, this`greenEndColor,
        this`blueStartColor, this`blueEndColor, this`alphaStartColor, this`alphaEndColor
      ensures redStartColor == FormatArgb(Color(0xFF, 0x00, c.g, c.b))
      ensures redEndColor == FormatArgb(Color(0xFF, 0xFF, c.g, c.b))
      ensures greenStartColor == FormatArgb(Color(0xFF, c.r, 0x00, c.b))
      ensures greenEndColor == FormatArgb(Color(0xFF, c.r, 0xFF, c.b))
      ensures blueStartColor == FormatArgb(Color(0xFF, c.r, c.g, 0x00))
      ensures blueEndColor == FormatArgb(Color(0xFF, c.r, c.g, 0xFF))
      ensures alphaStartColor == FormatArgb(Color(0x00, c.r, c.g, c.b))
      ensures alphaEndColor == FormatArgb(Color(0xFF, c.r, c.g, c.b))
    {
      redStartColor := FormatArgb(Color(0xFF, 0x00, c.g, c.b));
      redEndColor := FormatArgb(Color(0xFF, 0xFF, c.g, c.b));
      greenStartColor := FormatArgb(Color(0xFF, c.r, 0x00, c.b));
      greenEndColor := FormatArgb(Color(0xFF, c.r, 0xFF, c.b));
      blueStartColor := FormatArgb(Color(0xFF, c.r, c.g, 0x00));
      blueEndColor := FormatArgb(Color(0xFF, c.r, c.g, 0xFF));
      alphaStartColor := FormatArgb(Color(0x00, c.r, c.g, c.b));
      alphaEndColor := FormatArgb(Color(0xFF, c.r, c.g, c.b));
    }

    /** Re-derives the pick point from the parsed colour string. */
    method UpdatePickPoint()
      modifies this`pickBasis
      ensures pickBasis == Current()
    {
      pickBasis := Current();
    }

    /** `UpdateColor(c); UpdatePickPoint();`, the tail of every handler. */
    method ShowColor(c: Color)
      requires Valid()
      modifies this
      ensures Shows(c)
    {
      UpdateColor(c);
      UpdatePickPoint();
      ConvertFormatRoundTrip(c, names);
    }

    // -------------------------------------------------------------------------
    // The colour string

    /** The `Color` setter: store, then `OnColorChanged`. */
    method SetColor(s: string)
      requires Valid()
      modifies this
      ensures Shows(Convert(Some(s), names))
    {
      color := s;
      OnColorChanged();
    }

    method OnColorChanged()
      requires Valid()
      modifies this
      ensures Shows(old(Current()))
    {
      ShowColor(Current());
    }

    // -------------------------------------------------------------------------
    // Alpha

    method SetAlpha(v: Int32)
      requires Valid()
      modifies this
      ensures Shows(ChannelUpdate(old(Current()), A, v))
    {
      alpha := v;
      OnAlphaChanged();
    }

    method OnAlphaChanged()
      requires Valid()
      modifies this
      ensures Shows(ChannelUpdate(old(Current()), A, old(alpha)))
    {
      var updated := Current();
      updated := updated.(a := UncheckedByte(Max(0, alpha)));
      updated := updated.(a := Min(0xFF, updated.a));
      ShowColor(updated);
    }

    method SetAlphaString(s: string)
      requires Valid()
      modifies this
      decreases if ParseInt(s).Some? then 0 else 1, 1
      ensures Shows(ChannelUpdate(old(Current()), A, ParseInt(s).GetOr(old(alpha))))
    {
      alphaString := s;
      OnAlphaStringChanged();
    }

    /** Takes the parsed text, or puts back the text of the current value. */
    method OnAlphaStringChanged()
      requires Valid()
      modifies this
      decreases if ParseInt(alphaString).Some? then 0 else 1, 0
      ensures Shows(ChannelUpdate(old(Current()), A, ParseInt(old(alphaString)).GetOr(old(alpha))))
    {
      var parsed := ParseInt(alphaString);
      if parsed.Some? {
        SetAlpha(parsed.value);
      } else {
        DecimalRoundTrip(alpha);
        SetAlphaString(DecimalString(alpha));
      }
    }

    // -------------------------------------------------------------------------
    // Red

    method SetRed(v: Int32)
      requires Valid()
      modifies this
      ensures Shows(ChannelUpdate(old(Current()), R, v))
    {
      red := v;
      OnRedChanged();
    }

    method OnRedChanged()
      requires Valid()
      modifies this
      ensures Shows(ChannelUpdate(old(Current()), R, old(red)))
    {
      var updated := Current();
      updated := updated.(r := UncheckedByte(Max(0, red)));
      updated := updated.(r := Min(0xFF, updated.r));
      ShowColor(updated);
    }

    method SetRedString(s: string)
      requires Valid()
      modifies this
      decreases if ParseInt(s).Some? then 0 else 1, 1
      ensures Shows(ChannelUpdate(old(Current()), R, ParseInt(s).GetOr(old(red))))
    {
      redString := s;
      OnRedStringChanged();
    }

    method OnRedStringChanged()
      requires Valid()
      modifies this
      decreases if ParseInt(redString).Some? then 0 else 1, 0
      ensures Shows(ChannelUpdate(old(Current()), R, ParseInt(old(redString)).GetOr(old(red))))
    {
      var parsed := ParseInt(redString);
      if parsed.Some? {
        SetRed(parsed.value);
      } else {
        DecimalRoundTrip(red);
        SetRedString(DecimalString(red));
      }
    }

    // -------------------------------------------------------------------------
    // Green

    method SetGreen(v: Int32)
      requires Valid()
      modifies this
      ensures Shows(ChannelUpdate(old(Current()), G, v))
    {
      green := v;
      OnGreenChanged();
    }

    method OnGreenChanged()
      requires Valid()
      modifies this
      ensures Shows(ChannelUpdate(old(Current()), G, old(green)))
    {
      var updated := Current();
      updated := updated.(g := UncheckedByte(Max(0, green)));
      updated := updated.(g := Min(0xFF, updated.g));
      ShowColor(updated);
    }

    method SetGreenString(s: string)
      requires Valid()
      modifies this
      decreases if ParseInt(s).Some? then 0 else 1, 1
      ensures Shows(ChannelUpdate(old(Current()), G, ParseInt(s).GetOr(old(green))))
    {
      greenString := s;
      OnGreenStringChanged();
    }

    method OnGreenStringChanged()
      requires Valid()
      modifies this
      decreases if ParseInt(greenString).Some? then 0 else 1, 0
      ensures Shows(ChannelUpdate(old(Current()), G, ParseInt(old(greenString)).GetOr(old(green))))
    {
      var parsed := ParseInt(greenString);
      if parsed.Some? {
        SetGreen(parsed.value);
      } else {
        DecimalRoundTrip(green);
        SetGreenString(DecimalString(green));
      }
    }

    // -------------------------------------------------------------------------
    // Blue

    method SetBlue(v: Int32)
      requires Valid()
      modifies this
      ensures Shows(ChannelUpdate(old(Current()), B, v))
    {
      blue := v;
      OnBlueChanged();
    }

    method OnBlueChanged()
      requires Valid()
      modifies this
      ensures Shows(ChannelUpdate(old(Current()), B, old(blue)))
    {
      var updated := Current();
      updated := updated.(b := UncheckedByte(Max(0, blue)));
      updated := updated.(b := Min(0xFF, updated.b));
      ShowColor(updated);
    }

    method SetBlueString(s: string)
      requires Valid()
      modifies this
      decreases if ParseInt(s).Some? then 0 else 1, 1
      ensures Shows(ChannelUpdate(old(Current()), B, ParseInt(s).GetOr(old(blue))))
    {
      blueString := s;
      OnBlueStringChanged();
    }

    method OnBlueStringChanged()
      requires Valid()
      modifies this
      decreases if ParseInt(blueString).Some? then 0 else 1, 0
      ensures Shows(ChannelUpdate(old(Current()), B, ParseInt(old(blueString)).GetOr(old(blue))))
    {
      var parsed := ParseInt(blueString);
      if parsed.Some? {
        SetBlue(parsed.value);
      } else {
        DecimalRoundTrip(blue);
        SetBlueString(DecimalString(blue));
      }
    }
  }
}
