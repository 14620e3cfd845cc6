/**
 * The font and colour helpers of canvas-server.js: the font configurations,
 * `getFontStyle` and `buildFont`, `hexToRgb` with JavaScript's `parseInt`,
 * and the two contrast choices built on the relative luminance.  The
 * luminance itself is floating-point arithmetic and is a parameter here:
 * `isLight(r, g, b)` stands for `getLuminance(r, g, b) > 0.5` on defined
 * channel values.
 */
module CanvasStyle {
  import opened Common

  // ---- fonts ----

  /** A font configuration; the line-height ratio is kept in hundredths (1.4 is 140). */
  datatype FontConf = FontConf(size: nat, bold: bool, ratioPct: nat)

  const TitleIntro := FontConf(128, true, 110)
  const SubtitleIntro := FontConf(64, false, 125)
  const TitleTextWithContent := FontConf(96, true, 120)
  const TitleTextOnly := FontConf(136, true, 120)
  const Text := FontConf(64, false, 140)
  const QuoteLarge := FontConf(96, true, 120)
  const QuoteSmall := FontConf(64, true, 130)
  const HeaderFooter := FontConf(48, false, 140)

  /** The left margin of the content. */
  const Padding := 144

  /** The spacing after a title and between paragraphs. */
  const H2ToP := 80
  const PToP := 64

  function Weight(bold: bool): string
  {
    if bold then "bold" else "normal"
  }

  /** `buildFont(weight, size)`: the CSS font shorthand `"<weight> <size>px Arial"`. */
  function BuildFont(weight: string, size: nat): string
  {
    weight + " " + NatToString(size) + "px Arial"
  }

  /** `Math.round(size * lineHeightRatio)`. */
  function LineHeight(f: FontConf): (h: nat)
    ensures 2 * h * 100 - 100 <= 2 * f.size * f.ratioPct < 2 * h * 100 + 100
  {
    RoundDiv(f.size * f.ratioPct, 100)
  }

  datatype FontStyle = FontStyle(fontCSS: string, lineHeight: nat)

  /** `getFontStyle(fontConfig)`. */
  function GetFontStyle(f: FontConf): FontStyle
  {
    FontStyle(BuildFont(Weight(f.bold), f.size), LineHeight(f))
  }

  // ---- reading a font string back ----

  function DigitValue(c: char): nat
  {
    if '0' <= c <= '9' then (c as int - '0' as int) as nat else 0
  }

  /** The number a string of decimal digits denotes. */
  function DecimalValue(s: string): nat
  {
    if s == [] then 0 else DecimalValue(s[..|s| - 1]) * 10 + DigitValue(s[|s| - 1])
  }

  lemma {:induction false} DecimalOfNatToString(n: nat)
    ensures DecimalValue(NatToString(n)) == n
    decreases n
  {
    DigitCharValue(n % 10);
    if n >= 10 {
      DecimalOfNatToString(n / 10);
      DecimalSnoc(NatToString(n / 10), DigitChar(n % 10));
    } else {
      DecimalSnoc([], DigitChar(n));
      assert [] + [DigitChar(n)] == [DigitChar(n)];
    }
  }

  lemma DecimalSnoc(s: string, c: char)
    ensures DecimalValue(s + [c]) == DecimalValue(s) * 10 + DigitValue(c)
  {
    assert (s + [c])[..|s|] == s;
  }

  lemma DigitCharValue(d: nat)
    requires d < 10
    ensures DigitValue(DigitChar(d)) == d
  {
  }

  /** Splits `"<weight> <digits>px Arial"` back into its weight and size. */
  function ParseFont(s: string): Option<(string, nat)>
  {
    var suffix := "px Arial";
    if !EndsWith(s, suffix) then None
    else
      var head := s[..|s| - |suffix|];
      var k := TrailingDigits(head);
      if k == 0 || k == |head| || head[|head| - k - 1] != ' ' then None
      else Some((head[..|head| - k - 1], DecimalValue(head[|head| - k..])))
  }

  /** The number of decimal digits at the end of `s`. */
  function TrailingDigits(s: string): (k: nat)
    ensures k <= |s|
    ensures forall i | |s| - k <= i < |s| :: IsDigit(s[i])
    ensures k < |s| ==> !IsDigit(s[|s| - 1 - k])
  {
    if s == [] || !IsDigit(s[|s| - 1]) then 0 else 1 + TrailingDigits(s[..|s| - 1])
  }

  lemma {:induction false} TrailingDigitsOfSuffix(a: string, d: string)
    requires forall i | 0 <= i < |d| :: IsDigit(d[i])
    requires a != [] && !IsDigit(a[|a| - 1])
    ensures TrailingDigits(a + d) == |d|
    decreases |d|
  {
    if d == [] {
      assert a + d == a;
    } else {
      assert (a + d)[..|a + d| - 1] == a + d[..|d| - 1];
      TrailingDigitsOfSuffix(a, d[..|d| - 1]);
    }
  }

  /** The font string `buildFont` writes can be read back: weight and size round-trip. */
  lemma BuildFontRoundTrip(weight: string, size: nat)
    ensures ParseFont(BuildFont(weight, size)) == Some((weight, size))
  {
    var digits := NatToString(size);
    var s := BuildFont(weight, size);
    var head := weight + " " + digits;
    assert s == head + "px Arial";
    assert s[..|s| - 8] == head;
    assert s[|s| - 8..] == "px Arial";
    TrailingDigitsOfSuffix(weight + " ", digits);
    assert head[..|head| - |digits| - 1] == weight;
    assert head[|head| - |digits|..] == digits;
    DecimalOfNatToString(size);
  }

  // ---- hexToRgb ----

  function HexDigitValue(c: char): Option<nat>
  {
    if '0' <= c <= '9' then Some((c as int - '0' as int) as nat)
    else if 'a' <= c <= 'f' then Some((c as int - 'a' as int + 10) as nat)
    else if 'A' <= c <= 'F' then Some((c as int - 'A' as int + 10) as nat)
    else None
  }

  predicate IsHexDigit(c: char)
  {
    HexDigitValue(c).Some?
  }

  /** The number of leading hexadecimal digits of `s`. */
  function LeadingHex(s: string): (k: nat)
    ensures k <= |s|
    ensures forall i | 0 <= i < k :: IsHexDigit(s[i])
  {
    if s == [] || !IsHexDigit(s[0]) then 0 else 1 + LeadingHex(s[1..])
  }

  /** The value of a string of hexadecimal digits. */
  function HexValue(s: string): nat
    requires forall i | 0 <= i < |s| :: IsHexDigit(s[i])
  {
    if s == [] then 0
    else
      assert IsHexDigit(s[|s| - 1]);
      HexValue(s[..|s| - 1]) * 16 + HexDigitValue(s[|s| - 1]).value
  }

  /**
   * `parseInt(s, 16)`: leading whitespace and one sign are skipped, then an
   * optional `0x`; the longest run of hexadecimal digits is read, and no digit
   * at all gives NaN (`None`).
   */
  function ParseIntHex(s: string): (r: Option<int>)
    ensures r.Some? ==> exists i | 0 <= i < |s| :: IsHexDigit(s[i])
  {
    var t := s[LeadingSpace(s)..];
    var negative := t != [] && t[0] == '-';
    var u := if t != [] && (t[0] == '-' || t[0] == '+') then t[1..] else t;
    var v := if |u| >= 2 && u[0] == '0' && (u[1] == 'x' || u[1] == 'X') then u[2..] else u;
    var k := LeadingHex(v);
    if k == 0 then None
    else
      assert IsHexDigit(v[0]);
      var n: int := HexValue(v[..k]);
      var value: int := if negative then 0 - n else n;
      Some(value)
  }

  /** `s.substr(start, len)` for non-negative arguments. */
  function Substr(s: string, start: nat, len: nat): string
  {
    var a := Min(start, |s|);
    var b := Min(start + len, |s|);
    s[a..b]
  }

  /** `s.replace('#', '')`: only the first `#` goes. */
  function DropFirstHash(s: string): (r: string)
    ensures '#' !in s ==> r == s
    ensures |r| == |s| || |r| + 1 == |s|
  {
    if s == [] then s
    else if s[0] == '#' then s[1..]
    else [s[0]] + DropFirstHash(s[1..])
  }

  datatype Rgb = Rgb(r: Option<int>, g: Option<int>, b: Option<int>)

  /** `hexToRgb(hex)`: three channels, each NaN when its two characters do not start a number. */
  function HexToRgb(hex: string): Rgb
  {
    var h := ExpandShort(DropFirstHash(hex));
    Rgb(ParseIntHex(Substr(h, 0, 2)), ParseIntHex(Substr(h, 2, 2)), ParseIntHex(Substr(h, 4, 2)))
  }

  /** A three-digit body is doubled digit by digit; any other length is kept. */
  function ExpandShort(h0: string): string
  {
    if |h0| == 3 then [h0[0], h0[0], h0[1], h0[1], h0[2], h0[2]] else h0
  }

  /** Two lower-case hexadecimal digits for a byte: an encoder independent of `hexToRgb`. */
  function HexByte(n: nat): string
    requires n < 256
  {
    ["0123456789abcdef"[n / 16], "0123456789abcdef"[n % 16]]
  }

  function RgbToHex(r: nat, g: nat, b: nat): string
    requires r < 256 && g < 256 && b < 256
  {
    "#" + HexByte(r) + HexByte(g) + HexByte(b)
  }

  /** Each digit `HexByte` writes reads back as its value. */
  lemma HexDigitOf(d: nat)
    requires d < 16
    ensures HexDigitValue("0123456789abcdef"[d]) == Some(d)
  {
  }

  /** Two hexadecimal digits read as one byte. */
  lemma HexPairValue(hi: char, lo: char, a: nat, b: nat)
    requires HexDigitValue(hi) == Some(a) && HexDigitValue(lo) == Some(b)
    ensures ParseIntHex([hi, lo]) == Some(a * 16 + b)
  {
    var s := [hi, lo];
    assert LeadingSpace(s) == 0;
    assert s[0..] == s;
    assert s[1..][1..] == [];
    assert LeadingHex(s) == 2;
    assert s[..2] == s && s[..2][..1] == [hi] && [hi][..0] == [];
    assert HexValue([hi]) == a;
  }

  lemma HexByteValue(n: nat)
    requires n < 256
    ensures ParseIntHex(HexByte(n)) == Some(n)
  {
    var hi, lo := n / 16, n % 16;
    assert hi * 16 + lo == n;
    HexDigitOf(hi);
    HexDigitOf(lo);
    HexPairValue("0123456789abcdef"[hi], "0123456789abcdef"[lo], hi, lo);
  }

  /** `hexToRgb` reads back what `#rrggbb` encodes. */
  lemma HexToRgbRoundTrip(r: nat, g: nat, b: nat)
    requires r < 256 && g < 256 && b < 256
    ensures HexToRgb(RgbToHex(r, g, b)) == Rgb(Some(r), Some(g), Some(b))
  {
    var body := HexByte(r) + HexByte(g) + HexByte(b);
    var s := RgbToHex(r, g, b);
    assert s == "#" + body;
    assert DropFirstHash(s) == body;
    assert Substr(body, 0, 2) == HexByte(r);
    assert Substr(body, 2, 2) == HexByte(g);
    assert Substr(body, 4, 2) == HexByte(b);
    HexByteValue(r);
    HexByteValue(g);
    HexByteValue(b);
  }

  /** The three-digit form `#abc` reads as `#aabbcc`. */
  lemma ShortHexExpands(a: char, b: char, c: char)
    ensures HexToRgb(['#', a, b, c]) == HexToRgb(['#', a, a, b, b, c, c])
  {
    assert DropFirstHash(['#', a, b, c]) == [a, b, c];
    assert DropFirstHash(['#', a, a, b, b, c, c]) == [a, a, b, b, c, c];
  }

  // ---- contrast ----

  const DarkText := "#000000"
  const LightText := "#ffffff"
  const DefaultBg := "#ffffff"
  const DefaultText := "#000000"

  /** `luminance > 0.5` on the channels of `hexToRgb`; a NaN channel makes the comparison false. */
  predicate LightBackground(bg: string, isLight: (int, int, int) -> bool)
  {
    var c := HexToRgb(bg);
    c.r.Some? && c.g.Some? && c.b.Some? && isLight(c.r.value, c.g.value, c.b.value)
  }

  /**
   * A colour as the request's settings carry it: a string, or any other JSON
   * value (null, a number, an object), on which `hex.replace` in `hexToRgb`
   * throws.
   */
  datatype ColorValue = Str(s: string) | NonString

  /** `CONFIG.COLORS.ACCENT_FALLBACK` */
  const AccentFallback := "#6366F1"

  /** `const { brandColor = CONFIG.COLORS.ACCENT_FALLBACK } = settings`: the default only when the setting is absent. */
  function BrandColor(setting: Option<ColorValue>): (c: ColorValue)
    ensures setting.None? ==> c == Str(AccentFallback)
    ensures setting.Some? ==> c == setting.value
  {
    if setting.Some? then setting.value else Str(AccentFallback)
  }

  /**
   * `getContrastColor(backgroundColor)`: dark text exactly on a light
   * background; a value that is not a string makes `hexToRgb` throw, and the
   * `catch` answers dark text.
   */
  function ContrastColor(bg: ColorValue, isLight: (int, int, int) -> bool): (c: string)
    ensures bg.NonString? ==> c == DarkText
    ensures bg.Str? ==> (c == DarkText <==> LightBackground(bg.s, isLight))
    ensures c == LightText <==> bg.Str? && !LightBackground(bg.s, isLight)
  {
    match bg
    case NonString => DarkText
    case Str(s) => if LightBackground(s, isLight) then DarkText else LightText
  }

  /**
   * `getAccentColorForBackground(backgroundColor, brandColor)`: the brand
   * colour on a light background, white on a dark one, and the brand colour
   * again from the `catch` when the background is not a string.
   */
  function AccentColorForBackground(bg: ColorValue, brand: ColorValue, isLight: (int, int, int) -> bool): (c: ColorValue)
    ensures bg.NonString? ==> c == brand
    ensures bg.Str? && LightBackground(bg.s, isLight) ==> c == brand
    ensures bg.Str? && !LightBackground(bg.s, isLight) ==> c == Str(LightText)
  {
    match bg
    case NonString => brand
    case Str(s) => if LightBackground(s, isLight) then brand else Str(LightText)
  }

  predicate NoHexDigit(s: string)
  {
    forall i | 0 <= i < |s| :: !IsHexDigit(s[i])
  }

  /** A colour `hexToRgb` cannot read (no hex digit where a channel starts) gets light text. */
  lemma MalformedGetsLightText(bg: string, isLight: (int, int, int) -> bool)
    requires NoHexDigit(bg)
    ensures ContrastColor(Str(bg), isLight) == LightText
  {
    NoHexDropped(bg);
    NoHexExpanded(DropFirstHash(bg));
    NoHexFirstChannel(ExpandShort(DropFirstHash(bg)));
  }

  lemma NoHexDropped(bg: string)
    requires NoHexDigit(bg)
    ensures NoHexDigit(DropFirstHash(bg))
  {
    DropFirstHashSub(bg);
  }

  lemma NoHexExpanded(h0: string)
    requires NoHexDigit(h0)
    ensures NoHexDigit(ExpandShort(h0))
  {
  }

  lemma NoHexFirstChannel(h: string)
    requires NoHexDigit(h)
    ensures ParseIntHex(Substr(h, 0, 2)) == None
  {
    var first := Substr(h, 0, 2);
    assert forall i | 0 <= i < |first| :: first[i] == h[i];
  }

  lemma {:induction false} DropFirstHashSub(s: string)
    ensures forall i | 0 <= i < |DropFirstHash(s)| :: DropFirstHash(s)[i] in s
  {
    if s != [] && s[0] != '#' {
      DropFirstHashSub(s[1..]);
      var r := DropFirstHash(s);
      forall i | 0 <= i < |r|
        ensures r[i] in s
      {
        if i > 0 {
          assert r[i] == DropFirstHash(s[1..])[i - 1];
        }
      }
    }
  }

  /** The default background counts as light exactly when white does. */
  lemma WhiteIsLight(isLight: (int, int, int) -> bool)
    ensures LightBackground(DefaultBg, isLight) <==> isLight(255, 255, 255)
  {
    assert DefaultBg == RgbToHex(255, 255, 255);
    HexToRgbRoundTrip(255, 255, 255);
  }

  datatype SlideColors = SlideColors(bg: ColorValue, text: string, accent: ColorValue)

  /**
   * The colours `renderSlideToCanvas` picks: an accent slide is painted in the
   * brand colour with contrasting text (dark text when the brand colour is
   * not a string); every slide underlines on white, so the accent is the
   * brand colour whenever white counts as light.
   */
  function ColorsFor(isAccentSlide: bool, brand: ColorValue, isLight: (int, int, int) -> bool): (c: SlideColors)
    ensures c.bg == (if isAccentSlide then brand else Str(DefaultBg))
    ensures !isAccentSlide ==> c.text == DefaultText
    ensures isAccentSlide && brand.NonString? ==> c.text == DarkText
    ensures isAccentSlide && brand.Str? ==> (c.text == DarkText <==> LightBackground(brand.s, isLight))
    ensures isLight(255, 255, 255) ==> c.accent == brand
    ensures !isLight(255, 255, 255) ==> c.accent == Str(LightText)
  {
    WhiteIsLight(isLight);
    SlideColors(if isAccentSlide then brand else Str(DefaultBg),
                if isAccentSlide then ContrastColor(brand, isLight) else DefaultText,
                AccentColorForBackground(Str(DefaultBg), brand, isLight))
  }
}
