/**
 * `ColorSystem` of src/core/colorSystem.ts: hex validation, the choice of
 * black or white text by contrast ratio, the WCAG 2.1 contrast thresholds,
 * lightening and darkening in HSL, the colour scheme of each style, the CSS
 * variables and the harmonious palette.  The floating-point parts (relative
 * luminance, `hexToHsl` and the channel values `hslToHex` computes) are given
 * as functions; everything decided from their results is modelled.
 */
module ColorSystem {
  import opened Common
  import CanvasStyle

  const White := "#ffffff"
  const Black := "#000000"

  /** An HSL triple as `hexToHsl` returns it: hue in degrees, saturation and lightness in percent, all rounded. */
  datatype Hsl = Hsl(h: int, s: int, l: int)

  /** Rounded 0-255 channel values, the `Math.round(c * 255)` of `hslToHex`. */
  datatype Rgb = Rgb(r: nat, g: nat, b: nat)

  /**
   * The floating-point functions the class is built on: `getLuminance`,
   * `hexToHsl`, and the channels `hslToHex` rounds before printing them.
   */
  datatype Numerics = Numerics(luminance: string -> real, toHsl: string -> Hsl, toRgb: Hsl -> Rgb)

  // ---- hex strings ----

  /** `/^#[0-9A-Fa-f]{6}$/.test(hex)` */
  predicate IsValidHexColor(s: string)
  {
    |s| == 7 && s[0] == '#' && forall i | 1 <= i < 7 :: CanvasStyle.IsHexDigit(s[i])
  }

  /** A lower-case hexadecimal digit, as `toString(16)` prints it. */
  function HexChar(d: nat): (c: char)
    requires d < 16
    ensures CanvasStyle.HexDigitValue(c) == Some(d)
  {
    if d < 10 then ('0' as int + d) as char else ('a' as int + d - 10) as char
  }

  /** `n.toString(16)` */
  function NatToHex(n: nat): (r: string)
    ensures forall i | 0 <= i < |r| :: CanvasStyle.IsHexDigit(r[i])
    ensures |r| >= 1
  {
    if n < 16 then [HexChar(n)] else NatToHex(n / 16) + [HexChar(n % 16)]
  }

  /** `toHex(c)`: the channel in hexadecimal, padded with a `0` to two digits when it has one. */
  function ToHex2(n: nat): string
  {
    var h := NatToHex(n);
    if |h| == 1 then "0" + h else h
  }

  /** `hslToHex`: `#` and the three padded channels. */
  function HexColor(c: Rgb): string
  {
    "#" + ToHex2(c.r) + ToHex2(c.g) + ToHex2(c.b)
  }

  /** `hslToHex(h, s, l)` with its channels computed by `num`. */
  function HslToHex(num: Numerics, hsl: Hsl): string
  {
    HexColor(num.toRgb(hsl))
  }

  /** The hexadecimal digits of `n` read back give `n`. */
  lemma {:induction false} NatToHexValue(n: nat)
    ensures CanvasStyle.HexValue(NatToHex(n)) == n
    ensures |NatToHex(n)| == 1 <==> n < 16
    ensures |NatToHex(n)| <= 2 <==> n < 256
    decreases n
  {
    var r := NatToHex(n);
    if n >= 16 {
      NatToHexValue(n / 16);
      assert r[..|r| - 1] == NatToHex(n / 16);
      assert r[|r| - 1] == HexChar(n % 16);
    }
  }

  /** A channel below 256 prints as exactly two digits that read back as the channel. */
  lemma ToHex2RoundTrip(n: nat)
    ensures |ToHex2(n)| == 2 <==> n < 256
    ensures forall i | 0 <= i < |ToHex2(n)| :: CanvasStyle.IsHexDigit(ToHex2(n)[i])
    ensures CanvasStyle.HexValue(ToHex2(n)) == n
  {
    NatToHexValue(n);
    var h := NatToHex(n);
    if |h| == 1 {
      var t := "0" + h;
      assert t[..1] == "0";
      assert CanvasStyle.HexValue(t) == CanvasStyle.HexValue(t[..1]) * 16 + CanvasStyle.HexDigitValue(t[1]).value;
      assert CanvasStyle.HexValue(t[..1]) == CanvasStyle.HexValue(t[..0]) * 16 + 0;
    }
  }

  /** What `hslToHex` prints passes `isValidHexColor` exactly when every channel is below 256. */
  lemma HexColorValid(c: Rgb)
    ensures IsValidHexColor(HexColor(c)) <==> c.r < 256 && c.g < 256 && c.b < 256
  {
    ToHex2RoundTrip(c.r);
    ToHex2RoundTrip(c.g);
    ToHex2RoundTrip(c.b);
    var s := HexColor(c);
    var r, g, b := ToHex2(c.r), ToHex2(c.g), ToHex2(c.b);
    assert s == "#" + r + g + b;
    if c.r < 256 && c.g < 256 && c.b < 256 {
      forall i | 1 <= i < 7 ensures CanvasStyle.IsHexDigit(s[i]) {
        if i < 3 { assert s[i] == r[i - 1]; }
        else if i < 5 { assert s[i] == g[i - 3]; }
        else { assert s[i] == b[i - 5]; }
      }
    }
  }

  // ---- contrast ----

  function RMax(a: real, b: real): real { if a >= b then a else b }
  function RMin(a: real, b: real): real { if a <= b then a else b }

  /** `getContrastRatio` on two luminances: (lighter + 0.05) / (darker + 0.05). */
  function ContrastRatio(l1: real, l2: real): (r: real)
    requires l1 >= 0.0 && l2 >= 0.0
  {
    (RMax(l1, l2) + 0.05) / (RMin(l1, l2) + 0.05)
  }

  /** The ratio does not depend on the order of the colours, is at least 1, and is 1 only for equal luminances. */
  lemma ContrastRatioShape(l1: real, l2: real)
    requires l1 >= 0.0 && l2 >= 0.0
    ensures ContrastRatio(l1, l2) == ContrastRatio(l2, l1)
    ensures ContrastRatio(l1, l2) >= 1.0
    ensures ContrastRatio(l1, l2) == 1.0 <==> l1 == l2
  {
    var hi, lo := RMax(l1, l2) + 0.05, RMin(l1, l2) + 0.05;
    assert hi >= lo > 0.0;
    DivAtLeastOne(hi, lo);
  }

  lemma DivAtLeastOne(hi: real, lo: real)
    requires hi >= lo > 0.0
    ensures hi / lo >= 1.0
    ensures hi / lo == 1.0 <==> hi == lo
  {
    assert hi / lo * lo == hi;
  }

  /** The luminances a colour comparison needs are non-negative, as relative luminance is. */
  predicate Measurable(num: Numerics, c: string)
  {
    num.luminance(c) >= 0.0
  }

  /** `getContrastRatio(c1, c2)` */
  function ContrastOf(num: Numerics, c1: string, c2: string): real
    requires Measurable(num, c1) && Measurable(num, c2)
  {
    ContrastRatio(num.luminance(c1), num.luminance(c2))
  }

  /** `getContrastingTextColor(bg)`: white only when it contrasts strictly more than black. */
  function ContrastingTextColor(num: Numerics, bg: string): (c: string)
    requires Measurable(num, bg) && Measurable(num, White) && Measurable(num, Black)
    ensures c == White || c == Black
  {
    if ContrastOf(num, bg, White) > ContrastOf(num, bg, Black) then White else Black
  }

  /** The text colour chosen contrasts at least as much as the other one, and a tie goes to black. */
  lemma ContrastingIsBest(num: Numerics, bg: string)
    requires Measurable(num, bg) && Measurable(num, White) && Measurable(num, Black)
    ensures var c := ContrastingTextColor(num, bg);
            var other := if c == White then Black else White;
            ContrastOf(num, bg, c) >= ContrastOf(num, bg, other)
    ensures ContrastOf(num, bg, White) == ContrastOf(num, bg, Black) ==> ContrastingTextColor(num, bg) == Black
  {
  }

  datatype Level = AA | AAA

  /** `meetsWCAGStandards`: ratio at least 7 for AAA (WCAG 2.1 SC 1.4.6) and 4.5 for AA (SC 1.4.3). */
  function MeetsWcag(num: Numerics, bg: string, text: string, level: Level): (b: bool)
    requires Measurable(num, bg) && Measurable(num, text)
  {
    ContrastOf(num, bg, text) >= (if level == AAA then 7.0 else 4.5)
  }

  /** AAA implies AA, and the test does not care which colour is the background. */
  lemma WcagLevels(num: Numerics, bg: string, text: string)
    requires Measurable(num, bg) && Measurable(num, text)
    ensures MeetsWcag(num, bg, text, AAA) ==> MeetsWcag(num, bg, text, AA)
    ensures MeetsWcag(num, bg, text, AA) == MeetsWcag(num, text, bg, AA)
    ensures MeetsWcag(num, bg, text, AAA) == MeetsWcag(num, text, bg, AAA)
  {
    ContrastRatioShape(num.luminance(bg), num.luminance(text));
  }

  /** WCAG 2.1's relative luminance of white and black. */
  predicate ReferenceExtremes(num: Numerics)
  {
    num.luminance(White) == 1.0 && num.luminance(Black) == 0.0
  }

  /** Black on white has the largest ratio there is, 21:1. */
  lemma BlackOnWhite(num: Numerics)
    requires ReferenceExtremes(num)
    ensures ContrastOf(num, White, Black) == 21.0
    ensures MeetsWcag(num, White, Black, AAA)
  {
  }

  /**
   * Whatever the background, the text colour `getContrastingTextColor`
   * picks meets AA: with the reference luminances one of black and white
   * always reaches a ratio of at least 4.5 (their product is 21).
   */
  lemma ContrastingMeetsAA(num: Numerics, bg: string)
    requires ReferenceExtremes(num) && 0.0 <= num.luminance(bg) <= 1.0
    ensures MeetsWcag(num, bg, ContrastingTextColor(num, bg), AA)
  {
    var x := num.luminance(bg) + 0.05;
    assert ContrastOf(num, bg, White) == 1.05 / x;
    assert ContrastOf(num, bg, Black) == x / 0.05;
    if x >= 0.225 {
      assert x / 0.05 >= 4.5;
    } else {
      assert 1.05 / x * x == 1.05;
      assert 1.05 / x > 4.5;
    }
  }

  // ---- lightness ----

  /** `Math.min(100, l + amount)` */
  function Lightened(l: int, amount: int): (r: int)
    ensures r <= 100
    ensures r == l + amount || r == 100
  {
    Min(100, l + amount)
  }

  /** `Math.max(0, l - amount)` */
  function Darkened(l: int, amount: int): (r: int)
    ensures r >= 0
    ensures r == l - amount || r == 0
  {
    Max(0, l - amount)
  }

  /** Lightening by a non-negative amount never darkens a valid lightness, and darkening never lightens it. */
  lemma LightnessMoves(l: int, amount: int)
    requires 0 <= l <= 100 && amount >= 0
    ensures l <= Lightened(l, amount) <= 100
    ensures 0 <= Darkened(l, amount) <= l
    ensures Lightened(l, 0) == l && Darkened(l, 0) == l
  {
  }

  /** `lightenColor(hex, amount)`: same hue and saturation, lightness raised and capped at 100. */
  function LightenColor(num: Numerics, hex: string, amount: int): string
  {
    var hsl := num.toHsl(hex);
    HslToHex(num, Hsl(hsl.h, hsl.s, Lightened(hsl.l, amount)))
  }

  /** `darkenColor(hex, amount)`: same hue and saturation, lightness lowered and floored at 0. */
  function DarkenColor(num: Numerics, hex: string, amount: int): string
  {
    var hsl := num.toHsl(hex);
    HslToHex(num, Hsl(hsl.h, hsl.s, Darkened(hsl.l, amount)))
  }

  /** Once the lightness is at 100 lightening further changes nothing, and at 0 darkening changes nothing. */
  lemma ClampedEnds(num: Numerics, hex: string, a: int, b: int)
    requires a >= 0 && b >= 0
    ensures num.toHsl(hex).l >= 100 ==> LightenColor(num, hex, a) == LightenColor(num, hex, b)
    ensures num.toHsl(hex).l <= 0 ==> DarkenColor(num, hex, a) == DarkenColor(num, hex, b)
  {
  }

  // ---- schemes ----

  datatype ColorScheme = ColorScheme(background: string, text: string, accent: string, textOnAccent: string)

  /** What a colour comparison in a scheme needs of the luminances. */
  predicate SchemeMeasurable(num: Numerics, brand: string)
  {
    Measurable(num, brand) && Measurable(num, White) && Measurable(num, Black)
    && Measurable(num, LightenColor(num, brand, 30)) && Measurable(num, LightenColor(num, brand, 15))
  }

  /** `generateColorScheme(brandColor, style)`; any style but `bright` and `elegant` is the default one. */
  function GenerateColorScheme(num: Numerics, brand: string, style: string): ColorScheme
    requires SchemeMeasurable(num, brand)
  {
    if style == "bright" then
      var accent := LightenColor(num, brand, 30);
      ColorScheme(brand, ContrastingTextColor(num, brand), accent, ContrastingTextColor(num, accent))
    else if style == "elegant" then
      var accent := LightenColor(num, brand, 15);
      ColorScheme("#1a1a1a", White, accent, ContrastingTextColor(num, accent))
    else
      ColorScheme(White, Black, brand, ContrastingTextColor(num, brand))
  }

  /**
   * Every style puts on the accent the text colour that contrasts with it
   * best; `bright` does the same for its brand background, `elegant` is
   * light text on near-black, and every other style is black on white with
   * the brand colour as its accent.
   */
  lemma SchemeByStyle(num: Numerics, brand: string, style: string)
    requires SchemeMeasurable(num, brand)
    ensures var s := GenerateColorScheme(num, brand, style);
            && s.textOnAccent == ContrastingTextColor(num, s.accent)
            && (style == "bright" ==>
                  s.background == brand && s.text == ContrastingTextColor(num, brand) && s.accent == LightenColor(num, brand, 30))
            && (style == "elegant" ==> s == ColorScheme("#1a1a1a", White, LightenColor(num, brand, 15), s.textOnAccent))
            && (style != "bright" && style != "elegant" ==>
                  s == GenerateColorScheme(num, brand, "default") && s.background == White && s.text == Black && s.accent == brand)
  {
  }

  /** With the reference luminances, the bright style's text meets AA on its background, whatever the brand colour. */
  lemma BrightTextReadable(num: Numerics, brand: string)
    requires SchemeMeasurable(num, brand) && ReferenceExtremes(num) && num.luminance(brand) <= 1.0
    ensures var s := GenerateColorScheme(num, brand, "bright");
            Measurable(num, s.text) && MeetsWcag(num, s.background, s.text, AA)
  {
    ContrastingMeetsAA(num, brand);
  }

  /** `generateCSSVariables`: the eight custom properties; the author fields are quoted. */
  function CssVariables(num: Numerics, brand: string, style: string, username: string, fullName: string): map<string, string>
    requires SchemeMeasurable(num, brand)
  {
    var s := GenerateColorScheme(num, brand, style);
    map["--brandColor" := brand,
        "--brandColorLight" := LightenColor(num, brand, 40),
        "--backgroundColor" := s.background,
        "--textColor" := s.text,
        "--accentColor" := s.accent,
        "--textOnAccent" := s.textOnAccent,
        "--authorUsername" := "\"" + username + "\"",
        "--authorFullName" := "\"" + fullName + "\""]
  }

  /**
   * Exactly the eight variables: the brand colour and its 40% lightening,
   * the scheme unchanged, and the author's names between double quotes.
   */
  lemma CssVariablesCarryScheme(num: Numerics, brand: string, style: string, username: string, fullName: string)
    requires SchemeMeasurable(num, brand)
    ensures var v := CssVariables(num, brand, style, username, fullName);
            var s := GenerateColorScheme(num, brand, style);
            && v.Keys == {"--brandColor", "--brandColorLight", "--backgroundColor", "--textColor",
                          "--accentColor", "--textOnAccent", "--authorUsername", "--authorFullName"}
            && v["--brandColor"] == brand && v["--brandColorLight"] == LightenColor(num, brand, 40)
            && v["--backgroundColor"] == s.background && v["--textColor"] == s.text
            && v["--accentColor"] == s.accent && v["--textOnAccent"] == s.textOnAccent
            && v["--authorUsername"] == "\"" + username + "\""
            && v["--authorFullName"] == "\"" + fullName + "\""
  {
  }

  // ---- the palette ----

  /** JavaScript's `%`: the remainder takes the sign of the dividend. */
  function JsRem(a: int, n: int): (r: int)
    requires n > 0
    ensures a >= 0 ==> 0 <= r < n && r == a % n
  {
    if a >= 0 then a % n else -((-a) % n)
  }

  datatype Palette = Palette(primary: string, secondary: string, tertiary: string, accent: string)

  /** The hue a palette entry is printed with: the base hue turned by `shift` degrees. */
  function ShiftedHue(h: int, shift: int): int
  {
    JsRem(h + shift, 360)
  }

  /** `generateHarmoniousPalette(baseColor)` */
  function HarmoniousPalette(num: Numerics, base: string): Palette
  {
    var hsl := num.toHsl(base);
    Palette(base,
            HslToHex(num, Hsl(ShiftedHue(hsl.h, 30), hsl.s, hsl.l)),
            HslToHex(num, Hsl(ShiftedHue(hsl.h, 60), hsl.s, hsl.l)),
            HslToHex(num, Hsl(ShiftedHue(hsl.h, 180), hsl.s, hsl.l)))
  }

  /** A hue `hexToHsl` can return (0 to 360) turned by less than a full circle is a proper angle `shift` degrees round. */
  lemma ShiftedHueRange(h: int, shift: int)
    requires 0 <= h <= 360 && 0 < shift < 360
    ensures 0 <= ShiftedHue(h, shift) < 360
    ensures (ShiftedHue(h, shift) - h) % 360 == shift
  {
  }

  /** The primary colour is the input, and the three other hues are proper angles, pairwise different. */
  lemma PaletteHues(num: Numerics, base: string)
    requires 0 <= num.toHsl(base).h <= 360
    ensures HarmoniousPalette(num, base).primary == base
    ensures var h := num.toHsl(base).h;
            var a, b, c := ShiftedHue(h, 30), ShiftedHue(h, 60), ShiftedHue(h, 180);
            && 0 <= a < 360 && 0 <= b < 360 && 0 <= c < 360
            && a != b && b != c && a != c
  {
    var h := num.toHsl(base).h;
    ShiftedHueRange(h, 30);
    ShiftedHueRange(h, 60);
    ShiftedHueRange(h, 180);
  }
}
