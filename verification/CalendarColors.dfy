// The tinted calendar cards of apps/frontend/lib/team-calendar-colors.ts: parsing a hex colour, mixing it with
// the page background, and choosing a text colour from the relative luminance that section 6 (Glossary) of
// WCAG 2.1 defines.
//
// Colours are real numbers. `x ** 2.4` is any function `pow` that satisfies its defining property on [0, 1]:
// pow(x) is the non-negative number whose fifth power is the twelfth power of x.
module CalendarColors {
  import opened Wrappers
  import opened JsText

  datatype Rgb = Rgb(r: real, g: real, b: real)

  const LIGHT_BASE := Rgb(255.0, 255.0, 255.0)
  const DARK_BASE := Rgb(15.0, 23.0, 42.0)
  const TEXT_ON_LIGHT_BG := "#0f172a"
  const TEXT_ON_DARK_BG := "#f8fafc"
  const DARK_BG_LUMINANCE_CAP := 0.32

  // ---------------------------------------------------------------------------------------------------
  // Hex colours
  // ---------------------------------------------------------------------------------------------------

  predicate IsHexDigit(c: char) {
    '0' <= c <= '9' || 'a' <= c <= 'f' || 'A' <= c <= 'F'
  }

  function Upper(c: char): char {
    if 'a' <= c <= 'z' then c - 'a' + 'A' else c
  }

  function DigitValue(c: char): (v: nat)
    requires IsHexDigit(c)
    ensures v < 16
  {
    if c <= '9' then c as int - '0' as int
    else if c <= 'F' then c as int - 'A' as int + 10
    else c as int - 'a' as int + 10
  }

  function Uppercase(s: string): (upper: string)
    ensures |upper| == |s| && forall i :: 0 <= i < |s| ==> upper[i] == Upper(s[i])
  {
    seq(|s|, i requires 0 <= i < |s| => Upper(s[i]))
  }

  function Digits(trimmed: string): string {
    if trimmed != "" && trimmed[0] == '#' then trimmed[1..] else trimmed
  }

  predicate AllHex(s: string) {
    forall c <- s :: IsHexDigit(c)
  }

  /** Three digits are doubled; the result has a hash and six upper-case digits. */
  function NormalizeCalendarColorHex(input: Option<string>): Option<string> {
    if input.None? then None
    else
      var digits := Digits(Trim(input.value));
      if !AllHex(digits) then None
      else if |digits| == 3 then
        Some("#" + Uppercase([digits[0], digits[0], digits[1], digits[1], digits[2], digits[2]]))
      else if |digits| == 6 then Some("#" + Uppercase(digits))
      else None
  }

  predicate IsNormalHex(s: string) {
    |s| == 7 && s[0] == '#' && forall i :: 1 <= i < 7 ==> IsHexDigit(s[i]) && Upper(s[i]) == s[i]
  }

  function Byte(high: char, low: char): real
    requires IsHexDigit(high) && IsHexDigit(low)
  {
    (16 * DigitValue(high) + DigitValue(low)) as real
  }

  lemma NormalizedIsNormal(input: Option<string>)
    ensures var hex := NormalizeCalendarColorHex(input);
            hex.Some? ==> IsNormalHex(hex.value) && NormalizeCalendarColorHex(hex) == hex
  {
    var hex := NormalizeCalendarColorHex(input);
    if hex.Some? {
      var s := hex.value;
      forall c: char | IsHexDigit(c) ensures IsHexDigit(Upper(c)) && Upper(Upper(c)) == Upper(c) && !IsSpace(Upper(c)) {
      }
      forall i | 1 <= i < 7 ensures IsHexDigit(s[i]) && Upper(s[i]) == s[i] {
        var digits := Digits(Trim(input.value));
        assert digits[0] in digits && digits[1] in digits && digits[2] in digits;
        if |digits| == 6 {
          assert digits[i - 1] in digits;
        }
      }
      TrimOfTrimmed(s);
      assert Digits(Trim(s)) == s[1..];
      assert Uppercase(s[1..]) == s[1..];
      assert "#" + s[1..] == s;
    }
  }

  function ParseHexRgb(hex: string): Option<Rgb> {
    NormalizedIsNormal(Some(hex));
    match NormalizeCalendarColorHex(Some(hex))
    case None => None
    case Some(s) => Some(Rgb(Byte(s[1], s[2]), Byte(s[3], s[4]), Byte(s[5], s[6])))
  }

  const HEX_DIGITS := "0123456789ABCDEF"

  /** The digits of a colour, in either case and with or without a hash, are those of the given values. */
  predicate Spells(hex: string, values: seq<nat>) {
    && |Digits(Trim(hex))| == |values|
    && forall i :: 0 <= i < |values| ==> values[i] < 16 && Upper(Digits(Trim(hex))[i]) == HEX_DIGITS[values[i]]
  }

  lemma SpelledDigit(c: char, value: nat)
    requires value < 16 && Upper(c) == HEX_DIGITS[value]
    ensures IsHexDigit(c) && IsHexDigit(Upper(c)) && DigitValue(Upper(c)) == value
  {
  }

  /** Six digits are three bytes; three digits stand for bytes of two equal digits each, that is, multiples of 17. */
  lemma SpelledColor(hex: string, values: seq<nat>)
    requires Spells(hex, values)
    ensures |values| == 3 ==>
              ParseHexRgb(hex) == Some(Rgb((17 * values[0]) as real, (17 * values[1]) as real,
                                           (17 * values[2]) as real))
    ensures |values| == 6 ==>
              ParseHexRgb(hex) == Some(Rgb((16 * values[0] + values[1]) as real, (16 * values[2] + values[3]) as real,
                                           (16 * values[4] + values[5]) as real))
    ensures |values| != 3 && |values| != 6 ==> ParseHexRgb(hex).None?
  {
    var digits := Digits(Trim(hex));
    hide Trim, Digits, IsHexDigit, Upper, DigitValue;
    forall i | 0 <= i < |digits|
      ensures IsHexDigit(digits[i]) && IsHexDigit(Upper(digits[i])) && DigitValue(Upper(digits[i])) == values[i]
    {
      SpelledDigit(digits[i], values[i]);
    }
    assert AllHex(digits);
  }

  predicate InGamut(c: Rgb) {
    0.0 <= c.r <= 255.0 && 0.0 <= c.g <= 255.0 && 0.0 <= c.b <= 255.0
  }

  // ---------------------------------------------------------------------------------------------------
  // Mixing and luminance
  // ---------------------------------------------------------------------------------------------------

  function Weighted(fg: real, bg: real, w: real): real {
    fg * w + bg * (1.0 - w)
  }

  function MixRgb(fg: Rgb, bg: Rgb, fgWeight: real): Rgb {
    var w := if fgWeight < 0.0 then 0.0 else if fgWeight > 1.0 then 1.0 else fgWeight;
    Rgb(Weighted(fg.r, bg.r, w), Weighted(fg.g, bg.g, w), Weighted(fg.b, bg.b, w))
  }

  function Pow(x: real, n: nat): real {
    if n == 0 then 1.0 else x * Pow(x, n - 1)
  }

  /** y is x to the power 2.4. */
  predicate IsPower24(x: real, y: real) {
    y >= 0.0 && Pow(y, 5) == Pow(x, 12)
  }

  ghost predicate ValidPow(pow: real -> real) {
    forall x :: 0.0 <= x <= 1.0 ==> IsPower24(x, pow(x))
  }

  function Channel(c: real, pow: real -> real): real {
    var s := c / 255.0;
    if s <= 0.03928 then s / 12.92 else pow((s + 0.055) / 1.055)
  }

  function RelativeLuminance(c: Rgb, pow: real -> real): real {
    0.2126 * Channel(c.r, pow) + 0.7152 * Channel(c.g, pow) + 0.0722 * Channel(c.b, pow)
  }

  // ---------------------------------------------------------------------------------------------------
  // Backgrounds
  // ---------------------------------------------------------------------------------------------------

  /** The clamping loop from the `guard`-th iteration on. */
  function Clamped(bg: Rgb, pow: real -> real, guard: nat): Rgb
    requires guard <= 8
    decreases 8 - guard
  {
    if RelativeLuminance(bg, pow) > DARK_BG_LUMINANCE_CAP && guard < 8 then
      Clamped(MixRgb(bg, DARK_BASE, 0.45), pow, guard + 1)
    else bg
  }

  function BackgroundRgb(hex: string, isDark: bool, pow: real -> real): Rgb {
    match ParseHexRgb(hex)
    case None => if isDark then Rgb(30.0, 41.0, 59.0) else Rgb(248.0, 250.0, 252.0)
    case Some(team) =>
      if isDark then
        var teamLum := RelativeLuminance(team, pow);
        var weight := if teamLum > 0.55 then 0.28 else if teamLum > 0.35 then 0.38 else 0.48;
        Clamped(MixRgb(team, DARK_BASE, weight), pow, 0)
      else
        MixRgb(team, LIGHT_BASE, 0.24)
  }

  function Foreground(hex: string, isDark: bool, pow: real -> real): string {
    if RelativeLuminance(BackgroundRgb(hex, isDark, pow), pow) > 0.5 then TEXT_ON_LIGHT_BG else TEXT_ON_DARK_BG
  }

  // ---------------------------------------------------------------------------------------------------
  // Bounds on the power
  // ---------------------------------------------------------------------------------------------------

  lemma ProductOrder(a: real, b: real, c: real, d: real)
    requires 0.0 <= a <= b && 0.0 <= c <= d
    ensures 0.0 <= a * c <= b * d
    ensures a < b && 0.0 < d ==> a * c < b * d
  {
    assert a * c <= a * d <= b * d;
  }

  lemma {:induction false} PowIsMonotone(a: real, b: real, n: nat)
    requires 0.0 <= a <= b
    ensures 0.0 <= Pow(a, n) <= Pow(b, n)
    ensures 0.0 < b ==> 0.0 < Pow(b, n)
    ensures a < b && n > 0 ==> Pow(a, n) < Pow(b, n)
  {
    if n > 0 {
      PowIsMonotone(a, b, n - 1);
      ProductOrder(a, b, Pow(a, n - 1), Pow(b, n - 1));
      ProductOrder(0.0, b, 0.0, Pow(b, n - 1));
    }
  }

  /** 0.6 ** 2.4 is below the dark cap. */
  lemma PowerBelowCap(x: real, y: real)
    requires 0.0 <= x <= 0.6 && IsPower24(x, y)
    ensures y <= DARK_BG_LUMINANCE_CAP
  {
    PowIsMonotone(x, 0.6, 12);
    Constants();
    if y > 0.32 {
      PowIsMonotone(0.32, y, 5);
    }
  }

  /** 0.77 ** 2.4 is above one half. */
  lemma PowerAboveHalf(x: real, y: real)
    requires 0.77 <= x && IsPower24(x, y)
    ensures y > 0.5
  {
    PowIsMonotone(0.77, x, 12);
    Constants();
    if y <= 0.5 {
      PowIsMonotone(y, 0.5, 5);
    }
  }

  lemma Constants()
    ensures Pow(0.6, 12) < 0.003 < Pow(0.32, 5)
    ensures Pow(0.77, 12) > 0.04 > Pow(0.5, 5)
  {
    assert Pow(0.6, 2) == 0.36;
    assert Pow(0.6, 4) == 0.1296;
    assert Pow(0.6, 6) == 0.046656;
    assert Pow(0.6, 8) == 0.01679616;
    assert Pow(0.6, 10) == 0.0060466176;
    assert Pow(0.32, 2) == 0.1024;
    assert Pow(0.32, 4) == 0.01048576;
    assert Pow(0.77, 2) == 0.5929;
    assert Pow(0.77, 4) == 0.35153041;
    assert Pow(0.77, 6) == 0.208422380089;
    assert Pow(0.77, 8) == 0.1235736291547681;
    assert Pow(0.77, 10) == 0.07326680472586200649;
    assert Pow(0.5, 2) == 0.25;
    assert Pow(0.5, 4) == 0.0625;
  }

  // ---------------------------------------------------------------------------------------------------
  // Luminance of the backgrounds
  // ---------------------------------------------------------------------------------------------------

  lemma DarkChannel(c: real, pow: real -> real)
    requires ValidPow(pow) && 0.0 <= c <= 147.0
    ensures 0.0 <= Channel(c, pow) <= DARK_BG_LUMINANCE_CAP
  {
    var x := (c / 255.0 + 0.055) / 1.055;
    assert IsPower24(x, pow(x));
    PowerBelowCap(x, pow(x));
  }

  lemma LightChannel(c: real, pow: real -> real)
    requires ValidPow(pow) && 193.8 <= c <= 255.0
    ensures Channel(c, pow) > 0.5
  {
    var x := (c / 255.0 + 0.055) / 1.055;
    assert IsPower24(x, pow(x));
    PowerAboveHalf(x, pow(x));
  }

  predicate IsDark(c: Rgb) {
    0.0 <= c.r <= 147.0 && 0.0 <= c.g <= 147.0 && 0.0 <= c.b <= 147.0
  }

  lemma DarkLuminance(c: Rgb, pow: real -> real)
    requires ValidPow(pow) && IsDark(c)
    ensures RelativeLuminance(c, pow) <= DARK_BG_LUMINANCE_CAP
  {
    DarkChannel(c.r, pow);
    DarkChannel(c.g, pow);
    DarkChannel(c.b, pow);
  }

  lemma LightLuminance(c: Rgb, pow: real -> real)
    requires ValidPow(pow) && InGamut(c) && c.r >= 193.8 && c.g >= 193.8 && c.b >= 193.8
    ensures RelativeLuminance(c, pow) > 0.5
  {
    LightChannel(c.r, pow);
    LightChannel(c.g, pow);
    LightChannel(c.b, pow);
  }

  lemma DarkMix(c: Rgb, weight: real)
    requires InGamut(c) && weight in {0.28, 0.38, 0.45, 0.48}
    ensures IsDark(MixRgb(c, DARK_BASE, weight))
  {
  }

  lemma OneRoundSuffices(bg: Rgb, pow: real -> real)
    requires ValidPow(pow) && InGamut(bg)
    ensures RelativeLuminance(MixRgb(bg, DARK_BASE, 0.45), pow) <= DARK_BG_LUMINANCE_CAP
  {
    DarkMix(bg, 0.45);
    DarkLuminance(MixRgb(bg, DARK_BASE, 0.45), pow);
  }

  /** For any colour the clamp stops because the luminance is low enough, after at most one round: its guard is
      never the reason. */
  lemma ClampStopsByLuminance(bg: Rgb, pow: real -> real)
    requires ValidPow(pow) && InGamut(bg)
    ensures RelativeLuminance(Clamped(bg, pow, 0), pow) <= DARK_BG_LUMINANCE_CAP
    ensures Clamped(bg, pow, 0) == bg || Clamped(bg, pow, 0) == MixRgb(bg, DARK_BASE, 0.45)
  {
    OneRoundSuffices(bg, pow);
  }

  /** The loop, with the number of rounds it made. */
  method ClampDarkBackground(bg: Rgb, pow: real -> real) returns (current: Rgb, guard: nat)
    requires ValidPow(pow) && InGamut(bg)
    ensures current == Clamped(bg, pow, 0)
    ensures RelativeLuminance(current, pow) <= DARK_BG_LUMINANCE_CAP && guard <= 1
  {
    hide RelativeLuminance, MixRgb, ValidPow, InGamut;
    OneRoundSuffices(bg, pow);
    current := bg;
    var lum := RelativeLuminance(current, pow);
    guard := 0;
    while lum > DARK_BG_LUMINANCE_CAP && guard < 8
      invariant lum == RelativeLuminance(current, pow)
      invariant guard == 0 ==> current == bg
      invariant guard <= 1 && (guard == 1 ==> current == MixRgb(bg, DARK_BASE, 0.45) && lum <= DARK_BG_LUMINANCE_CAP)
      invariant Clamped(current, pow, guard) == Clamped(bg, pow, 0)
      decreases 8 - guard
    {
      current := MixRgb(current, DARK_BASE, 0.45);
      lum := RelativeLuminance(current, pow);
      guard := guard + 1;
    }
  }

  /** In dark mode, for every text given as a colour, the background is within the cap and the text is the
      light one. A valid hex colour is already dark enough once mixed: the clamp returns it unchanged. */
  lemma DarkModeIsReadable(hex: string, pow: real -> real)
    requires ValidPow(pow)
    ensures RelativeLuminance(BackgroundRgb(hex, true, pow), pow) <= DARK_BG_LUMINANCE_CAP
    ensures Foreground(hex, true, pow) == TEXT_ON_DARK_BG
    ensures ParseHexRgb(hex).Some? ==>
              exists weight <- {0.28, 0.38, 0.48} ::
                BackgroundRgb(hex, true, pow) == MixRgb(ParseHexRgb(hex).value, DARK_BASE, weight)
  {
    match ParseHexRgb(hex)
    case None => DarkLuminance(Rgb(30.0, 41.0, 59.0), pow);
    case Some(team) =>
      var teamLum := RelativeLuminance(team, pow);
      var weight := if teamLum > 0.55 then 0.28 else if teamLum > 0.35 then 0.38 else 0.48;
      assert weight in {0.28, 0.38, 0.48};
      DarkMix(team, weight);
      DarkLuminance(MixRgb(team, DARK_BASE, weight), pow);
  }

  /** In light mode the background is always lighter than one half, and the text is the dark one. A valid hex colour is
      taken 24 % of the way from white to itself. */
  lemma LightModeIsReadable(hex: string, pow: real -> real)
    requires ValidPow(pow)
    ensures ParseHexRgb(hex).Some? ==>
              var (background, team) := (BackgroundRgb(hex, false, pow), ParseHexRgb(hex).value);
              && 255.0 - background.r == 0.24 * (255.0 - team.r)
              && 255.0 - background.g == 0.24 * (255.0 - team.g)
              && 255.0 - background.b == 0.24 * (255.0 - team.b)
    ensures RelativeLuminance(BackgroundRgb(hex, false, pow), pow) > 0.5
    ensures Foreground(hex, false, pow) == TEXT_ON_LIGHT_BG
  {
    LightLuminance(BackgroundRgb(hex, false, pow), pow);
  }
}
