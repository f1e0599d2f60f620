// The contrast ratio of section 6 (Glossary) of WCAG 2.1 between the text and the background of calendar cards: at
// least 4.5 (level AA) in dark mode and at least 7 (level AAA) in light mode, for every text given as a colour.
module CalendarContrast {
  import opened Wrappers
  import opened JsText
  import opened CalendarColors

  function ContrastRatio(a: real, b: real): real
    requires a >= 0.0 && b >= 0.0
  {
    if a >= b then (a + 0.05) / (b + 0.05) else (b + 0.05) / (a + 0.05)
  }

  // ---------------------------------------------------------------------------------------------------
  // Powers
  // ---------------------------------------------------------------------------------------------------

  function Squared(x: real): real {
    x * x
  }

  lemma {:induction false} PowSum(x: real, m: nat, n: nat)
    ensures Pow(x, m + n) == Pow(x, m) * Pow(x, n)
  {
    if m > 0 {
      PowSum(x, m - 1, n);
      assert x * (Pow(x, m - 1) * Pow(x, n)) == (x * Pow(x, m - 1)) * Pow(x, n);
    }
  }

  lemma PowersBySquaring(x: real)
    ensures Pow(x, 12) == Squared(Squared(Squared(x))) * Squared(Squared(x))
    ensures Pow(x, 5) == Squared(Squared(x)) * x
  {
    assert Pow(x, 1) == x;
    PowSum(x, 1, 1);
    PowSum(x, 2, 2);
    PowSum(x, 4, 4);
    PowSum(x, 8, 4);
    PowSum(x, 4, 1);
  }

  lemma {:induction false} PowOfProduct(a: real, b: real, n: nat)
    ensures Pow(a * b, n) == Pow(a, n) * Pow(b, n)
  {
    if n > 0 {
      PowOfProduct(a, b, n - 1);
      var p, q := Pow(a, n - 1), Pow(b, n - 1);
      assert (a * b) * (p * q) == (a * p) * (b * q);
    }
  }

  lemma PowerAtMost(x: real, y: real, x0: real, y0: real)
    requires 0.0 <= x <= x0 && IsPower24(x, y) && 0.0 <= y0 && Pow(x0, 12) <= Pow(y0, 5)
    ensures y <= y0
  {
    PowIsMonotone(x, x0, 12);
    if y > y0 {
      PowIsMonotone(y0, y, 5);
    }
  }

  lemma PowerAtLeast(x: real, y: real, x0: real, y0: real)
    requires 0.0 <= x0 <= x && IsPower24(x, y) && 0.0 <= y0 && Pow(x0, 12) >= Pow(y0, 5)
    ensures y >= y0
  {
    PowIsMonotone(x0, x, 12);
    if y < y0 {
      PowIsMonotone(y, y0, 5);
    }
  }

  lemma ScaledPower(x: real, y: real, k: real, shrink: real)
    requires 0.0 <= x && 0.0 <= k && IsPower24(x, y) && Pow(k, 12) <= Pow(shrink, 5)
    ensures Pow(k * x, 12) <= Pow(shrink * y, 5)
  {
    PowIsMonotone(0.0, k, 12);
    PowIsMonotone(0.0, x, 12);
    PowOfProduct(k, x, 12);
    PowOfProduct(shrink, y, 5);
    hide Pow;
    ProductOrder(Pow(k, 12), Pow(shrink, 5), Pow(x, 12), Pow(y, 5));
  }

  /** Scaling the base down scales the power down. */
  lemma PowerShrinks(x: real, y: real, x': real, y': real, k: real, shrink: real)
    requires 0.0 <= x && 0.0 <= k && 0.0 <= shrink && 0.0 <= x' <= k * x
    requires IsPower24(x, y) && IsPower24(x', y') && Pow(k, 12) <= Pow(shrink, 5)
    ensures y' <= shrink * y
  {
    ScaledPower(x, y, k, shrink);
    ProductOrder(0.0, shrink, 0.0, y);
    var x0, y0 := k * x, shrink * y;
    hide Pow, IsPower24;
    PowerAtMost(x', y', x0, y0);
  }

  // ---------------------------------------------------------------------------------------------------
  // Channels
  // ---------------------------------------------------------------------------------------------------

  /** The base of the power for a channel value. */
  function BaseOf(c: real): real {
    (c / 255.0 + 0.055) / 1.055
  }

  lemma ChannelAtMost(c: real, pow: real -> real, x0: real, y0: real)
    requires ValidPow(pow) && 0.0 <= c <= 255.0 && BaseOf(c) <= x0 && 0.00305 <= y0 && Pow(x0, 12) <= Pow(y0, 5)
    ensures 0.0 <= Channel(c, pow) <= y0
  {
    if c / 255.0 > 0.03928 {
      assert IsPower24(BaseOf(c), pow(BaseOf(c)));
      PowerAtMost(BaseOf(c), pow(BaseOf(c)), x0, y0);
    }
  }

  lemma ChannelAtMostOne(c: real, pow: real -> real)
    requires ValidPow(pow) && 0.0 <= c <= 255.0
    ensures 0.0 <= Channel(c, pow) <= 1.0
  {
    PowersBySquaring(1.0);
    ChannelAtMost(c, pow, 1.0, 1.0);
  }

  /** A channel mixed at 0.48 with one of at most 23 is either dark itself or much darker than it was. */
  lemma HeavyChannel(c: real, base: real, pow: real -> real)
    requires ValidPow(pow) && 0.0 <= c <= 255.0 && 0.0 <= base <= 23.0
    ensures var mixed := Channel(Weighted(c, base, 0.48), pow);
            0.0 <= mixed && (mixed <= 0.36 * Channel(c, pow) || mixed <= 0.047)
  {
    var m := Weighted(c, base, 0.48);
    if c < 100.0 {
      PowersBySquaring(0.276);
      PowersBySquaring(0.047);
      ChannelAtMost(m, pow, 0.276, 0.047);
    } else {
      assert IsPower24(BaseOf(c), pow(BaseOf(c))) && IsPower24(BaseOf(m), pow(BaseOf(m)));
      PowersBySquaring(0.65);
      PowersBySquaring(0.36);
      assert BaseOf(m) <= 0.65 * BaseOf(c);
      hide Pow, IsPower24, ValidPow;
      PowerShrinks(BaseOf(c), pow(BaseOf(c)), BaseOf(m), pow(BaseOf(m)), 0.65, 0.36);
    }
  }

  /** Red and green up to 111.2 and blue up to 123. */
  lemma DimChannels(c: Rgb, pow: real -> real)
    requires ValidPow(pow) && 0.0 <= c.r <= 111.2 && 0.0 <= c.g <= 111.2 && 0.0 <= c.b <= 123.0
    ensures 0.0 <= RelativeLuminance(c, pow) <= 0.165
  {
    PowersBySquaring(0.466);
    PowersBySquaring(0.161);
    PowersBySquaring(0.51);
    PowersBySquaring(0.2);
    ChannelAtMost(c.r, pow, 0.466, 0.161);
    ChannelAtMost(c.g, pow, 0.466, 0.161);
    ChannelAtMost(c.b, pow, 0.51, 0.2);
  }

  /** What the heavier mix keeps of a colour whose luminance is at most 0.35. */
  lemma HeavyMix(c: Rgb, pow: real -> real)
    requires ValidPow(pow) && InGamut(c) && RelativeLuminance(c, pow) <= 0.35
    ensures 0.0 <= RelativeLuminance(MixRgb(c, DARK_BASE, 0.48), pow) <= 0.165
  {
    var mixed := MixRgb(c, DARK_BASE, 0.48);
    HeavyChannel(c.r, DARK_BASE.r, pow);
    HeavyChannel(c.g, DARK_BASE.g, pow);
    DarkMix(c, 0.48);
    DarkChannel(mixed.b, pow);
    ChannelAtMostOne(c.r, pow);
    ChannelAtMostOne(c.g, pow);
    ChannelAtMostOne(c.b, pow);
    hide Channel, ValidPow;
  }

  // ---------------------------------------------------------------------------------------------------
  // Texts
  // ---------------------------------------------------------------------------------------------------

  lemma LightText()
    ensures ParseHexRgb(TEXT_ON_DARK_BG) == Some(Rgb(248.0, 250.0, 252.0))
  {
    TrimOfTrimmed(TEXT_ON_DARK_BG);
    assert Digits(TEXT_ON_DARK_BG) == "f8fafc" && Uppercase("f8fafc") == "F8FAFC" && AllHex("f8fafc");
    hide Trim, Digits, Uppercase, AllHex;
    assert |"f8fafc"| == 6 && "#" + "F8FAFC" == "#F8FAFC";
    assert NormalizeCalendarColorHex(Some(TEXT_ON_DARK_BG)) == Some("#F8FAFC");
    hide NormalizeCalendarColorHex;
  }

  lemma DarkText()
    ensures ParseHexRgb(TEXT_ON_LIGHT_BG) == Some(Rgb(15.0, 23.0, 42.0))
  {
    TrimOfTrimmed(TEXT_ON_LIGHT_BG);
    assert Digits(TEXT_ON_LIGHT_BG) == "0f172a" && Uppercase("0f172a") == "0F172A" && AllHex("0f172a");
    hide Trim, Digits, Uppercase, AllHex;
    assert |"0f172a"| == 6 && "#" + "0F172A" == "#0F172A";
    assert NormalizeCalendarColorHex(Some(TEXT_ON_LIGHT_BG)) == Some("#0F172A");
    hide NormalizeCalendarColorHex;
  }

  lemma LightTextLuminance(pow: real -> real)
    requires ValidPow(pow)
    ensures RelativeLuminance(Rgb(248.0, 250.0, 252.0), pow) >= 0.93
  {
    PowersBySquaring(0.973);
    PowersBySquaring(0.93);
    assert forall c | c in [248.0, 250.0, 252.0] :: IsPower24(BaseOf(c), pow(BaseOf(c))) && BaseOf(c) >= 0.973;
    PowerAtLeast(BaseOf(248.0), pow(BaseOf(248.0)), 0.973, 0.93);
    PowerAtLeast(BaseOf(250.0), pow(BaseOf(250.0)), 0.973, 0.93);
    PowerAtLeast(BaseOf(252.0), pow(BaseOf(252.0)), 0.973, 0.93);
  }

  lemma DarkTextLuminance(pow: real -> real)
    requires ValidPow(pow)
    ensures 0.0 <= RelativeLuminance(Rgb(15.0, 23.0, 42.0), pow) <= 0.025
  {
    PowersBySquaring(0.209);
    PowersBySquaring(0.025);
    ChannelAtMost(15.0, pow, 0.209, 0.025);
    ChannelAtMost(23.0, pow, 0.209, 0.025);
    ChannelAtMost(42.0, pow, 0.209, 0.025);
  }

  // ---------------------------------------------------------------------------------------------------
  // Contrast
  // ---------------------------------------------------------------------------------------------------

  lemma ContrastAtLeast(light: real, dark: real, ratio: real)
    requires 0.0 <= dark <= light && light + 0.05 >= ratio * (dark + 0.05)
    ensures ContrastRatio(light, dark) >= ratio && ContrastRatio(dark, light) >= ratio
  {
    var contrast := (light + 0.05) / (dark + 0.05);
    assert contrast * (dark + 0.05) == light + 0.05;
  }

  /** In dark mode the weight chosen from the colour's own luminance keeps every background at 0.165 or below, about
      half of what the clamp would allow. */
  lemma DarkBackgroundIsDim(hex: string, pow: real -> real)
    requires ValidPow(pow)
    ensures 0.0 <= RelativeLuminance(BackgroundRgb(hex, true, pow), pow) <= 0.165
  {
    match ParseHexRgb(hex)
    case None => DimChannels(Rgb(30.0, 41.0, 59.0), pow);
    case Some(team) =>
      assert InGamut(team);
      var teamLum := RelativeLuminance(team, pow);
      if teamLum > 0.55 {
        DimChannels(MixRgb(team, DARK_BASE, 0.28), pow);
      } else if teamLum > 0.35 {
        DimChannels(MixRgb(team, DARK_BASE, 0.38), pow);
      } else {
        HeavyMix(team, pow);
      }
  }

  /** In dark mode, for every text given as a colour, text and background have a contrast of at least 4.5. */
  lemma DarkModeContrast(hex: string, pow: real -> real)
    requires ValidPow(pow)
    ensures var text := ParseHexRgb(Foreground(hex, true, pow));
            var background := RelativeLuminance(BackgroundRgb(hex, true, pow), pow);
            && text.Some? && background >= 0.0 && RelativeLuminance(text.value, pow) >= 0.0
            && ContrastRatio(background, RelativeLuminance(text.value, pow)) >= 4.5
  {
    hide RelativeLuminance, BackgroundRgb, Foreground, ParseHexRgb, ValidPow, ContrastRatio;
    LightText();
    DarkModeIsReadable(hex, pow);
    DarkBackgroundIsDim(hex, pow);
    LightTextLuminance(pow);
    ContrastAtLeast(RelativeLuminance(Rgb(248.0, 250.0, 252.0), pow),
                    RelativeLuminance(BackgroundRgb(hex, true, pow), pow), 4.5);
  }

  /** In light mode, for every text given as a colour, text and background have a contrast of at least 7. */
  lemma LightModeContrast(hex: string, pow: real -> real)
    requires ValidPow(pow)
    ensures var text := ParseHexRgb(Foreground(hex, false, pow));
            var background := RelativeLuminance(BackgroundRgb(hex, false, pow), pow);
            && text.Some? && background >= 0.0 && RelativeLuminance(text.value, pow) >= 0.0
            && ContrastRatio(background, RelativeLuminance(text.value, pow)) >= 7.0
  {
    hide RelativeLuminance, BackgroundRgb, Foreground, ParseHexRgb, ValidPow, ContrastRatio;
    DarkText();
    LightModeIsReadable(hex, pow);
    DarkTextLuminance(pow);
    ContrastAtLeast(RelativeLuminance(BackgroundRgb(hex, false, pow), pow),
                    RelativeLuminance(Rgb(15.0, 23.0, 42.0), pow), 7.0);
  }
}
