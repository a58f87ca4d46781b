/**
  The hardware encoder: pure functions that turn a light state into the
  values the indicator LED and the LCD backlight understand, i.e. the luma
  reduction, the breathing-light timing quantiser with its battery
  variant, and the backlight rescale.
 */
module Encoder {
  import opened LightTypes

  // ---------------------------------------------------------------------
  // Colour channels
  // ---------------------------------------------------------------------

  function Alpha(color: uint32): nat { color / 0x100_0000 }
  function Red(color: uint32): nat { (color / 0x1_0000) % 0x100 }
  function Green(color: uint32): nat { (color / 0x100) % 0x100 }
  function Blue(color: uint32): nat { color % 0x100 }

  /** The low 24 bits of a colour, `color & 0x00ffffff`. */
  function Rgb(color: uint32): nat { color % 0x100_0000 }

  lemma MulAtLeast(k: int, d: int)
    requires k >= 1 && d > 0
    ensures k * d >= d
  {
  }

  /** Euclidean division is determined by quotient and remainder. */
  lemma DivModUnique(x: int, d: int, q: int, r: int)
    requires d > 0 && x == q * d + r && 0 <= r < d
    ensures x / d == q && x % d == r
  {
    var q', r' := x / d, x % d;
    assert x == q' * d + r';
    assert (q - q') * d == r' - r;
    if q > q' {
      MulAtLeast(q - q', d);
    } else if q < q' {
      MulAtLeast(q' - q, d);
    }
  }

  /** Packs three 8-bit channels, `(r << 16) + (g << 8) + b`. */
  function Pack(r: nat, g: nat, b: nat): (color: uint32)
    requires r < 0x100 && g < 0x100 && b < 0x100
    ensures Alpha(color) == 0
    ensures Red(color) == r && Green(color) == g && Blue(color) == b
  {
    var color := r * 0x1_0000 + g * 0x100 + b;
    DivModUnique(color, 0x100, r * 0x100 + g, b);
    DivModUnique(color, 0x1_0000, r, g * 0x100 + b);
    DivModUnique(color, 0x100_0000, 0, color);
    DivModUnique(r * 0x100 + g, 0x100, r, g);
    DivModUnique(r, 0x100, 0, r);
    color
  }

  /** A colour is its alpha byte above its three channels. */
  lemma ChannelDecomposition(color: uint32)
    ensures Rgb(color) == Red(color) * 0x1_0000 + Green(color) * 0x100 + Blue(color)
    ensures color == Alpha(color) * 0x100_0000 + Rgb(color)
    ensures Alpha(color) < 0x100
    ensures Rgb(color) / 0x1_0000 == Red(color)
    ensures (Rgb(color) / 0x100) % 0x100 == Green(color)
    ensures Rgb(color) % 0x100 == Blue(color)
  {
    var a, c := color / 0x100_0000, color % 0x100_0000;
    var p, g0 := color / 0x100, (color / 0x100) % 0x100;
    var q := color / 0x1_0000;
    // color = p * 256 + b, p = q * 256 + green, q = a * 256 + red
    DivModUnique(color, 0x1_0000, p / 0x100, (p % 0x100) * 0x100 + color % 0x100);
    DivModUnique(color, 0x100_0000, q / 0x100, (q % 0x100) * 0x1_0000 + (p % 0x100) * 0x100 + color % 0x100);
    var rgb := Red(color) * 0x1_0000 + Green(color) * 0x100 + Blue(color);
    assert Rgb(color) == rgb;
    DivModUnique(rgb, 0x1_0000, Red(color), Green(color) * 0x100 + Blue(color));
    DivModUnique(rgb, 0x100, Red(color) * 0x100 + Green(color), Blue(color));
    DivModUnique(Red(color) * 0x100 + Green(color), 0x100, Red(color), Green(color));
  }

  /** `isLit`: a state is lit when some colour channel is non-zero; alpha is ignored. */
  function IsLit(s: LightState): (lit: bool)
    ensures lit <==> Red(s.color) != 0 || Green(s.color) != 0 || Blue(s.color) != 0
  {
    ChannelDecomposition(s.color);
    Rgb(s.color) != 0
  }

  // ---------------------------------------------------------------------
  // Luma
  // ---------------------------------------------------------------------

  /** The channel-weighted sum the luma reduction divides by 256. */
  function WeightedSum(color: uint32): nat
  {
    77 * Red(color) + 150 * Green(color) + 29 * Blue(color)
  }

  /**
    `rgbToBrightness`: the low 24 bits are split into channels and reduced to
    one scalar. The weights sum to 256, so the result never exceeds 255.
   */
  function Luma(s: LightState): (luma: nat)
    ensures luma <= 255
    ensures luma == WeightedSum(s.color) / 256
    ensures luma > 0 ==> IsLit(s)
  {
    var c := Rgb(s.color);
    ChannelDecomposition(s.color);
    LumaRange(WeightedSum(s.color));
    (77 * ((c / 0x1_0000) % 0x100) + 150 * ((c / 0x100) % 0x100) + 29 * (c % 0x100)) / 256
  }

  lemma LumaRange(w: nat)
    requires w <= 77 * 255 + 150 * 255 + 29 * 255
    ensures w / 256 <= 255
    ensures w / 256 == 0 <==> w < 256
  {
  }

  /** Luma is zero exactly when the weighted sum stays below one unit of 256. */
  lemma LumaZero(s: LightState)
    ensures Luma(s) == 0 <==> WeightedSum(s.color) < 256
  {
  }

  /** Luma reads the low 24 bits only: dropping the alpha byte does not change it. */
  lemma LumaIgnoresAlpha(s: LightState)
    ensures Luma(s.(color := Rgb(s.color))) == Luma(s)
    ensures IsLit(s.(color := Rgb(s.color))) == IsLit(s)
  {
    ChannelDecomposition(s.color);
    var c := Rgb(s.color);
    ChannelDecomposition(c);
    DivModUnique(c, 0x100_0000, 0, c);
  }

  /** Luma reaches full scale only for white. */
  lemma LumaFull(s: LightState)
    ensures Luma(s) == 255 <==> Red(s.color) == 255 && Green(s.color) == 255 && Blue(s.color) == 255
  {
  }

  /** Lit does not imply a non-zero luma: the dimmest blue is lit yet reduces to 0. */
  lemma LitButDark()
    ensures IsLit(LightState(1, None, 0, 0)) && Luma(LightState(1, None, 0, 0)) == 0
  {
    assert Rgb(1) == 1;
  }

  /** Luma of the primaries and of white. */
  lemma LumaPrimaries()
    ensures Luma(LightState(0x00FF_0000, None, 0, 0)) == 76
    ensures Luma(LightState(0x0000_FF00, None, 0, 0)) == 149
    ensures Luma(LightState(0x0000_00FF, None, 0, 0)) == 28
    ensures Luma(LightState(0x00FF_FFFF, None, 0, 0)) == 255
    ensures Luma(LightState(0xFFFF_FFFF, None, 0, 0)) == 255
  {
    assert Red(0x00FF_0000) == 255 && Green(0x00FF_0000) == 0 && Blue(0x00FF_0000) == 0;
    assert Red(0x0000_FF00) == 0 && Green(0x0000_FF00) == 255 && Blue(0x0000_FF00) == 0;
    assert Red(0x0000_00FF) == 0 && Green(0x0000_00FF) == 0 && Blue(0x0000_00FF) == 255;
    assert Red(0x00FF_FFFF) == 255 && Green(0x00FF_FFFF) == 255 && Blue(0x00FF_FFFF) == 255;
    assert Red(0xFFFF_FFFF) == 255 && Green(0xFFFF_FFFF) == 255 && Blue(0xFFFF_FFFF) == 255;
  }

  /** Raising any channel never lowers the luma. */
  lemma LumaMonotone(s: LightState, t: LightState)
    requires Red(s.color) <= Red(t.color) && Green(s.color) <= Green(t.color) && Blue(s.color) <= Blue(t.color)
    ensures Luma(s) <= Luma(t)
  {
  }

  // ---------------------------------------------------------------------
  // Breathing-light timing quantiser
  // ---------------------------------------------------------------------

  /** Bucket boundaries (milliseconds) of the hardware timing codes. */
  const Bounds: seq<int> := [1, 250, 500, 1000, 2000, 5000]

  /** How many of `bounds` lie strictly below `ms`: the index of the bucket holding `ms`. */
  function CountBelow(bounds: seq<int>, ms: int): (n: nat)
    ensures n <= |bounds|
  {
    if |bounds| == 0 then 0
    else (if bounds[0] < ms then 1 else 0) + CountBelow(bounds[1..], ms)
  }

  /** The bucket index of `ms` among `Bounds`, spelled out range by range. */
  lemma {:induction false} BucketIndex(ms: int)
    ensures CountBelow(Bounds, ms) ==
      if ms <= 1 then 0
      else if ms <= 250 then 1
      else if ms <= 500 then 2
      else if ms <= 1000 then 3
      else if ms <= 2000 then 4
      else if ms <= 5000 then 5
      else 6
  {
    var b := Bounds;
    assert b[1..] == [250, 500, 1000, 2000, 5000];
    assert b[1..][1..] == [500, 1000, 2000, 5000];
    assert b[1..][1..][1..] == [1000, 2000, 5000];
    assert b[1..][1..][1..][1..] == [2000, 5000];
    assert b[1..][1..][1..][1..][1..] == [5000];
    assert b[1..][1..][1..][1..][1..][1..] == [];
    assert CountBelow([5000], ms) == (if 5000 < ms then 1 else 0) + CountBelow([], ms);
    assert CountBelow([2000, 5000], ms) == (if 2000 < ms then 1 else 0) + CountBelow([5000], ms);
    assert CountBelow([1000, 2000, 5000], ms) == (if 1000 < ms then 1 else 0) + CountBelow([2000, 5000], ms);
    assert CountBelow([500, 1000, 2000, 5000], ms) == (if 500 < ms then 1 else 0) + CountBelow([1000, 2000, 5000], ms);
    assert CountBelow([250, 500, 1000, 2000, 5000], ms) == (if 250 < ms then 1 else 0) + CountBelow([500, 1000, 2000, 5000], ms);
  }

  /**
    On-duration code (light/Light.cpp:155-182): 1 ms is "always" (-1), then
    one code per bucket of `Bounds`, 5 above 5000 ms.
   */
  function OnCode(onMs: int): (code: int)
    requires onMs > 0
    ensures -1 <= code <= 5
    ensures code == CountBelow(Bounds, onMs) - 1
  {
    BucketIndex(onMs);
    if onMs == 1 then -1
    else if 1 < onMs <= 250 then 0
    else if 250 < onMs <= 500 then 1
    else if 500 < onMs <= 1000 then 2
    else if 1000 < onMs <= 2000 then 3
    else if 2000 < onMs <= 5000 then 4
    else if onMs > 5000 then 5
    else onMs
  }

  /** Lower (exclusive) bound of the durations an on-code stands for. */
  function OnCodeLow(code: int): int
    requires -1 <= code <= 5
  {
    if code == -1 then 0 else Bounds[code]
  }

  /**
    The on-code brackets the requested duration: `OnCode(ms) == k` exactly
    when `ms` lies in bucket `k`, so a written code can be read back as the
    range of durations it came from.
   */
  lemma OnCodeBrackets(onMs: int, code: int)
    requires onMs > 0 && -1 <= code <= 5
    ensures OnCode(onMs) == code <==>
      OnCodeLow(code) < onMs && (code == 5 || onMs <= Bounds[code + 1])
  {
    BucketIndex(onMs);
  }

  /** Longer requested on-durations never get shorter codes. */
  lemma OnCodeMonotone(a: int, b: int)
    requires 0 < a <= b
    ensures OnCode(a) <= OnCode(b)
  {
    BucketIndex(a);
    BucketIndex(b);
  }

  /**
    Off-duration code (light/Light.cpp:186-214) given the already computed
    on-code. Line 208 compares the on-code, not the off-duration, against
    5000; as the on-code is at most 5 that branch is dead, so an off-duration
    of 1 ms or above 5000 ms passes through unchanged.
   */
  function OffCode(onCode: int, offMs: int): (code: int)
    requires -1 <= onCode <= 5 && offMs > 0
    ensures onCode == -1 ==> code == 0
    ensures onCode != -1 && 1 < offMs <= 5000 ==> 1 <= code <= 5 && code == CountBelow(Bounds, offMs)
    ensures onCode != -1 && (offMs == 1 || offMs > 5000) ==> code == offMs
  {
    BucketIndex(offMs);
    if onCode != -1 then
      if 1 < offMs <= 250 then 1
      else if 250 < offMs <= 500 then 2
      else if 500 < offMs <= 1000 then 3
      else if 1000 < offMs <= 2000 then 4
      else if 2000 < offMs <= 5000 then 5
      else if onCode > 5000 then 6
      else offMs
    else 0
  }

  /**
    Where the as-written off-code departs from the bucket table that the
    on-code follows (`(1,250]` -> 1 ... `>5000` -> 6): exactly at 1 ms and
    above 5000 ms.
   */
  lemma OffCodeQuirk(onCode: int, offMs: int)
    requires 0 <= onCode <= 5 && offMs > 0
    ensures OffCode(onCode, offMs) == CountBelow(Bounds, offMs) <==> 1 < offMs <= 5000
  {
    BucketIndex(offMs);
  }

  /** The on/off durations the quantiser starts from: the request's when timed, else none. */
  function FlashTimes(s: LightState): (times: (int, int))
    ensures s.flashMode == Timed ==> times == (s.flashOnMs as int, s.flashOffMs as int)
    ensures s.flashMode != Timed ==> times == (0, 0)
  {
    match s.flashMode
    case Timed => (s.flashOnMs as int, s.flashOffMs as int)
    case _ => (0, 0)
  }

  /** Blinking happens iff the request is timed with positive on and off durations. */
  function Blinks(s: LightState): (blink: bool)
    ensures blink <==> s.flashMode == Timed && s.flashOnMs > 0 && s.flashOffMs > 0
  {
    FlashTimes(s).0 > 0 && FlashTimes(s).1 > 0
  }

  // ---------------------------------------------------------------------
  // Breathing-light register sequences
  // ---------------------------------------------------------------------

  /** The `event_source` of a breathing-light update. */
  datatype BreathSource = FromNotification | FromBattery | FromButtons | FromAttention

  /** The four home-LED writes: channel, grade, fade triple, blink mode. */
  function HomeLed(grade: int, fade: Value, mode: int): (ws: seq<Write>)
    ensures |ws| == 4 && ws[0] == Write(LedChannel, Num(ChannelHome))
    ensures ws[1] == Write(LedGrade, Num(grade)) && ws[2] == Write(LedFade, fade)
    ensures ws[3] == Write(LedBlinkMode, Num(mode))
  {
    [Write(LedChannel, Num(ChannelHome)), Write(LedGrade, Num(grade)),
     Write(LedFade, fade), Write(LedBlinkMode, Num(mode))]
  }

  /** A battery status token that counts as charging. */
  function IsCharging(status: string): (charging: bool)
    ensures charging <==> status in {"Charging", "Full"}
  {
    status == "Charging" || status == "Full"
  }

  /** The battery indication, from the live charging status and capacity. */
  function BatteryLed(hw: Hardware): (ws: seq<Write>)
    ensures !IsCharging(hw.chargingStatus) ==>
      ws == HomeLed(GradeBatteryLow, Fade(3, 0, 4), BlinkModeBreath)
    ensures IsCharging(hw.chargingStatus) && hw.capacity < FullCapacity ==>
      ws == HomeLed(GradeBattery, Fade(3, 0, 4), BlinkModeBreath)
    ensures IsCharging(hw.chargingStatus) && hw.capacity >= FullCapacity ==>
      ws == HomeLed(GradeBattery, Fade(3, 0, 4), BlinkModeBreathOnce)
  {
    var charging := IsCharging(hw.chargingStatus);
    var grade := if charging then GradeBattery else GradeBatteryLow;
    var mode := if !charging then BlinkModeBreath
                else if hw.capacity < FullCapacity then BlinkModeBreath
                else BlinkModeBreathOnce;
    HomeLed(grade, Fade(3, 0, 4), mode)
  }

  /**
    `setBreathingLightLocked`: the home-LED writes for the state of the
    source that owns the LED. A blinking request is encoded whatever its
    source and colour; otherwise a dark state turns the LED off, a lit
    button state gives one breath, the battery shows its live status, and a
    steady attention or notification state writes nothing.
   */
  function BreathingLight(src: BreathSource, s: LightState, hw: Hardware): (ws: seq<Write>)
    ensures Blinks(s) ==>
      var on := OnCode(s.flashOnMs as int);
      ws == HomeLed(GradeNotification, Fade(OffCode(on, s.flashOffMs as int), on, on), BlinkModeBreath)
    ensures !Blinks(s) && Luma(s) == 0 ==> ws == HomeLed(0, Fade(0, 0, 0), BlinkModeOff)
    ensures !Blinks(s) && Luma(s) > 0 && src == FromButtons ==>
      ws == HomeLed(GradeButton, Fade(1, 0, 0), BlinkModeBreathOnce)
    ensures !Blinks(s) && Luma(s) > 0 && src == FromBattery ==> ws == BatteryLed(hw)
    ensures !Blinks(s) && Luma(s) > 0 && src in {FromAttention, FromNotification} ==> ws == []
  {
    var (onMs, offMs) := FlashTimes(s);
    if onMs > 0 && offMs > 0 then
      var on := OnCode(onMs);
      var off := OffCode(on, offMs);
      HomeLed(GradeNotification, Fade(off, on, on), BlinkModeBreath)
    else if Luma(s) <= 0 then
      HomeLed(0, Fade(0, 0, 0), BlinkModeOff)
    else if src == FromButtons then
      HomeLed(GradeButton, Fade(1, 0, 0), BlinkModeBreathOnce)
    else if src == FromBattery then
      BatteryLed(hw)
    else
      []
  }

  /**
    Every update of the home LED is the same four-write protocol, channel
    first and blink mode last; nothing at all is written exactly for a
    steady, bright attention or notification state.
   */
  lemma BreathingLightShape(src: BreathSource, s: LightState, hw: Hardware)
    ensures var ws := BreathingLight(src, s, hw);
      && (|ws| == 0 <==> !Blinks(s) && Luma(s) > 0 && (src == FromAttention || src == FromNotification))
      && (|ws| != 0 ==> |ws| == 4 && ws[0] == Write(LedChannel, Num(ChannelHome)) && ws[3].reg == LedBlinkMode)
  {
  }

  /**
    Reading a blink encoding back: the fade triple written for a blinking
    state repeats its on-code, the on-code brackets the requested
    on-duration, "always" forces the off value to 0, and otherwise the off
    value is the bucket of an off-duration in (1, 5000] or the raw duration.
   */
  lemma BlinkFadeReadsBack(src: BreathSource, s: LightState, hw: Hardware)
    requires Blinks(s)
    ensures var ws := BreathingLight(src, s, hw);
      && |ws| == 4 && ws[2].reg == LedFade && ws[2].value.Fade?
      && var f := ws[2].value;
      && f.fullOn == f.fullOff
      && -1 <= f.fullOn <= 5
      && OnCodeLow(f.fullOn) < s.flashOnMs && (f.fullOn == 5 || s.flashOnMs <= Bounds[f.fullOn + 1])
      && (f.fullOn == -1 <==> s.flashOnMs == 1)
      && (f.fullOn == -1 ==> f.fadeTime == 0)
      && (f.fullOn != -1 && 1 < s.flashOffMs <= 5000 ==> f.fadeTime == CountBelow(Bounds, s.flashOffMs as int))
      && (f.fullOn != -1 && !(1 < s.flashOffMs <= 5000) ==> f.fadeTime == s.flashOffMs as int)
  {
    var on := OnCode(s.flashOnMs as int);
    OnCodeBrackets(s.flashOnMs as int, on);
  }

  /** The blink decision ignores the source and the colour; a non-timed state never blinks. */
  lemma BlinkIgnoresSourceAndColour(a: BreathSource, b: BreathSource, s: LightState, color: uint32, hw: Hardware, hw': Hardware)
    requires Blinks(s)
    ensures BreathingLight(a, s, hw) == BreathingLight(b, s.(color := color), hw')
  {
  }

  // ---------------------------------------------------------------------
  // Backlight
  // ---------------------------------------------------------------------

  /**
    `handleBacklight`'s level: a negative maximum falls back to 255; any
    other maximum but 255 rescales the luma. The product is taken in 32-bit
    unsigned arithmetic, so it wraps for maxima above 16843009.
   */
  function BacklightLevel(luma: nat, maxBrightness: int32): (level: int)
    requires luma <= 255
    ensures maxBrightness < 0 || maxBrightness == MaxLcdBrightness ==> level == luma
    ensures 0 <= maxBrightness <= 16843009 ==>
      level * 255 <= luma * maxBrightness < level * 255 + 255
    ensures 0 <= maxBrightness && maxBrightness != MaxLcdBrightness ==>
      level * 255 <= (luma * maxBrightness) % 0x1_0000_0000 < level * 255 + 255
    ensures 0 <= maxBrightness <= MaxLcdBrightness ==> level <= luma
    ensures 0 <= level < 0x1_0000_0000 / 255 + 1
  {
    var max := if maxBrightness < 0 then MaxLcdBrightness else maxBrightness as int;
    if max != MaxLcdBrightness then Rescale(luma, max) else luma
  }

  /** `brightness * max_brightness / MAX_LCD_BRIGHTNESS` in 32-bit unsigned arithmetic. */
  function Rescale(luma: nat, max: nat): (level: nat)
    requires luma <= 255 && max < 0x8000_0000
    ensures level * 255 <= (luma * max) % 0x1_0000_0000 < level * 255 + 255
    ensures max <= 16843009 ==> level * 255 <= luma * max < level * 255 + 255
    ensures max <= MaxLcdBrightness ==> level <= luma
    ensures level < 0x1_0000_0000 / 255 + 1
  {
    var product := luma * max;
    ProductFits(luma, max);
    var wrapped := product % 0x1_0000_0000;
    assert max <= 16843009 ==> wrapped == product;
    wrapped / MaxLcdBrightness
  }

  /** With both factors in range the 32-bit product of luma and maximum does not wrap. */
  lemma ProductFits(luma: nat, max: nat)
    requires luma <= 255
    ensures max <= 16843009 ==> luma * max < 0x1_0000_0000
    ensures max <= 255 ==> luma * max <= luma * 255
  {
    MulLe(luma, 255, max);
    if max <= 255 {
      MulLe(max, 255, luma);
    }
  }

  lemma MulLe(a: nat, b: nat, k: nat)
    requires a <= b
    ensures a * k <= b * k
  {
  }

  /** A maximum of 128 halves a full-scale luma: 255 * 128 / 255 == 128. */
  lemma BacklightHalfScale()
    ensures BacklightLevel(255, 128) == 128
    ensures BacklightLevel(255, -1) == 255
    ensures BacklightLevel(200, 0) == 0
  {
  }

  /** Beyond 16843009 the 32-bit product wraps: a full-scale luma at the largest maximum dims. */
  lemma BacklightWraps()
    ensures BacklightLevel(255, 0x7FFF_FFFF) == 8421503
  {
  }
}
