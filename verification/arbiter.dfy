/**
  The light arbiter: the cached state of every source, the choice of the
  source that owns the shared home LED, and the per-type handlers, each a
  pure function from the cache and the request to the new cache and the
  register writes it issues.
 */
module Arbiter {
  import opened LightTypes
  import opened Encoder

  /** The latest state of each multiplexed source, and the one-shot button initialisation flag. */
  datatype Cache = Cache(
    attention: LightState,
    notification: LightState,
    battery: LightState,
    buttons: LightState,
    initialized: bool)

  /** The cache at start-up: every source dark, buttons not yet initialised. */
  const InitialCache: Cache := Cache(Dark, Dark, Dark, Dark, false)

  /** The cached state of a breathing-light source. */
  function StateOf(c: Cache, src: BreathSource): LightState
  {
    match src
    case FromAttention => c.attention
    case FromNotification => c.notification
    case FromButtons => c.buttons
    case FromBattery => c.battery
  }

  /** Priority of a source for the shared LED; smaller ranks win. */
  function Rank(src: BreathSource): nat
  {
    match src
    case FromAttention => 0
    case FromNotification => 1
    case FromButtons => 2
    case FromBattery => 3
  }

  /**
    `handleBreathingLightLocked`'s choice: the first lit source among
    attention, notification and buttons, else the battery, lit or not.
   */
  function Owner(c: Cache): (owner: BreathSource)
    ensures HighestLit(c, owner)
    ensures owner != FromBattery ==> IsLit(StateOf(c, owner))
    ensures forall src :: Rank(src) < Rank(owner) ==> !IsLit(StateOf(c, src))
  {
    if IsLit(c.attention) then FromAttention
    else if IsLit(c.notification) then FromNotification
    else if IsLit(c.buttons) then FromButtons
    else FromBattery
  }

  /** `src` is lit (or is the battery fallback) and every source of higher priority is dark. */
  predicate HighestLit(c: Cache, src: BreathSource)
  {
    (src == FromBattery || IsLit(StateOf(c, src))) &&
    forall other :: Rank(other) < Rank(src) ==> !IsLit(StateOf(c, other))
  }

  /** `ws` is the home-LED encoding of whichever source is the highest-priority lit one. */
  predicate ShowsHighestLit(c: Cache, ws: seq<Write>, hw: Hardware)
  {
    forall src {:trigger HighestLit(c, src)} :: HighestLit(c, src) ==>
      ws == BreathingLight(src, StateOf(c, src), hw)
  }

  /**
    The owner is characterised by priority alone: a source owns the LED
    exactly when it is lit (or is the battery fallback) and every source of
    higher priority is dark.
   */
  lemma OwnerIsHighestLit(c: Cache, src: BreathSource)
    ensures Owner(c) == src <==> HighestLit(c, src)
  {
    var owner := Owner(c);
    if owner != src && (src == FromBattery || IsLit(StateOf(c, src))) {
      if Rank(owner) < Rank(src) {
        assert owner != FromBattery;
      }
    }
  }

  /** The home-LED writes for the current owner of the shared LED. */
  function Breathe(c: Cache, hw: Hardware): (ws: seq<Write>)
    ensures ShowsHighestLit(c, ws, hw)
  {
    var owner := Owner(c);
    BreathingLight(owner, StateOf(c, owner), hw)
  }

  /** The new cache and the writes a handler issued. */
  datatype Step = Step(cache: Cache, writes: seq<Write>)

  // ---------------------------------------------------------------------
  // Notification alpha pre-scaling
  // ---------------------------------------------------------------------

  /** One channel dimmed by the alpha byte, `c * a / 255`; a zero channel is left alone. */
  function Dim(ch: nat, a: nat): (d: nat)
    requires ch < 0x100 && a < 0xFF
    ensures d <= ch
    ensures d * 255 <= ch * a < d * 255 + 255
  {
    DimBounds(ch, a);
    if ch > 0 then ch * a / 0xFF else ch
  }

  lemma DimBounds(ch: nat, a: nat)
    requires ch < 0x100 && a < 0xFF
    ensures ch * a <= ch * 255
    ensures ch * a / 0xFF <= ch
  {
    MulLeft(ch, a, 255);
  }

  lemma MulLeft(k: nat, x: nat, y: nat)
    requires x <= y
    ensures k * x <= k * y
  {
  }

  /**
    `handleNotification`'s pre-scaling: an alpha strictly between 0 and 255
    dims every channel by alpha/255 and drops the alpha byte; alpha 0 or
    255 leaves the colour as requested. Flash settings are kept.
   */
  function ScaleByAlpha(s: LightState): (r: LightState)
    ensures r.flashMode == s.flashMode && r.flashOnMs == s.flashOnMs && r.flashOffMs == s.flashOffMs
    ensures Alpha(s.color) == 0 || Alpha(s.color) == 255 ==> r == s
    ensures 0 < Alpha(s.color) < 255 ==>
      var a := Alpha(s.color);
      && Alpha(r.color) == 0
      && Red(r.color) * 255 <= Red(s.color) * a < Red(r.color) * 255 + 255
      && Green(r.color) * 255 <= Green(s.color) * a < Green(r.color) * 255 + 255
      && Blue(r.color) * 255 <= Blue(s.color) * a < Blue(r.color) * 255 + 255
  {
    var a := Alpha(s.color);
    ChannelDecomposition(s.color);
    if 0 < a < 0xFF then
      s.(color := Pack(Dim(Red(s.color), a), Dim(Green(s.color), a), Dim(Blue(s.color), a)))
    else
      s
  }

  /**
    Pre-scaling only dims: no channel grows, a dark channel stays dark, so
    the scaled state is lit only if the request was, and its luma is no
    larger. The stored alpha is always 0 or 255.
   */
  lemma ScaleByAlphaDims(s: LightState)
    ensures var r := ScaleByAlpha(s);
      && Red(r.color) <= Red(s.color) && Green(r.color) <= Green(s.color) && Blue(r.color) <= Blue(s.color)
      && (Red(s.color) == 0 ==> Red(r.color) == 0)
      && (Green(s.color) == 0 ==> Green(r.color) == 0)
      && (Blue(s.color) == 0 ==> Blue(r.color) == 0)
      && (IsLit(r) ==> IsLit(s))
      && Luma(r) <= Luma(s)
      && Alpha(r.color) in {0, 255}
  {
    var r := ScaleByAlpha(s);
    var a := Alpha(s.color);
    ChannelDecomposition(s.color);
    if 0 < a < 0xFF {
      assert Red(r.color) == Dim(Red(s.color), a);
      assert Green(r.color) == Dim(Green(s.color), a);
      assert Blue(r.color) == Dim(Blue(s.color), a);
    }
    LumaMonotone(r, s);
  }

  /** Half alpha on full red gives red 128 with no alpha; opaque and transparent colours pass. */
  lemma ScaleByAlphaExamples()
    ensures ScaleByAlpha(LightState(0x80FF_0000, None, 0, 0)).color == 0x0080_0000
    ensures ScaleByAlpha(LightState(0xFFFF_0000, None, 0, 0)).color == 0xFFFF_0000
    ensures ScaleByAlpha(LightState(0x00FF_0000, None, 0, 0)).color == 0x00FF_0000
  {
    var s := LightState(0x80FF_0000, None, 0, 0);
    assert Alpha(s.color) == 128;
    assert Red(s.color) == 255 && Green(s.color) == 0 && Blue(s.color) == 0;
    assert Dim(255, 128) == 128 by { assert 255 * 128 / 0xFF == 128; }
    assert Dim(0, 128) == 0;
    assert Pack(128, 0, 0) == 0x0080_0000;
    assert ScaleByAlpha(s).color == Pack(Dim(255, 128), Dim(0, 128), Dim(0, 128));
    var t := LightState(0xFFFF_0000, None, 0, 0);
    assert Alpha(t.color) == 255;
    var u := LightState(0x00FF_0000, None, 0, 0);
    assert Alpha(u.color) == 0;
  }

  /** Scaling can put a lit notification out: alpha 1 on the dimmest blue leaves black. */
  lemma ScaleByAlphaCanExtinguish()
    ensures IsLit(LightState(0x0100_0001, None, 0, 0))
    ensures !IsLit(ScaleByAlpha(LightState(0x0100_0001, None, 0, 0)))
  {
    var s := LightState(0x0100_0001, None, 0, 0);
    assert Alpha(s.color) == 1 && Red(s.color) == 0 && Green(s.color) == 0 && Blue(s.color) == 1;
    assert Dim(1, 1) == 0;
  }

  // ---------------------------------------------------------------------
  // Handlers
  // ---------------------------------------------------------------------

  /** `handleAttention`: cache the request and re-arbitrate the shared LED. */
  function HandleAttention(c: Cache, s: LightState, hw: Hardware): (r: Step)
    ensures r.cache == c.(attention := s)
    ensures ShowsHighestLit(r.cache, r.writes, hw)
  {
    var c' := c.(attention := s);
    Step(c', Breathe(c', hw))
  }

  /** `handleNotification`: cache the alpha-scaled request and re-arbitrate. */
  function HandleNotification(c: Cache, s: LightState, hw: Hardware): (r: Step)
    ensures r.cache == c.(notification := ScaleByAlpha(s))
    ensures ShowsHighestLit(r.cache, r.writes, hw)
  {
    var c' := c.(notification := ScaleByAlpha(s));
    Step(c', Breathe(c', hw))
  }

  /** `handleBattery`: cache the request and re-arbitrate. */
  function HandleBattery(c: Cache, s: LightState, hw: Hardware): (r: Step)
    ensures r.cache == c.(battery := s)
    ensures ShowsHighestLit(r.cache, r.writes, hw)
  {
    var c' := c.(battery := s);
    Step(c', Breathe(c', hw))
  }

  /** Button channel switched off. */
  const ButtonsOff: seq<Write> :=
    [Write(LedChannel, Num(ChannelButton)), Write(LedBlinkMode, Num(BlinkModeOff)), Write(LedBrightness, Num(0))]

  /** The one-time initialisation that disables the button keys. */
  const KillButtons: seq<Write> :=
    [Write(LedFade, Fade(0, 0, 0)), Write(LedBlinkMode, Num(BlinkModeBreath)), Write(LedBrightness, Num(0))]

  /** Button channel switched on at `level`. */
  function ButtonsOn(level: nat): (ws: seq<Write>)
    ensures |ws| == 3 && ws[0] == Write(LedChannel, Num(ChannelButton))
    ensures ws[1] == Write(LedBrightness, Num(level)) && ws[2] == Write(LedBlinkMode, Num(BlinkModeBreathOnce))
  {
    [Write(LedChannel, Num(ChannelButton)), Write(LedBrightness, Num(level)), Write(LedBlinkMode, Num(BlinkModeBreathOnce))]
  }

  /**
    `handleButtons`: cache the request; a dark request switches the button
    channel off before re-arbitrating; a bright one first runs the
    initialisation if it has never run, re-arbitrates, then drives the
    button channel at the request's luma.
   */
  function HandleButtons(c: Cache, s: LightState, hw: Hardware): (r: Step)
    ensures r.cache == c.(buttons := s, initialized := c.initialized || Luma(s) > 0)
    ensures Luma(s) == 0 ==>
      && |r.writes| >= |ButtonsOff|
      && r.writes[..|ButtonsOff|] == ButtonsOff
      && ShowsHighestLit(r.cache, r.writes[|ButtonsOff|..], hw)
    ensures Luma(s) > 0 ==>
      var init := if c.initialized then [] else KillButtons;
      && |r.writes| >= |init| + 3
      && r.writes[..|init|] == init
      && ShowsHighestLit(r.cache, r.writes[|init|..|r.writes| - 3], hw)
      && r.writes[|r.writes| - 3..] == ButtonsOn(Luma(s))
  {
    var brightness := Luma(s);
    var c1 := c.(buttons := s);
    if brightness <= 0 then
      Step(c1, ButtonsOff + Breathe(c1, hw))
    else
      var init := if c1.initialized then [] else KillButtons;
      var c2 := c1.(initialized := true);
      Step(c2, init + Breathe(c2, hw) + ButtonsOn(brightness))
  }

  /** `handleBacklight`: one write of the rescaled luma; the cache is untouched. */
  function HandleBacklight(c: Cache, s: LightState, hw: Hardware): (r: Step)
    ensures r.cache == c
    ensures r.writes == [Write(LcdBrightness, Num(BacklightLevel(Luma(s), hw.maxBrightness)))]
  {
    Step(c, [Write(LcdBrightness, Num(BacklightLevel(Luma(s), hw.maxBrightness)))])
  }

  // ---------------------------------------------------------------------
  // Properties of the arbitration
  // ---------------------------------------------------------------------

  /**
    While attention is lit it alone drives the shared LED: whatever the
    notification, buttons and battery hold, the LED shows attention's encoding.
   */
  lemma AttentionPreempts(c: Cache, hw: Hardware)
    requires IsLit(c.attention)
    ensures Breathe(c, hw) == BreathingLight(FromAttention, c.attention, hw)
  {
  }

  /**
    Clearing attention hands the LED back: with a lit notification, a dark
    attention request writes the notification's encoding, whatever the
    buttons and battery hold.
   */
  lemma ClearingAttentionRestoresNotification(c: Cache, s: LightState, hw: Hardware)
    requires IsLit(c.notification) && !IsLit(s)
    ensures HandleAttention(c, s, hw).writes == BreathingLight(FromNotification, c.notification, hw)
  {
  }

  /** A dark button request never leaves the buttons owning the shared LED. */
  lemma ButtonsOffReleasesLed(c: Cache, s: LightState, hw: Hardware)
    requires !IsLit(s)
    ensures Owner(HandleButtons(c, s, hw).cache) != FromButtons
    ensures HandleButtons(c, s, hw).writes[..3] == ButtonsOff
  {
  }

  /**
    A barely lit notification (lit, but luma 0, such as colour 0x000001)
    still outranks the buttons and the battery, so the shared LED is
    switched off instead of showing them.
   */
  lemma DimNotificationHidesBattery(c: Cache, hw: Hardware)
    requires !IsLit(c.attention) && IsLit(c.notification)
    requires !Blinks(c.notification) && Luma(c.notification) == 0
    ensures Owner(c) == FromNotification
    ensures Breathe(c, hw) == HomeLed(0, Fade(0, 0, 0), BlinkModeOff)
  {
  }

  /**
    A barely lit button request (lit, but luma 0) takes the "switch the
    buttons off" path, yet it still owns the shared LED and switches that
    off too, hiding the battery status.
   */
  lemma DimButtonsSwitchLedOff(c: Cache, s: LightState, hw: Hardware)
    requires !IsLit(c.attention) && !IsLit(c.notification)
    requires IsLit(s) && !Blinks(s) && Luma(s) == 0
    ensures var r := HandleButtons(c, s, hw);
      && Owner(r.cache) == FromButtons
      && r.writes == ButtonsOff + HomeLed(0, Fade(0, 0, 0), BlinkModeOff)
  {
  }

  /**
    With nothing else lit, a timed battery state blinks even when its own
    colour is black: the blink test comes before the luma test.
   */
  lemma DarkBatteryCanBlink(c: Cache, hw: Hardware)
    requires !IsLit(c.attention) && !IsLit(c.notification) && !IsLit(c.buttons)
    requires c.battery == LightState(0, Timed, 300, 3000)
    ensures Breathe(c, hw) == HomeLed(GradeNotification, Fade(5, 1, 1), BlinkModeBreath)
  {
    BucketIndex(300);
    BucketIndex(3000);
  }

  /** Battery fallback with a lit, steady battery state shows the live battery status. */
  lemma BatteryFallback(c: Cache, hw: Hardware)
    requires !IsLit(c.attention) && !IsLit(c.notification) && !IsLit(c.buttons)
    requires !Blinks(c.battery) && Luma(c.battery) > 0
    ensures Breathe(c, hw) == BatteryLed(hw)
  {
  }
}
