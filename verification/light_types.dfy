/**
  Data model of the indicator-light service: the light types the platform
  can address, the per-update light state, the hardware registers the
  service writes and the live values it reads back from the hardware.
 */
module LightTypes {

  /** The source's `uint32_t` and `int32_t` values. */
  type uint32 = x: int | 0 <= x < 0x1_0000_0000
  type int32 = x: int | -0x8000_0000 <= x < 0x8000_0000

  /** Light types of the platform's light interface (version 2.0). */
  datatype Type = Backlight | Keyboard | Buttons | Battery | Notifications | Attention | Bluetooth | Wifi

  /** Flash modes of a light state; anything but `Timed` means "no blinking". */
  datatype Flash = None | Timed | Hardware

  /** One requested light state: ARGB colour and flash timing in milliseconds. */
  datatype LightState = LightState(color: uint32, flashMode: Flash, flashOnMs: int32, flashOffMs: int32)

  /** A zero-initialised light state: black, no flashing. */
  const Dark: LightState := LightState(0, None, 0, 0)

  /** Result of `setLight`. */
  datatype Status = Success | LightNotSupported

  /** Device registers the service writes. */
  datatype Register =
    | LedBrightness   // nubia_led/brightness
    | LedBlinkMode    // nubia_led/blink_mode
    | LedChannel      // nubia_led/outn
    | LedGrade        // nubia_led/grade_parameter
    | LedFade         // nubia_led/fade_parameter
    | LcdBrightness   // lcd-backlight/brightness

  /** A register value: a number, or the "fade full-on full-off" timing triple. */
  datatype Value = Num(n: int) | Fade(fadeTime: int, fullOn: int, fullOff: int)

  /** One register write; a handler's effect on the hardware is a sequence of these. */
  datatype Write = Write(reg: Register, value: Value)

  /**
    Values read from the hardware during a call. A failed read yields the
    empty string for the charging status and 0 for the integers.
   */
  datatype Hardware = Hardware(chargingStatus: string, capacity: int32, maxBrightness: int32)

  // Blink modes
  const BlinkModeOff := 1
  const BlinkModeBreath := 3
  const BlinkModeBreathOnce := 6

  // Output channels
  const ChannelHome := 16
  const ChannelButton := 8

  // Grades
  const GradeButton := 8
  const GradeBatteryLow := 0
  const GradeNotification := 6
  const GradeBattery := 6

  /** Default full scale of the LCD backlight. */
  const MaxLcdBrightness := 255

  /** Battery capacity (percent) from which a charging battery counts as full. */
  const FullCapacity := 90
}
