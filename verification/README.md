# Indicator-light service for a one-LED phone, in Dafny

This project models the light service in `light/Light.cpp`. The service
receives `setLight(type, state)` calls for five light types: attention,
notifications, battery, buttons and backlight. It caches the latest state
of each type. It decides which source owns the single shared "home"
breathing LED and encodes that source's state into the LED's registers:
channel (`outn`), grade, fade-timing triple and blink mode. The LCD
backlight is handled on its own.

Modules:

- `LightTypes` (`light_types.dfy`) holds the data model: light types,
  flash modes, `LightState`, the registers and the values written to them,
  the live hardware readings, and the source's named constants.
- `Encoder` (`encoder.dfy`) holds the pure hardware encoding:
  - colour channels, `isLit` and the luma reduction `rgbToBrightness`;
  - the breathing-light timing quantiser, with its battery variant
    (`setBreathingLightLocked`);
  - the backlight rescale.
- `Arbiter` (`arbiter.dfy`) holds the cached state of each source and
  the priority choice (`handleBreathingLightLocked`). It also holds the
  notification alpha pre-scaling and every handler. Each handler is a
  pure function from the cache and the request to the new cache and the
  list of register writes it issues.
- `LightService` (`service.dfy`) holds the `backends` table and
  `Light::setLight`, which is written as a method with the source's two
  loops and proved equal to a functional dispatch. It also holds
  `getSupportedTypes` and properties of whole sequences of calls.

The device files are a write log. Each handler returns the
`(register, value)` pairs it writes, in order. The three values the
service reads from the hardware are inputs of each call: the battery
status token, the battery capacity and the backlight maximum. A failed
read is modelled by the input the source substitutes for it: `""` for the
status and `0` for the integers.

Some behaviours of the code are easy to misread; the model keeps them as written:

- A failed read of the backlight maximum returns 0, not a negative
  number. The backlight is then written as 0; it does not fall back to
  255. Only a negative reading falls back to 255.
- `getSupportedTypes` returns the table order: attention,
  notifications, battery, backlight, buttons. The shared LED is
  arbitrated in a different order: attention, notification, buttons,
  then battery.
- A source can be lit but still have luma 0. An example is colour
  `0x000001`, where `29 * 1 >> 8 == 0`. Luma is positive only if the
  colour is lit; the converse fails (`LitButDark`). So a barely lit
  notification still wins arbitration over the battery and switches the
  LED off (`DimNotificationHidesBattery`). Likewise a barely lit button
  request takes the "disable buttons" path yet still owns the shared LED
  and switches it off (`DimButtonsSwitchLedOff`).
- The blink test comes before the luma test. A timed battery state
  therefore blinks even when its colour is black (`DarkBatteryCanBlink`).
- A steady (non-blinking), bright attention or notification state writes
  nothing to the LED. `setBreathingLightLocked` has no branch for these
  sources (`BreathingLightShape`).
- The off-duration quantiser at `light/Light.cpp:208` compares the
  already-quantised on-code against 5000 instead of the off-duration. The
  model keeps this as written. So an off-duration of 1 ms, or one above
  5000 ms, is written unchanged (`OffCode`). `OffCodeQuirk` proves that
  these are exactly the inputs where the written off value departs from
  the bucket table.

## Model

| member | source | states |
|---|---|---|
| Encoder.IsLit | light/Light.cpp:123-125 | a state is lit iff one of its red, green or blue channels is non-zero; alpha plays no part |
| Encoder.Luma | light/Light.cpp:127-131 | luma is (77 R + 150 G + 29 B) / 256 over the low 24 bits, never exceeds 255, and is positive only for a lit state |
| Encoder.LumaIgnoresAlpha | light/Light.cpp:128 | clearing the alpha byte changes neither the luma nor the lit-ness |
| Encoder.LumaZero | light/Light.cpp:127-131 | luma is 0 exactly when the weighted channel sum is below 256 |
| Encoder.LumaFull | light/Light.cpp:127-131 | luma is 255 exactly for white |
| Encoder.LitButDark | light/Light.cpp:123-131 | the colour 0x000001 is lit yet has luma 0, so lit does not imply a positive luma |
| Encoder.LumaPrimaries | light/Light.cpp:127-131 | pure red, green, blue and white reduce to 76, 149, 28 and 255; an alpha byte does not change white's 255 |
| Encoder.LumaMonotone | light/Light.cpp:127-131 | raising any colour channel never lowers the luma |
| Encoder.BucketIndex | light/Light.cpp:155-182 | the number of bucket boundaries 1/250/500/1000/2000/5000 below a duration, range by range |
| Encoder.OnCode | light/Light.cpp:155-182 | a positive on-duration maps to a code in -1..5, namely one less than the number of boundaries below it; the fall-through that would keep the raw value is unreachable |
| Encoder.OnCodeBrackets | light/Light.cpp:155-182 | on-code k is written exactly for durations in bucket k (1 ms for -1, above 5000 ms for 5), so a written code identifies the range of requests it came from |
| Encoder.OnCodeMonotone | light/Light.cpp:155-182 | a longer on-duration never gets a smaller code |
| Encoder.OffCode | light/Light.cpp:186-214 | with on-code -1 the off value is 0; otherwise an off-duration in (1, 5000] gets its bucket 1..5, and 1 ms or anything above 5000 ms is kept raw because the `> 5000` branch tests the on-code |
| Encoder.OffCodeQuirk | light/Light.cpp:204-211 | for a non-"always" on-code, the off value equals the bucket count exactly when the off-duration lies in (1, 5000] |
| Encoder.FlashTimes | light/Light.cpp:137-147 | a timed state contributes its own on/off durations; no flash and hardware flash contribute 0 and 0 |
| Encoder.Blinks | light/Light.cpp:150 | blinking happens iff the flash mode is timed and both durations are positive |
| Encoder.IsCharging | light/Light.cpp:243-247 | the battery counts as charging iff its status token is "Charging" or "Full" |
| Encoder.BatteryLed | light/Light.cpp:236-266 | not charging gives grade 0 with breathing; charging below 90 % gives grade 6 with breathing; charging at 90 % or more gives grade 6 with one breath; channel 16 and fade 3 0 4 in every case |
| Encoder.BreathingLight | light/Light.cpp:133-270 | a blinking state writes channel 16, grade 6, fade (off, on, on) and breath mode, whatever its source; a non-blinking dark state disables the LED; a bright buttons state gives one breath with fade 1 0 0; a bright battery state shows the live battery status; a bright attention or notification state writes nothing |
| Encoder.BreathingLightShape | light/Light.cpp:216-266 | every non-empty LED update is four writes, selecting channel 16 first and the blink mode last; the update is empty exactly for a steady, bright attention or notification state |
| Encoder.BlinkFadeReadsBack | light/Light.cpp:152-222 | the fade triple of a blink repeats the on-code; the on-code brackets the requested on-duration and is -1 iff it was 1 ms; "always" forces the off value to 0; otherwise the off value is the bucket or the raw off-duration |
| Encoder.BlinkIgnoresSourceAndColour | light/Light.cpp:150-222 | a blinking encoding does not depend on the source, the colour or the battery readings |
| Encoder.BacklightLevel | light/Light.cpp:286-295 | a negative maximum counts as 255; at 255 the luma is written unchanged; any other maximum gives ((luma * max) mod 2^32) / 255 rounded down, which is luma * max / 255 while the 32-bit product does not wrap (maximum up to 16843009), and never above the luma for a maximum up to 255 |
| Encoder.Rescale | light/Light.cpp:292-295 | the rescaled level is ((luma * max) mod 2^32) / 255 rounded down, i.e. the unsigned 32-bit product divided by 255; that is luma * max / 255 for a maximum up to 16843009, at most the luma for a maximum up to 255, and always below 2^32 / 255 + 1 |
| Encoder.BacklightHalfScale | light/Light.cpp:286-297 | maximum 128 turns full luma into 128; a negative maximum keeps 255; a failed read (0) gives 0 |
| Encoder.BacklightWraps | light/Light.cpp:294 | at the largest 32-bit maximum the unsigned product wraps and full luma comes out as 8421503 |
| Arbiter.Owner | light/Light.cpp:272-282 | the owner of the shared LED is the highest-priority lit source (attention, notification, buttons), or the battery when those are all dark |
| Arbiter.Breathe | light/Light.cpp:272-282 | the shared-LED writes are the encoding of whichever source is lit (or is the battery fallback) with every higher-priority source dark |
| Arbiter.OwnerIsHighestLit | light/Light.cpp:272-282 | a source owns the LED iff it is lit or is the battery fallback, and all higher-priority sources are dark, so the owner is unique |
| Arbiter.Dim | light/Light.cpp:357-362 | a channel dimmed by alpha a is floor(c * a / 255): never above c, and zero stays zero |
| Arbiter.ScaleByAlpha | light/Light.cpp:345-366 | alpha strictly between 0 and 255 scales every channel to floor(c * a / 255) and clears alpha; alpha 0 or 255 keeps the state; flash settings are kept |
| Arbiter.ScaleByAlphaDims | light/Light.cpp:345-366 | pre-scaling never raises a channel, keeps dark channels dark, cannot light a dark state, never raises luma, and leaves alpha 0 or 255 |
| Arbiter.ScaleByAlphaExamples | light/Light.cpp:345-366 | 0x80FF0000 is stored as 0x00800000; alpha 255 and alpha 0 colours are stored unchanged |
| Arbiter.ScaleByAlphaCanExtinguish | light/Light.cpp:345-366 | alpha 1 on colour 0x000001 stores black, so scaling can turn a lit notification dark |
| Arbiter.HandleAttention | light/Light.cpp:371-374 | attention's entry is replaced, nothing else in the cache changes, and the LED then shows the highest-priority lit source of the new cache (the battery if none is lit) |
| Arbiter.HandleNotification | light/Light.cpp:339-369 | the notification entry is replaced by the alpha-scaled request, nothing else changes, and the LED then shows the highest-priority lit source of the new cache |
| Arbiter.HandleBattery | light/Light.cpp:333-337 | the battery entry is replaced, nothing else changes, and the LED then shows the highest-priority lit source of the new cache |
| Arbiter.HandleButtons | light/Light.cpp:300-331 | buttons' entry is replaced; a zero-luma request first switches channel 8 off, and the rest of its writes show the highest-priority lit source of the new cache; a bright request runs the key initialisation only when not yet initialised, then shows the highest-priority lit source, then drives channel 8 at the luma with one breath; the flag ends set iff it was set or the request was bright |
| Arbiter.HandleBacklight | light/Light.cpp:284-298 | the cache is untouched and the only write is the rescaled luma to the backlight register |
| Arbiter.AttentionPreempts | light/Light.cpp:273-274 | while attention is lit the LED shows attention's encoding, whatever the other sources hold |
| Arbiter.ClearingAttentionRestoresNotification | light/Light.cpp:273-276 | with a lit notification, a dark attention request writes the notification's encoding |
| Arbiter.ButtonsOffReleasesLed | light/Light.cpp:307-313 | a dark buttons request never leaves buttons owning the LED, and starts by switching channel 8 off |
| Arbiter.DimNotificationHidesBattery | light/Light.cpp:224-229 | any lit, steady notification of luma 0 (such as 0x000001) owns the LED and switches it off, whatever the buttons and battery hold |
| Arbiter.DimButtonsSwitchLedOff | light/Light.cpp:300-313 | a lit, steady button request of luma 0 takes the switch-off path, yet owns the shared LED and switches it off too |
| Arbiter.DarkBatteryCanBlink | light/Light.cpp:150-222 | as fallback owner, a black timed battery state of 300/3000 ms blinks with fade 5 1 1 |
| Arbiter.BatteryFallback | light/Light.cpp:279-280 | with nothing else lit, a steady bright battery state shows the live battery status |
| LightService.SupportedTypes | light/Light.cpp:377-383 | the table covers every light type except keyboard, bluetooth and wifi |
| LightService.Remember | light/Light.cpp:401-406 | caching a request replaces the state of the entry of its type and no other |
| LightService.Dispatch | light/Light.cpp:393-428 | an unsupported type gives LIGHT_NOT_SUPPORTED with the service and the hardware untouched; a supported type gives SUCCESS; the table stays well formed |
| LightService.SetLight | light/Light.cpp:393-428 | the two table loops behave as the dispatch to the type's handler: an unsupported type mutates nothing, writes nothing and reports LIGHT_NOT_SUPPORTED |
| LightService.GetSupportedTypes | light/Light.cpp:430-440 | the result lists the table's types in table order: attention, notifications, battery, backlight, buttons |
| LightService.SharedLedFollowsOwner | light/Light.cpp:272-282 | every attention, notification or battery call writes exactly the encoding of the highest-priority lit source of the new cache |
| LightService.BacklightIsIndependent | light/Light.cpp:284-298 | a backlight call leaves the cache alone and writes only the backlight register |
| LightService.TableStatesDoNotMatter | light/Light.cpp:413-425 | the states kept in the table never affect the writes or the cache, because the second loop always calls the handler on the request |
| LightService.BatteryRepeatIsIdempotent | light/Light.cpp:333-337 | repeating a battery request with the same battery readings repeats the writes and leaves the same service |
| LightService.AttentionThenNotification | light/Light.cpp:272-282 | with attention and notification lit only attention is written; clearing attention next writes the notification's encoding |
| LightService.BreatheSelectsHome | light/Light.cpp:219-263 | a shared-LED update is empty or begins by selecting channel 16 |
| LightService.KillHeadsOnlyFirstBrightButtons | light/Light.cpp:315-322 | a call's writes begin with the key initialisation iff it is a bright buttons request on an uninitialised service; the flag ends set iff it was set or such a request arrived |
| LightService.Run | light/Light.cpp:393-428 | a sequence of calls keeps the table well formed and yields one write sequence per call |
| LightService.KillRunsAtMostOnce | light/Light.cpp:315-322 | over any sequence of calls the key initialisation runs at most once, and never once the flag is set; the flag is never cleared |
| LightService.DispatchKeepsAlphaSettled | light/Light.cpp:345-366 | a call never leaves a partial alpha in the cached notification |
| LightService.NotificationAlphaSettled | light/Light.cpp:345-366 | from a state without partial alpha, every reachable state's cached notification has alpha 0 or 255 |
| LightService.InitialServiceIsSettled | light/Light.cpp:70-75 | at start-up the table is well formed, the notification has no partial alpha and the buttons are not initialised |

## Left out

- Device-file I/O (`set`, `get`, `getInt`, light/Light.cpp:82-121) is not modelled. Reads are per-call inputs and writes are the returned log. A failed write is not distinguished from a successful one, since the source ignores it too.
- Text formatting is not modelled. Register values are integers, and the fade value is an integer triple. The trailing newline that `snprintf` adds to the blink triple is dropped. So are the `ALOGW`/`ALOGD` log messages.
- The `get` helper reads only the first whitespace-separated word of the status file. The model takes that word as its input.
- The mutex `mLock` and the missing lock in `handleAttention` are not modelled. Each call is modelled as atomic and sequential, so concurrency is out of scope.
- The HIDL plumbing (`Return<>`, `_hidl_cb`, namespaces) is not modelled; `getSupportedTypes` returns its list directly.
- `LightState.brightnessMode` is not modelled, because the code never reads it.
- The light-type and flash-mode enumerations, and the field widths of `LightState`, come from the light interface's type definitions. `Light.h` and those type definitions are not part of this model. Three types are outside the table: keyboard, bluetooth and wifi.
- The initial colour of the table entries is set by `Light.h`, which is not part of this model. The model starts them dark. `TableStatesDoNotMatter` shows that these entries never affect the outcome.
- SetLight: for a type outside the table, `handler` at light/Light.cpp:394 is never assigned, so the test `!handler` at :409 reads an uninitialised local. The model returns `LIGHT_NOT_SUPPORTED` there, as if `handler` started null, which is what the comment at :408 describes; the undefined read itself is not modelled.
- Handlers stored as function pointers are compared by their light type. The table pairs each type with a different handler, so the two comparisons agree.
