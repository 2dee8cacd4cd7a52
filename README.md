# Clevo keyboard-light controller, modelled in Dafny

This project models the keyboard-backlight controller of the Slimbook platform driver
(`clevo_platform.c`). The driver keeps one global record of the keyboard state: the
variant (white-only BW or RGB), the power state, four zone colours, the brightness, the
blinking pattern and the whole-keyboard palette index. It changes that record through
one firmware call, `(submethod, argument) -> status`. As a rule the record follows a
change only when the firmware reports success. There are three exceptions:

- On BW keyboards the brightness steps store the new level before the call.
- On BW keyboards a LEFT colour write records the colour whatever the firmware answers.
- The whole-keyboard colour step stores the new palette index whatever the four colour
  requests return (line 585).

Modules, one per concern of the driver:

- `Types`: machine integers `u8`, `u16` and `u32` as bounded `int`s, plus byte access and
  the request and reply records.
- `Encoding`: the firmware constants, the pattern and palette tables, and the argument
  layouts. The driver ORs byte fields that do not overlap; the model assembles the same
  bytes with `Word`.
- `Steps`: the per-event brightness, toggle and palette arithmetic, including the driver's
  `u8` wrap-around.
- `Params`: the module-parameter validators, the control-surface conversions, variant
  detection and brightness seeding.
- `Transport`: the firmware as a class.
  - `Evaluate` appends each request to a log `calls`.
  - It returns the answer that a fixed but arbitrary oracle `answer` gives for that
    request's position.
  - A property proved for all oracles therefore holds whatever the firmware answers.
- `LedSpec`: the state record as a value `Led`. For each operation it gives the request
  log the operation produces (`…Log`) and the state it leaves (`…Next`), as functions of
  the starting state and the oracle.
- `Controller`: the global record as the class `KbdLedState`, with one method per driver
  function. Each method is proved to produce exactly the `LedSpec` log and state.
- `Properties`: what those specification functions guarantee.
  - The store changes only on success, apart from the three exceptions above: the
    BW steps, BW LEFT, and the palette index.
  - The event decoder's behaviour on both variants.
  - BW brightness stays in range over any series of events.
  - The palette step, the blinking-pattern round trip and the resync order.

The code behaves differently from what one might expect in the following places. The
model follows the code in each:

- A zone colour `0xRRGGBB` is sent with blue, red, green in bytes 2, 1, 0. `0x1A2B3C`
  becomes `0x3C1A2B` in the low bytes, not the red/blue swap `0x3C2B1A` that a
  description of the colour conversion as a swap would suggest.
- The BW increase step wraps a brightness of 255 to 0 before the cap is applied.
- The BW decrease and increase steps store the new level before the firmware call, so
  the level stays even when the firmware refuses it (lines 663-666 and 683-687).
- A BW LEFT colour write records the colour even when the brightness request it turns
  into fails, because `set_color` returns 0 there (lines 520-523).
- The control-surface brightness write casts to `u8` before clamping (line 309), so a
  write of 256 requests 0, not 255.

## Model

| member | source | states |
|---|---|---|
| Encoding.RegionCodeLayout | slimbook_keyboard-0.0/clevo_platform.c:65-68 | each zone constant is 0xF0..0xF3 in the top byte with the other bytes zero |
| Encoding.RepackIsShiftMask | slimbook_keyboard-0.0/clevo_platform.c:525-527 | the repacking equals the driver's expression: low byte shifted up 16, top colour byte down 8, middle byte down 8, combined |
| Encoding.RepackLayout | slimbook_keyboard-0.0/clevo_platform.c:524-526 | the repacked colour puts blue in byte 2, red in byte 1 and green in byte 0, and clears byte 3 |
| Encoding.ColorArgIsRegionOrColor | slimbook_keyboard-0.0/clevo_platform.c:524-527 | the colour argument is the zone constant plus the repacked colour (their OR), with the zone byte on top |
| Encoding.BrightnessCallLayout | slimbook_keyboard-0.0/clevo_platform.c:500-516 | RGB brightness is submethod 0x67 with 0xF4 in the top byte and the level in the low byte; BW is submethod 0x27 with the level alone |
| Encoding.PowerArgLayout | slimbook_keyboard-0.0/clevo_platform.c:612-628 | state 0 gives exactly 0xE0003001 and every other state exactly 0xE007F001 |
| Encoding.ColorArgIgnoresTopByte | slimbook_keyboard-0.0/clevo_platform.c:524-527 | colours that agree in their three low bytes give the same argument |
| Encoding.ColorArgDeterminesColor | slimbook_keyboard-0.0/clevo_platform.c:524-527 | equal arguments for a zone imply equal low three colour bytes, so the repacking loses no colour |
| Encoding.ColorArgExample | slimbook_keyboard-0.0/clevo_platform.c:518-533 | LEFT with 0x1A2B3C is sent as 0xF03C1A2B and not as 0xF03C2B1A |
| Steps.RgbDecrease | slimbook_keyboard-0.0/clevo_platform.c:652-659 | the RGB decrease requests max(b - 25, 0) |
| Steps.RgbIncrease | slimbook_keyboard-0.0/clevo_platform.c:672-679 | the RGB increase requests min(b + 25, 255) |
| Steps.BwDecrease | slimbook_keyboard-0.0/clevo_platform.c:661-668 | the BW decrease gives max(b - 1, 0) |
| Steps.BwIncrease | slimbook_keyboard-0.0/clevo_platform.c:681-688 | the BW increase gives b + 1 below 5, 5 from 5 to 254, and 0 from 255 (u8 wrap before the cap) |
| Steps.BwToggle | slimbook_keyboard-0.0/clevo_platform.c:703-705 | the BW toggle gives 5 from 0 and 0 otherwise |
| Steps.ToggleEnabled | slimbook_keyboard-0.0/clevo_platform.c:699-701 | the RGB toggle requests 1 from 0 and 0 otherwise |
| Steps.PaletteNext | slimbook_keyboard-0.0/clevo_platform.c:569-573 | the next palette index is always below 8, is (i + 1) mod 8 for a valid index, and is 0 for any index from 8 up |
| Steps.RgbDecreaseSaturates | slimbook_keyboard-0.0/clevo_platform.c:652-659 | n decreases give max(b - 25n, 0) |
| Steps.RgbIncreaseSaturates | slimbook_keyboard-0.0/clevo_platform.c:672-679 | n increases give min(b + 25n, 255) |
| Steps.RgbDecreaseFromFull | slimbook_keyboard-0.0/clevo_platform.c:652-659 | from 255 one decrease gives 230 and eleven reach 0 |
| Steps.BwDecreaseSaturates | slimbook_keyboard-0.0/clevo_platform.c:661-668 | n BW decreases give max(b - n, 0) |
| Steps.BwIncreaseSaturates | slimbook_keyboard-0.0/clevo_platform.c:681-688 | from 0..5, n BW increases give min(b + n, 5) |
| Steps.BwIncreaseWrapsAt255 | slimbook_keyboard-0.0/clevo_platform.c:681-688 | the increase maps 255 to 0 and every value from 5 to 254 to 5 |
| Steps.TogglesAreInvolutions | slimbook_keyboard-0.0/clevo_platform.c:697-706 | two toggles restore a BW brightness of 0 or 5 and a power state of 0 or 1 |
| Steps.PaletteNextTimesMod | slimbook_keyboard-0.0/clevo_platform.c:569-574 | n palette steps advance a valid index by n mod 8 |
| Steps.PaletteCycles | slimbook_keyboard-0.0/clevo_platform.c:103-114 | eight palette steps return to the starting colour |
| Params.ValidateBlinkingPattern | slimbook_keyboard-0.0/clevo_platform.c:260-272 | accepted exactly for parsed values 0..7, keeping the value; otherwise -EINVAL |
| Params.ValidateBrightness | slimbook_keyboard-0.0/clevo_platform.c:274-287 | accepted exactly for parsed values 0..255, keeping the value; otherwise -EINVAL |
| Params.FsBrightness | slimbook_keyboard-0.0/clevo_platform.c:309-316 | RGB requests the written value's low byte; BW requests the low byte divided by 51, which lands in 0..5 |
| Params.FsState | slimbook_keyboard-0.0/clevo_platform.c:337 | the requested state is 0 or 1, and 0 exactly when the low byte is 0 |
| Params.DetectVariant | slimbook_keyboard-0.0/clevo_platform.c:954-968 | RGB if and only if the feature query succeeds and bit 30 is clear |
| Params.SeedBrightness | slimbook_keyboard-0.0/clevo_platform.c:975-983 | the seeded brightness is min(parameter, variant maximum) |
| Params.SeedUnsetIsMaximum | slimbook_keyboard-0.0/clevo_platform.c:252 | the unset parameter 0xFFFF seeds 255 on RGB and 5 on BW |
| Transport.Firmware.Evaluate | slimbook_keyboard-0.0/clevo_platform.c:484-498 | a firmware call logs its request and returns the oracle's answer for that position |
| Controller.KbdLedState.Load | slimbook_keyboard-0.0/clevo_platform.c:954-987 | module load: one feature query, then the full resync of a state seeded from the parameters for the detected variant |
| Controller.KbdLedState.Detect | slimbook_keyboard-0.0/clevo_platform.c:954-968 | one feature query; the variant becomes the one the answer indicates |
| Controller.KbdLedState.Seed | slimbook_keyboard-0.0/clevo_platform.c:969-985 | the store takes the parameter colours, the clamped brightness, the pattern and the power state |
| Controller.KbdLedState.SetBrightness | slimbook_keyboard-0.0/clevo_platform.c:500-516 | one brightness request for the variant; the level is stored only on success |
| Controller.KbdLedState.SetColor | slimbook_keyboard-0.0/clevo_platform.c:518-533 | one colour request, or on BW LEFT a brightness request for the low byte that returns 0 |
| Controller.KbdLedState.StoreZone | slimbook_keyboard-0.0/clevo_platform.c:540-558 | only the named zone's colour changes |
| Controller.KbdLedState.SetColorCodeRegion | slimbook_keyboard-0.0/clevo_platform.c:535-561 | one colour request; the zone is recorded exactly when the call reports success; the result is set_color's: 0 for BW LEFT, otherwise the firmware status |
| Controller.KbdLedState.SetColorStringRegion | slimbook_keyboard-0.0/clevo_platform.c:180-209 | a parse error is returned with no request and no change; otherwise it acts as the colour write and returns the size |
| Controller.KbdLedState.SetNextColorWholeKb | slimbook_keyboard-0.0/clevo_platform.c:563-588 | four colour requests for the next palette colour; the index advances whatever the replies; returns 0 |
| Controller.KbdLedState.SetBlinkingPattern | slimbook_keyboard-0.0/clevo_platform.c:590-610 | the pattern request, stored only on success, then for CUSTOM the stored colours are sent again |
| Controller.KbdLedState.SetEnabledCmd | slimbook_keyboard-0.0/clevo_platform.c:612-628 | one power request; the firmware status is returned |
| Controller.KbdLedState.SetEnabled | slimbook_keyboard-0.0/clevo_platform.c:630-636 | one power request; the state is stored only on success |
| Controller.KbdLedState.KeyboardEventCallback | slimbook_keyboard-0.0/clevo_platform.c:638-712 | the requests and state change of the event decoder for every event code on both variants |
| Controller.KbdLedState.WriteState | slimbook_keyboard-0.0/clevo_platform.c:784-799 | RGB sends the pattern, brightness and power; BW sends brightness alone; the store is left unchanged |
| Controller.KbdLedState.Suspend | slimbook_keyboard-0.0/clevo_platform.c:820-828 | RGB sends one power-off request without touching the store; BW sends nothing; returns 0 |
| Controller.KbdLedState.Resume | slimbook_keyboard-0.0/clevo_platform.c:830-838 | one event re-arm query, then the full resync with the store unchanged; returns 0 |
| Controller.KbdLedState.SetBrightnessFs | slimbook_keyboard-0.0/clevo_platform.c:298-319 | a parse error is returned unchanged; otherwise the converted brightness is requested and the size returned |
| Controller.KbdLedState.SetStateFs | slimbook_keyboard-0.0/clevo_platform.c:327-342 | a parse error is returned unchanged; otherwise the clamped power state is requested and the size returned |
| Properties.ColorRequestEncoding | slimbook_keyboard-0.0/clevo_platform.c:524-532 | outside BW LEFT a colour write is submethod 0x67 with the zone byte, then blue, red and green |
| Properties.BwLeftColorIsBrightness | slimbook_keyboard-0.0/clevo_platform.c:520-523 | on BW, LEFT's colour write is the BW brightness request for the colour's low byte |
| Properties.BwLeftLeavesRange | slimbook_keyboard-0.0/clevo_platform.c:520-523 | writing 0xFF to the BW LEFT zone stores brightness 255, outside 0..5, and the next increase wraps to 0 |
| Properties.BrightnessStoredOnlyOnSuccess | slimbook_keyboard-0.0/clevo_platform.c:500-516 | the brightness is stored on success, and nothing changes on failure |
| Properties.EnabledStoredOnlyOnSuccess | slimbook_keyboard-0.0/clevo_platform.c:630-636 | the power state is stored on success, and nothing changes on failure |
| Properties.ZoneStoredOnlyOnSuccess | slimbook_keyboard-0.0/clevo_platform.c:535-561 | a zone is recorded on success only, except BW LEFT, which records the colour always and the brightness on success |
| Properties.ZoneAfterWrite | slimbook_keyboard-0.0/clevo_platform.c:535-561 | the written zone holds the new colour if and only if the write succeeded or it already held it; other zones, the variant, power state, pattern and palette index are unchanged, and the brightness too except for BW LEFT |
| Properties.RgbBrightnessEvents | slimbook_keyboard-0.0/clevo_platform.c:650-679 | on RGB, decrease and increase request one clamped step of 25; the store takes the new level on success and is otherwise unchanged |
| Properties.RgbToggleEvent | slimbook_keyboard-0.0/clevo_platform.c:697-701 | on RGB, both toggle codes request power on from 0 and off otherwise (1 - e for e in 0..1); stored on success, nothing else changes |
| Properties.RgbPaletteEvent | slimbook_keyboard-0.0/clevo_platform.c:691-695 | on RGB, 0x83 runs the whole-keyboard palette step |
| Properties.UnknownEventIsInert | slimbook_keyboard-0.0/clevo_platform.c:708-711 | an unknown code issues no request and changes nothing |
| Properties.BwStepsStoreFirst | slimbook_keyboard-0.0/clevo_platform.c:661-688 | on BW, decrease and increase store the new level before the request, whatever the firmware answers |
| Properties.BwToggleAndPaletteEvents | slimbook_keyboard-0.0/clevo_platform.c:691-706 | on BW, both toggle codes request 5 from 0 and 0 otherwise, stored on success; 0x83 does nothing |
| Properties.EventKeepsBwRange | slimbook_keyboard-0.0/clevo_platform.c:638-712 | one event keeps the variant, keeps a power state of 0..1 within 0..1, and on BW keeps a brightness in 0..5, for any firmware answers |
| Properties.EventsKeepBwRange | slimbook_keyboard-0.0/clevo_platform.c:638-712 | any series of events keeps the variant, only appends requests, keeps the power state in 0..1 and BW brightness in 0..5 |
| Properties.EventLogExtends | slimbook_keyboard-0.0/clevo_platform.c:638-712 | an event only appends to the request log |
| Properties.PaletteStepRequests | slimbook_keyboard-0.0/clevo_platform.c:577-583 | on RGB the palette step sends the next palette colour to LEFT, CENTER, RIGHT and EXTRA, in that order |
| Properties.PaletteKeysAdvance | slimbook_keyboard-0.0/clevo_platform.c:691-695 | on RGB, k presses of the palette key advance the palette index k steps whatever the firmware answers |
| Properties.PaletteKeysCycle | slimbook_keyboard-0.0/clevo_platform.c:563-588 | on RGB, eight presses of the palette key bring a valid palette index back to its start |
| Properties.PaletteStepState | slimbook_keyboard-0.0/clevo_platform.c:563-588 | the index always becomes the next one; on RGB each zone takes the colour exactly when its own request succeeds |
| Properties.PatternStoredOnlyOnSuccess | slimbook_keyboard-0.0/clevo_platform.c:590-598 | the pattern is stored on success only, and no zone colour ever changes |
| Properties.PatternRequests | slimbook_keyboard-0.0/clevo_platform.c:590-610 | CUSTOM resends LEFT, CENTER, RIGHT, plus EXTRA only when present, after the pattern word; other patterns send the word alone |
| Properties.PatternRoundTripRestoresColors | slimbook_keyboard-0.0/clevo_platform.c:590-610 | going to another pattern and back to CUSTOM resends the colours stored before, EXTRA too when present, and leaves all four colours as they were, whatever the answers |
| Properties.ReplayKeepsStore | slimbook_keyboard-0.0/clevo_platform.c:784-799 | replaying the stored pattern, brightness and power leaves the store unchanged whatever the answers |
| Properties.WriteStateOrder | slimbook_keyboard-0.0/clevo_platform.c:784-799 | on RGB the pattern goes first and brightness then power last; on BW only brightness is sent |
| Properties.PowerRequests | slimbook_keyboard-0.0/clevo_platform.c:612-628 | the power request for 0 is 0xE0003001 and for any other state 0xE007F001 |
| Properties.FsBrightnessRange | slimbook_keyboard-0.0/clevo_platform.c:298-319 | the converted brightness stays in the variant's range and depends only on the low byte; 0xFF gives 5 on BW and 0x100 gives 0 |
| Properties.SeededInRange | slimbook_keyboard-0.0/clevo_platform.c:969-985 | a seeded state has the detected variant, a brightness within its range, the parameter's pattern and a power state of 0 or 1 |

The functions of `LedSpec`, such as `SetBlinkingPatternLog` and `EventNext`, carry no
contract of their own. They are the specification that the `Controller` rows are proved
against, and the `Properties` rows state what they mean. `Properties.PaletteKeys` is k presses of the palette key, and `Properties.RunEvents` folds
`EventNext` and `EventLog` over a sequence of event codes.

## Left out

- Transport selection is not modelled. The driver chooses between a WMI method and an
  ACPI `_DSM` call by model (lines 390-498). Every call is modelled as one request
  answered by the oracle, which matches the V1 and V2 transports.
- Transport.Firmware.Evaluate: does not model an unknown model (neither V1 nor V2). There
  `clevo_evaluate_method` issues no request and returns an uninitialised status. The
  status is still covered by the arbitrary oracle, but the request-log contracts do not
  apply to that case.
- The firmware's answers are fixed in advance, one per request position. A firmware
  whose answer depends on earlier requests is one such choice. Timing and concurrency
  between the event path and the control-surface writes are not modelled.
- String parsing is not modelled. `kstrtouint` and `kstrtoint` are replaced by their
  outcome, `Parsed` or `Unparsable(errno)`, and the read-back handlers that `sprintf` the
  state are left out.
- Module-parameter storage is not modelled. The validators store with `param_set_int`
  into `ushort` variables, and only the accepted value is modelled.
- Params.ValidateBrightness: "keeping the value" holds only for the parsed integer.
  `param_set_int` parses the string again with its own rules, so a string with a
  leading zero may store a different value from the one checked, or be refused.
- Params.ValidateBlinkingPattern: the same re-parse by `param_set_int` applies, so
  "keeping the value" holds only for the parsed integer.
- `Load` overwrites `param_brightness` with the clamped value (lines 976 and 980). The
  model records the clamped value in the state only.
- Device and driver registration, probe, remove, exit, and the ACPI and WMI notify
  entry points are not modelled (lines 714-782, 840-953, 988-1027). The event code they
  fetch is passed to `KeyboardEventCallback` directly.
- `has_extra` is never set to 1 by this driver. The model keeps it as a field, so the
  EXTRA branch of the pattern step is modelled but unreachable from `Load`.
- Logging (`pr_info`, `pr_err`) is not modelled.
- Controller.KbdLedState.Load: requires the stored pattern parameter to be below 8. The
  pattern validator guarantees this, and a larger value would index past the pattern
  table in `set_blinking_pattern`.
