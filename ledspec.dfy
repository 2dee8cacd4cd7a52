/** The LED state store as a value, and for each operation of the controller the requests
    it issues and the state it leaves, as functions of the state it starts from and of the
    firmware's replies. The class in module Controller is proved to behave exactly so. */
module LedSpec {
  import opened Types
  import opened Encoding
  import opened Steps
  import opened Params

  /** A snapshot of the global keyboard state record. */
  datatype Led = Led(
    mode: Variant, hasExtra: u8, enabled: u8,
    left: u32, center: u32, right: u32, extra: u32,
    brightness: u8, blinkingPattern: PatternId, wholeKbdColor: u8)

  /** The state before the load-time initialisation runs. */
  const Initial: Led :=
    Led(BW, 0, 1, KbColorDefault, KbColorDefault, KbColorDefault, KbColorDefault,
        BrightnessMax, 0, 5)

  /** The state seeded from the module parameters once the variant is known. */
  function Seeded(v: Variant, p: Settings): Led
    requires p.blinkingPattern < 8
  {
    Led(v, Initial.hasExtra, if p.state then 1 else 0,
        p.colorLeft, p.colorCenter, p.colorRight, p.colorExtra,
        SeedBrightness(v, p.brightness), p.blinkingPattern % 0x100, Initial.wholeKbdColor)
  }

  function Zone(s: Led, r: Region): u32
  {
    match r
    case Left => s.left
    case Center => s.center
    case Right => s.right
    case Extra => s.extra
  }

  function WithZone(s: Led, r: Region, c: u32): Led
  {
    match r
    case Left => s.(left := c)
    case Center => s.(center := c)
    case Right => s.(right := c)
    case Extra => s.(extra := c)
  }

  /** Whether the firmware's answer to request i reports success. */
  predicate Ok(ans: nat -> Reply, i: nat)
  {
    ans(i).status == 0
  }

  // set_brightness: one request; the store follows only on success.

  function SetBrightnessNext(s: Led, b: u8, ok: bool): Led
  {
    if ok then s.(brightness := b) else s
  }

  // set_color: on BW the left "colour" is a brightness; otherwise a zone-colour request.

  predicate BwLeft(s: Led, r: Region)
  {
    s.mode == BW && r == Left
  }

  function SetColorCall(v: Variant, r: Region, c: u32): Call
  {
    if v == BW && r == Left then BrightnessCall(BW, Byte(c, 0)) else ColorCall(r, c)
  }

  function SetColorNext(s: Led, r: Region, c: u32, ok: bool): Led
  {
    if BwLeft(s, r) then SetBrightnessNext(s, Byte(c, 0), ok) else s
  }

  /** set_color reports success on the BW left zone whatever the firmware said. */
  predicate SetColorSucceeds(s: Led, r: Region, ok: bool)
  {
    BwLeft(s, r) || ok
  }

  // set_color_code_region and set_color_string_region: record the zone on success.

  function SetColorCodeRegionNext(s: Led, r: Region, c: u32, ok: bool): Led
  {
    var t := SetColorNext(s, r, c, ok);
    if SetColorSucceeds(s, r, ok) then WithZone(t, r, c) else t
  }

  // set_next_color_whole_kb: all four zones get the next palette colour.

  function PaletteColor(s: Led): u32
  {
    ColorList[PaletteNext(s.wholeKbdColor)]
  }

  /** The request log after the step: one colour request per zone, EXTRA included. */
  function SetNextColorWholeKbLog(log: seq<Call>, s: Led): seq<Call>
  {
    var c := PaletteColor(s);
    log + [SetColorCall(s.mode, Left, c)] + [SetColorCall(s.mode, Center, c)]
      + [SetColorCall(s.mode, Right, c)] + [SetColorCall(s.mode, Extra, c)]
  }

  function SetNextColorWholeKbNext(s: Led, ans: nat -> Reply, n: nat): Led
  {
    var c := PaletteColor(s);
    var s1 := SetColorCodeRegionNext(s, Left, c, Ok(ans, n));
    var s2 := SetColorCodeRegionNext(s1, Center, c, Ok(ans, n + 1));
    var s3 := SetColorCodeRegionNext(s2, Right, c, Ok(ans, n + 2));
    var s4 := SetColorCodeRegionNext(s3, Extra, c, Ok(ans, n + 3));
    s4.(wholeKbdColor := PaletteNext(s.wholeKbdColor))
  }

  // set_blinking_pattern: the pattern request, then for CUSTOM the stored colours again.

  /** The request log after re-sending the stored zone colours; EXTRA only when present. */
  function RestoreColorsLog(log: seq<Call>, s: Led): seq<Call>
  {
    var l := log + [SetColorCall(s.mode, Left, s.left)] + [SetColorCall(s.mode, Center, s.center)]
      + [SetColorCall(s.mode, Right, s.right)];
    if s.hasExtra == 1 then l + [SetColorCall(s.mode, Extra, s.extra)] else l
  }

  function SetBlinkingPatternLog(log: seq<Call>, s: Led, p: PatternId): seq<Call>
  {
    var l := log + [PatternCall(p)];
    if p == 0 then RestoreColorsLog(l, s) else l
  }

  function SetBlinkingPatternNext(s: Led, p: PatternId, ans: nat -> Reply, n: nat): Led
  {
    var s1 := if Ok(ans, n) then s.(blinkingPattern := p) else s;
    if p != 0 then s1
    else
      var s2 := SetColorNext(s1, Left, s.left, Ok(ans, n + 1));
      var s3 := SetColorNext(s2, Center, s.center, Ok(ans, n + 2));
      var s4 := SetColorNext(s3, Right, s.right, Ok(ans, n + 3));
      if s.hasExtra == 1 then SetColorNext(s4, Extra, s.extra, Ok(ans, n + 4)) else s4
  }

  // set_enabled: one power request; the store follows only on success.

  function SetEnabledNext(s: Led, state: u8, ok: bool): Led
  {
    if ok then s.(enabled := state) else s
  }

  // clevo_keyboard_event_callb: raw event codes of both firmware generations.

  const EventDecreaseBacklight: u32 := 0x81
  const EventIncreaseBacklight: u32 := 0x82
  const EventDecreaseBacklight2: u32 := 0x20
  const EventIncreaseBacklight2: u32 := 0x21
  const EventNextBlinkingPattern: u32 := 0x83
  const EventToggleState: u32 := 0x9F
  const EventToggleState2: u32 := 0x3F

  predicate IsDecrease(code: u32)
  {
    code == EventDecreaseBacklight2 || code == EventDecreaseBacklight
  }

  predicate IsIncrease(code: u32)
  {
    code == EventIncreaseBacklight2 || code == EventIncreaseBacklight
  }

  predicate IsToggle(code: u32)
  {
    code == EventToggleState2 || code == EventToggleState
  }

  function EventLog(log: seq<Call>, s: Led, code: u32): seq<Call>
  {
    if IsDecrease(code) then
      if s.mode == RGB then log + [BrightnessCall(RGB, RgbDecrease(s.brightness))]
      else log + [BrightnessCall(BW, BwDecrease(s.brightness))]
    else if IsIncrease(code) then
      if s.mode == RGB then log + [BrightnessCall(RGB, RgbIncrease(s.brightness))]
      else log + [BrightnessCall(BW, BwIncrease(s.brightness))]
    else if code == EventNextBlinkingPattern then
      if s.mode == RGB then SetNextColorWholeKbLog(log, s) else log
    else if IsToggle(code) then
      if s.mode == RGB then log + [PowerCall(ToggleEnabled(s.enabled))]
      else log + [BrightnessCall(BW, BwToggle(s.brightness))]
    else log
  }

  /** On BW the increase and decrease steps write the store before the request is made. */
  function EventNext(s: Led, code: u32, ans: nat -> Reply, n: nat): Led
  {
    if IsDecrease(code) then
      if s.mode == RGB then SetBrightnessNext(s, RgbDecrease(s.brightness), Ok(ans, n))
      else
        var t := s.(brightness := BwDecrease(s.brightness));
        SetBrightnessNext(t, t.brightness, Ok(ans, n))
    else if IsIncrease(code) then
      if s.mode == RGB then SetBrightnessNext(s, RgbIncrease(s.brightness), Ok(ans, n))
      else
        var t := s.(brightness := BwIncrease(s.brightness));
        SetBrightnessNext(t, t.brightness, Ok(ans, n))
    else if code == EventNextBlinkingPattern then
      if s.mode == RGB then SetNextColorWholeKbNext(s, ans, n) else s
    else if IsToggle(code) then
      if s.mode == RGB then SetEnabledNext(s, ToggleEnabled(s.enabled), Ok(ans, n))
      else SetBrightnessNext(s, BwToggle(s.brightness), Ok(ans, n))
    else s
  }

  // clevo_keyboard_write_state: replay the store into the hardware.

  function WriteStateLog(log: seq<Call>, s: Led): seq<Call>
  {
    if s.mode == RGB then
      SetBlinkingPatternLog(log, s, s.blinkingPattern)
        + [BrightnessCall(RGB, s.brightness)] + [PowerCall(s.enabled)]
    else log + [BrightnessCall(BW, s.brightness)]
  }
}
