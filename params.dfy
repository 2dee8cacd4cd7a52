/** Input bounding: the module-parameter validators, the control-surface conversions of
    brightness and power state, and the variant detection and brightness seeding done
    at load time. */
module Params {
  import opened Types
  import opened Encoding

  /** Outcome of a module-parameter validator: the value stored, or the error returned. */
  datatype ParamSet = Accepted(value: int) | Rejected(errno: int)

  /** The module parameters the state is seeded from. `blinkingPattern` and `brightness`
      are the stored (validated) values; `brightness` is 0xFFFF when never set. */
  datatype Settings = Settings(
    colorLeft: u32, colorCenter: u32, colorRight: u32, colorExtra: u32,
    state: bool, blinkingPattern: u16, brightness: u16)

  /** The parameters' defaults: white zones, powered on, CUSTOM, brightness unset. */
  const DefaultSettings: Settings :=
    Settings(KbColorDefault, KbColorDefault, KbColorDefault, KbColorDefault, true, 0, 0xFFFF)

  /** The blinking-pattern validator: accepts exactly the indices of the pattern table. */
  function ValidateBlinkingPattern(input: Parsed<int>): (r: ParamSet)
    ensures r.Accepted? <==> input.Parsed? && 0 <= input.value < |BlinkingPatterns|
    ensures r.Accepted? ==> r.value == input.value
    ensures r.Rejected? ==> r.errno == -EINVAL
  {
    if input.Unparsable? || input.value < 0 || input.value > |BlinkingPatterns| - 1 then Rejected(-EINVAL)
    else Accepted(input.value)
  }

  /** The brightness validator: accepts exactly 0..255. */
  function ValidateBrightness(input: Parsed<int>): (r: ParamSet)
    ensures r.Accepted? <==> input.Parsed? && BrightnessMin <= input.value <= BrightnessMax
    ensures r.Accepted? ==> r.value == input.value
    ensures r.Rejected? ==> r.errno == -EINVAL
  {
    if input.Unparsable? || input.value < BrightnessMin || input.value > BrightnessMax then Rejected(-EINVAL)
    else Accepted(input.value)
  }

  /** The brightness a control-surface write requests: the value cast to u8, and on BW
      divided by 255 / 5 = 51 onto the range 0..5. */
  function FsBrightness(v: Variant, val: u32): (r: u8)
    ensures v == RGB ==> r == Byte(val, 0)
    ensures v == BW ==> r <= BrightnessMaxBw && r * 51 <= Byte(val, 0) < (r + 1) * 51
  {
    var b := Byte(val, 0);
    if v == BW then b / (BrightnessMax / BrightnessMaxBw) else b
  }

  /** The power state a control-surface write requests: the value cast to u8, then
      clamped to 0..1, so any value whose low byte is not 0 means "on". */
  function FsState(val: u32): (r: u8)
    ensures r <= 1
    ensures (r == 0) == (Byte(val, 0) == 0)
  {
    var s := Byte(val, 0);
    if s > 1 then 1 else s
  }

  /** The variant found at load time: RGB exactly when the feature-register query
      succeeds and bit 0x40000000 is clear; BW otherwise. */
  function DetectVariant(status: u32, features: u32): (v: Variant)
    ensures v == RGB <==> status == 0 && !WhiteOnly(features)
  {
    if status == 0 && features / 0x4000_0000 % 2 == 0 then RGB else BW
  }

  /** Bit 30 of the feature word, set on white-only keyboards. */
  predicate WhiteOnly(features: u32)
  {
    Byte(features, 3) / 0x40 % 2 == 1
  }

  /** The brightness the state is seeded with: the parameter, replaced by the variant's
      default (its maximum) when above the variant's maximum. */
  function SeedBrightness(v: Variant, param: u16): (r: u8)
    ensures r == Min(param, if v == RGB then BrightnessMax else BrightnessMaxBw)
  {
    var max := if v == RGB then BrightnessMax else BrightnessMaxBw;
    var p: u16 := if param > max then max else param;
    p % 0x100
  }

  /** An unset brightness parameter seeds the variant's maximum. */
  lemma SeedUnsetIsMaximum()
    ensures SeedBrightness(RGB, DefaultSettings.brightness) == 255
    ensures SeedBrightness(BW, DefaultSettings.brightness) == 5
  {
  }
}
