/** The command encoder: constants of the firmware interface and the argument layouts
    of the brightness, colour, blinking-pattern and power commands. The driver builds
    each argument by OR-ing byte fields that do not overlap; the model assembles the
    same bytes with `Word`. */
module Encoding {
  import opened Types

  // Firmware submethod ids.
  const SubmethodGetAp: u8 := 0x46
  const SubmethodSetKbLeds: u8 := 0x67
  const SubmethodSetKbLedsBw: u8 := 0x27
  const SubmethodGetBios1: u8 := 0x52

  // Brightness scale.
  const BrightnessMin: int := 0
  const BrightnessMax: int := 255
  const BrightnessMaxBw: int := 5
  const BrightnessStep: int := 25

  /** Default colour of every zone. */
  const KbColorDefault: u32 := 0xFF_FFFF

  /** Activation words of the eight blinking patterns CUSTOM, BREATHE, CYCLE, DANCE,
      FLASH, RANDOM_COLOR, TEMPO, WAVE, indexed by pattern number. */
  const BlinkingPatterns: seq<u32> :=
    [0, 0x1002_A000, 0x3301_0000, 0x8000_0000, 0xA000_0000, 0x7000_0000, 0x9000_0000, 0xB000_0000]

  /** A blinking-pattern number: an index of the pattern table. */
  type PatternId = p: int | 0 <= p < 8

  /** The palette BLACK, RED, GREEN, BLUE, YELLOW, MAGENTA, CYAN, WHITE cycled through by
      the whole-keyboard colour step, as 0xRRGGBB. */
  const ColorList: seq<u32> :=
    [0x00_0000, 0xFF_0000, 0x00_FF00, 0x00_00FF, 0xFF_FF00, 0xFF_00FF, 0x00_FFFF, 0xFF_FFFF]

  /** The word with bytes b3 (most significant) down to b0. */
  function Word(b3: u8, b2: u8, b1: u8, b0: u8): u32
  {
    b3 * 0x100_0000 + b2 * 0x1_0000 + b1 * 0x100 + b0
  }

  /** Assembling bytes and reading them back gives the same bytes. */
  lemma WordBytes(b3: u8, b2: u8, b1: u8, b0: u8)
    ensures Byte(Word(b3, b2, b1, b0), 0) == b0
    ensures Byte(Word(b3, b2, b1, b0), 1) == b1
    ensures Byte(Word(b3, b2, b1, b0), 2) == b2
    ensures Byte(Word(b3, b2, b1, b0), 3) == b3
  {
    var x := Word(b3, b2, b1, b0);
    assert x == (b3 * 0x1_0000 + b2 * 0x100 + b1) * 0x100 + b0;
    assert x / 0x100 == (b3 * 0x100 + b2) * 0x100 + b1;
    assert x / 0x100 / 0x100 == b3 * 0x100 + b2;
  }

  /** The top byte of a zone's address constant: 0xF0 for LEFT up to 0xF3 for EXTRA. */
  function RegionByte(r: Region): u8
  {
    match r
    case Left => 0xF0
    case Center => 0xF1
    case Right => 0xF2
    case Extra => 0xF3
  }

  /** The address constant of a zone: its top byte names the zone, the rest is zero. */
  function RegionCode(r: Region): u32
  {
    Word(RegionByte(r), 0, 0, 0)
  }

  /** Repacks a colour 0xRRGGBB into the firmware's byte order 0xBBRRGG (blue, red,
      green): the blue byte moves to the top, red and green each move down one byte,
      and the byte above them is dropped. */
  function Repack(color: u32): u32
  {
    Word(0, Byte(color, 0), Byte(color, 2), Byte(color, 1))
  }

  /** Argument of a zone-colour command: the zone's address constant OR the repacked
      colour, whose fields do not overlap. */
  function ColorArg(r: Region, color: u32): u32
  {
    Word(RegionByte(r), Byte(color, 0), Byte(color, 2), Byte(color, 1))
  }

  /** The zone-colour request. */
  function ColorCall(r: Region, color: u32): Call
  {
    Call(SubmethodSetKbLeds, ColorArg(r, color))
  }

  /** The brightness request: on RGB the LED submethod with 0xF4000000 OR b, on BW the
      dedicated BW submethod with b itself. */
  function BrightnessCall(v: Variant, b: u8): Call
  {
    if v == RGB then Call(SubmethodSetKbLeds, Word(0xF4, 0, 0, b))
    else Call(SubmethodSetKbLedsBw, b)
  }

  /** The power command word: 0xE0000000 OR 0x003001 (off) for state 0, OR 0x07F001
      (on) for any other state. */
  function PowerArg(state: u8): u32
  {
    if state == 0 then 0xE000_3001 else 0xE007_F001
  }

  /** The power request. */
  function PowerCall(state: u8): Call
  {
    Call(SubmethodSetKbLeds, PowerArg(state))
  }

  /** The request that activates blinking pattern `p`. */
  function PatternCall(p: PatternId): Call
  {
    Call(SubmethodSetKbLeds, BlinkingPatterns[p])
  }

  /** The repacking is the driver's shift-and-mask expression: the low byte shifted up
      by 16, the top colour byte shifted down by 8, the middle one shifted down by 8,
      added together as their fields do not overlap. */
  lemma RepackIsShiftMask(color: u32)
    ensures Repack(color)
      == (color % 0x100) * 0x1_0000 + (color / 0x1_0000 % 0x100) * 0x100 + (color / 0x100 % 0x100)
  {
  }

  /** A zone's address constant: the top byte names the zone, the other three are zero. */
  lemma RegionCodeLayout(r: Region)
    ensures Byte(RegionCode(r), 3) == 0xF0 + match r case Left => 0 case Center => 1 case Right => 2 case Extra => 3
    ensures Byte(RegionCode(r), 2) == 0 && Byte(RegionCode(r), 1) == 0 && Byte(RegionCode(r), 0) == 0
  {
    WordBytes(RegionByte(r), 0, 0, 0);
  }

  /** The repacking puts blue in byte 2, red in byte 1, green in byte 0, and clears byte 3. */
  lemma RepackLayout(color: u32)
    ensures Byte(Repack(color), 3) == 0
    ensures Byte(Repack(color), 2) == Byte(color, 0)
    ensures Byte(Repack(color), 1) == Byte(color, 2)
    ensures Byte(Repack(color), 0) == Byte(color, 1)
  {
    WordBytes(0, Byte(color, 0), Byte(color, 2), Byte(color, 1));
  }

  /** A colour argument is the zone's address constant and the repacked colour added
      together, that is their bitwise OR, as no bit is set in both. */
  lemma ColorArgIsRegionOrColor(r: Region, color: u32)
    ensures ColorArg(r, color) == RegionCode(r) + Repack(color)
    ensures Byte(ColorArg(r, color), 3) == Byte(RegionCode(r), 3)
    ensures Byte(ColorArg(r, color), 2) == Byte(Repack(color), 2)
    ensures Byte(ColorArg(r, color), 1) == Byte(Repack(color), 1)
    ensures Byte(ColorArg(r, color), 0) == Byte(Repack(color), 0)
  {
    RegionCodeLayout(r);
    RepackLayout(color);
    WordBytes(RegionByte(r), Byte(color, 0), Byte(color, 2), Byte(color, 1));
  }

  /** A brightness request carries the level in its low byte; on RGB the top byte is the
      brightness selector 0xF4, on BW the argument is the level alone. */
  lemma BrightnessCallLayout(v: Variant, b: u8)
    ensures v == RGB ==> BrightnessCall(v, b).cmd == SubmethodSetKbLeds && Byte(BrightnessCall(v, b).arg, 3) == 0xF4
    ensures v == BW ==> BrightnessCall(v, b).cmd == SubmethodSetKbLedsBw && Byte(BrightnessCall(v, b).arg, 3) == 0
    ensures Byte(BrightnessCall(v, b).arg, 2) == 0 && Byte(BrightnessCall(v, b).arg, 1) == 0
    ensures Byte(BrightnessCall(v, b).arg, 0) == b
  {
    WordBytes(0xF4, 0, 0, b);
    WordBytes(0, 0, 0, b);
  }

  /** The power word is the off word for state 0 and the on word for every other state;
      the two differ only in bytes 2 and 1. */
  lemma PowerArgLayout(state: u8)
    ensures (PowerArg(state) == Word(0xE0, 0x00, 0x30, 0x01)) == (state == 0)
    ensures (PowerArg(state) == Word(0xE0, 0x07, 0xF0, 0x01)) == (state != 0)
  {
  }

  /** Colour bits above bit 24 never reach the firmware. */
  lemma ColorArgIgnoresTopByte(r: Region, c1: u32, c2: u32)
    requires Byte(c1, 0) == Byte(c2, 0) && Byte(c1, 1) == Byte(c2, 1) && Byte(c1, 2) == Byte(c2, 2)
    ensures ColorArg(r, c1) == ColorArg(r, c2)
  {
  }

  /** Equal colour arguments for a zone come from colours with the same three low
      bytes: the repacking loses nothing, so the firmware can tell every colour apart. */
  lemma {:induction false} ColorArgDeterminesColor(r: Region, c1: u32, c2: u32)
    requires ColorArg(r, c1) == ColorArg(r, c2)
    ensures Byte(c1, 0) == Byte(c2, 0) && Byte(c1, 1) == Byte(c2, 1) && Byte(c1, 2) == Byte(c2, 2)
  {
    WordBytes(RegionByte(r), Byte(c1, 0), Byte(c1, 2), Byte(c1, 1));
    WordBytes(RegionByte(r), Byte(c2, 0), Byte(c2, 2), Byte(c2, 1));
  }

  /** The worked example: LEFT with 0x1A2B3C is 0xF03C1A2B, which is not the red/blue
      swap 0xF03C2B1A. */
  lemma ColorArgExample()
    ensures Repack(0x1A_2B3C) == 0x3C_1A2B
    ensures ColorArg(Left, 0x1A_2B3C) == 0xF03C_1A2B
    ensures ColorArg(Left, 0x1A_2B3C) != 0xF03C_2B1A
  {
  }
}
