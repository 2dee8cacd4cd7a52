/** The brightness, power and palette steps the hardware-event decoder requests, on the
    u8 fields of the LED state. */
module Steps {
  import opened Types
  import opened Encoding

  /** RGB "decrease backlight": one step of 25 down, saturating at 0. */
  function RgbDecrease(b: u8): (r: u8)
    ensures r == Max(b - BrightnessStep, BrightnessMin)
  {
    if b == BrightnessMin || b - BrightnessStep < BrightnessMin then BrightnessMin
    else b - BrightnessStep
  }

  /** RGB "increase backlight": one step of 25 up, saturating at 255. */
  function RgbIncrease(b: u8): (r: u8)
    ensures r == Min(b + BrightnessStep, BrightnessMax)
  {
    if b == BrightnessMax || b + BrightnessStep > BrightnessMax then BrightnessMax
    else b + BrightnessStep
  }

  /** BW "decrease backlight": one unit down unless already 0. */
  function BwDecrease(b: u8): (r: u8)
    ensures r == Max(b - 1, BrightnessMin)
  {
    if b > BrightnessMin then b - 1 else b
  }

  /** BW "increase backlight": the u8 increment wraps (255 becomes 0) before the cap
      at 5 is applied. */
  function BwIncrease(b: u8): (r: u8)
    ensures b < BrightnessMaxBw ==> r == b + 1
    ensures BrightnessMaxBw <= b < 0xFF ==> r == BrightnessMaxBw
    ensures b == 0xFF ==> r == 0
  {
    var n: u8 := (b + 1) % 0x100;
    if n > BrightnessMaxBw then BrightnessMaxBw else n
  }

  /** BW "toggle": full brightness when dark, dark otherwise. */
  function BwToggle(b: u8): (r: u8)
    ensures b == 0 ==> r == BrightnessMaxBw
    ensures b != 0 ==> r == 0
  {
    if b == 0 then BrightnessMaxBw else 0
  }

  /** RGB "toggle": the power state requested from the current one. */
  function ToggleEnabled(e: u8): (r: u8)
    ensures r <= 1
    ensures (r == 0) == (e != 0)
  {
    if e == 0 then 1 else 0
  }

  /** Index of the next palette colour: one past the current one, back to 0 past the end. */
  function PaletteNext(i: u8): (r: u8)
    ensures (r) < |ColorList|
    ensures i < |ColorList| ==> r == (i + 1) % |ColorList|
    ensures |ColorList| <= i ==> r == 0
  {
    var id: u32 := i + 1;
    if id >= |ColorList| then 0 else id
  }

  // Repeated key presses.

  function RgbDecreaseTimes(b: u8, n: nat): u8
    decreases n
  {
    if n == 0 then b else RgbDecreaseTimes(RgbDecrease(b), n - 1)
  }

  function RgbIncreaseTimes(b: u8, n: nat): u8
    decreases n
  {
    if n == 0 then b else RgbIncreaseTimes(RgbIncrease(b), n - 1)
  }

  function BwDecreaseTimes(b: u8, n: nat): u8
    decreases n
  {
    if n == 0 then b else BwDecreaseTimes(BwDecrease(b), n - 1)
  }

  function BwIncreaseTimes(b: u8, n: nat): u8
    decreases n
  {
    if n == 0 then b else BwIncreaseTimes(BwIncrease(b), n - 1)
  }

  function PaletteNextTimes(i: u8, n: nat): u8
    decreases n
  {
    if n == 0 then i else PaletteNextTimes(PaletteNext(i), n - 1)
  }

  /** n RGB decreases lower the brightness by 25 n, stopping at 0. */
  lemma {:induction false} RgbDecreaseSaturates(b: u8, n: nat)
    ensures RgbDecreaseTimes(b, n) == Max(b - BrightnessStep * n, BrightnessMin)
    decreases n
  {
    if n > 0 {
      RgbDecreaseSaturates(RgbDecrease(b), n - 1);
    }
  }

  /** n RGB increases raise the brightness by 25 n, stopping at 255. */
  lemma {:induction false} RgbIncreaseSaturates(b: u8, n: nat)
    ensures RgbIncreaseTimes(b, n) == Min(b + BrightnessStep * n, BrightnessMax)
    decreases n
  {
    if n > 0 {
      RgbIncreaseSaturates(RgbIncrease(b), n - 1);
    }
  }

  /** From full RGB brightness one decrease gives 230, and eleven reach 0. */
  lemma RgbDecreaseFromFull()
    ensures RgbDecreaseTimes(255, 1) == 230
    ensures RgbDecreaseTimes(255, 11) == 0
  {
    RgbDecreaseSaturates(255, 1);
    RgbDecreaseSaturates(255, 11);
  }

  /** n BW decreases lower the brightness by n, stopping at 0. */
  lemma {:induction false} BwDecreaseSaturates(b: u8, n: nat)
    ensures BwDecreaseTimes(b, n) == Max(b - n, BrightnessMin)
    decreases n
  {
    if n > 0 {
      BwDecreaseSaturates(BwDecrease(b), n - 1);
    }
  }

  /** From a brightness within the BW range, n increases raise it by n, stopping at 5. */
  lemma {:induction false} BwIncreaseSaturates(b: u8, n: nat)
    requires b <= BrightnessMaxBw
    ensures BwIncreaseTimes(b, n) == Min(b + n, BrightnessMaxBw)
    decreases n
  {
    if n > 0 {
      BwIncreaseSaturates(BwIncrease(b), n - 1);
    }
  }

  /** Outside the BW range the increment wraps: 255 goes to 0, not to 5. */
  lemma BwIncreaseWrapsAt255()
    ensures BwIncrease(255) == 0
    ensures forall b: u8 :: 5 <= b < 255 ==> BwIncrease(b) == BrightnessMaxBw
  {
  }

  /** Toggling twice restores a BW brightness of 0 or 5, and the power state 0 or 1. */
  lemma TogglesAreInvolutions(b: u8, e: u8)
    ensures b == 0 || b == BrightnessMaxBw ==> BwToggle(BwToggle(b)) == b
    ensures e <= 1 ==> ToggleEnabled(ToggleEnabled(e)) == e
  {
  }

  /** n palette steps from a valid index advance it by n modulo the palette size. */
  lemma {:induction false} PaletteNextTimesMod(i: u8, n: nat)
    requires (i) < |ColorList|
    ensures PaletteNextTimes(i, n) == (i + n) % |ColorList|
    decreases n
  {
    if n > 0 {
      var j := PaletteNext(i);
      PaletteNextTimesMod(j, n - 1);
      if i + 1 < |ColorList| {
        assert j + (n - 1) == i + n;
      } else {
        assert j == 0 && i + n == (n - 1) + |ColorList|;
      }
    }
  }

  /** Eight palette steps return to the starting index. */
  lemma PaletteCycles(i: u8)
    requires (i) < |ColorList|
    ensures PaletteNextTimes(i, |ColorList|) == i
  {
    PaletteNextTimesMod(i, |ColorList|);
  }
}
