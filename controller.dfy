/** The keyboard-light controller: the global state record and the functions that update
    it through the firmware. Every method states the requests it issues (appended to the
    firmware's log) and the state it leaves, as given by module LedSpec. */
module Controller {
  import opened Types
  import opened Encoding
  import opened Steps
  import opened Params
  import opened LedSpec
  import opened Transport

  class KbdLedState {
    var mode: Variant
    var hasExtra: u8
    var enabled: u8
    var colorLeft: u32
    var colorCenter: u32
    var colorRight: u32
    var colorExtra: u32
    var brightness: u8
    var blinkingPattern: PatternId
    var wholeKbdColor: u8

    /** The transport every command goes through. */
    const fw: Firmware

    function State(): Led
      reads this
    {
      Led(mode, hasExtra, enabled, colorLeft, colorCenter, colorRight, colorExtra,
          brightness, blinkingPattern, wholeKbdColor)
    }

    /** Module load: the static initialiser, then the variant detection, the seeding
        from the module parameters and a full write of the state to the hardware. */
    constructor Load(fw: Firmware, p: Settings)
      requires p.blinkingPattern < 8
      modifies fw
      ensures this.fw == fw
      ensures fw.calls == WriteStateLog(old(fw.calls) + [Call(SubmethodGetBios1, 0)], State())
      ensures var n := |old(fw.calls)|;
        State() == Seeded(DetectVariant(fw.answer(n).status, fw.answer(n).value), p)
    {
      this.fw := fw;
      mode, hasExtra, enabled := BW, 0, 1;
      colorLeft, colorCenter, colorRight, colorExtra := KbColorDefault, KbColorDefault, KbColorDefault, KbColorDefault;
      brightness, blinkingPattern, wholeKbdColor := BrightnessMax, 0, 5;
      new;
      Detect();
      Seed(p);
      WriteState();
    }

    /** Queries the feature register: RGB when the query succeeds and the white-only bit
        is clear; otherwise the variant stays BW. */
    method Detect()
      requires mode == BW
      modifies this`mode, fw
      ensures fw.calls == old(fw.calls) + [Call(SubmethodGetBios1, 0)]
      ensures var n := |old(fw.calls)|;
        mode == DetectVariant(fw.answer(n).status, fw.answer(n).value)
    {
      var status, features := fw.Evaluate(SubmethodGetBios1, 0);
      if status == 0 {
        if features / 0x4000_0000 % 2 == 0 {
          mode := RGB;
        }
      }
    }

    /** Seeds the store from the module parameters, for the variant already detected. */
    method Seed(p: Settings)
      requires p.blinkingPattern < 8
      requires hasExtra == Initial.hasExtra && wholeKbdColor == Initial.wholeKbdColor
      modifies this`colorLeft, this`colorCenter, this`colorRight, this`colorExtra,
        this`brightness, this`blinkingPattern, this`enabled
      ensures State() == Seeded(mode, p)
    {
      colorLeft, colorCenter, colorRight, colorExtra := p.colorLeft, p.colorCenter, p.colorRight, p.colorExtra;
      brightness := SeedBrightness(mode, p.brightness);
      blinkingPattern := p.blinkingPattern % 0x100;
      enabled := if p.state then 1 else 0;
    }

    method SetBrightness(b: u8)
      modifies this`brightness, fw
      ensures fw.calls == old(fw.calls) + [BrightnessCall(old(mode), b)]
      ensures State() == SetBrightnessNext(old(State()), b, Ok(fw.answer, |old(fw.calls)|))
    {
      if mode == RGB {
        var status, _ := fw.Evaluate(SubmethodSetKbLeds, Word(0xF4, 0, 0, b));
        if status == 0 {
          brightness := b;
        }
      } else {
        var status, _ := fw.Evaluate(SubmethodSetKbLedsBw, b);
        if status == 0 {
          brightness := b;
        }
      }
    }

    method SetColor(r: Region, c: u32) returns (err: u32)
      modifies this`brightness, fw
      ensures fw.calls == old(fw.calls) + [SetColorCall(old(mode), r, c)]
      ensures State() == SetColorNext(old(State()), r, c, Ok(fw.answer, |old(fw.calls)|))
      ensures err == if BwLeft(old(State()), r) then 0 else fw.answer(|old(fw.calls)|).status
    {
      if mode == BW && r == Left {
        SetBrightness(Byte(c, 0));
        return 0;
      }
      var status, _ := fw.Evaluate(SubmethodSetKbLeds, ColorArg(r, c));
      err := status;
    }

    /** Records the colour of zone r, as the switch on the region does. */
    method StoreZone(r: Region, c: u32)
      modifies this`colorLeft, this`colorCenter, this`colorRight, this`colorExtra
      ensures State() == WithZone(old(State()), r, c)
    {
      match r
      case Left => colorLeft := c;
      case Center => colorCenter := c;
      case Right => colorRight := c;
      case Extra => colorExtra := c;
    }

    method SetColorCodeRegion(r: Region, c: u32) returns (err: u32)
      modifies this`brightness, this`colorLeft, this`colorCenter, this`colorRight, this`colorExtra, fw
      ensures fw.calls == old(fw.calls) + [SetColorCall(old(mode), r, c)]
      ensures var ok := Ok(fw.answer, |old(fw.calls)|);
        State() == SetColorCodeRegionNext(old(State()), r, c, ok)
        && (err == 0 <==> SetColorSucceeds(old(State()), r, ok))
        && err == if BwLeft(old(State()), r) then 0 else fw.answer(|old(fw.calls)|).status
    {
      err := SetColor(r, c);
      if err == 0 {
        StoreZone(r, c);
      }
    }

    /** The control-surface colour write of zone r, on the already-parsed hex string. */
    method SetColorStringRegion(input: Parsed<u32>, size: int, r: Region) returns (ret: int)
      modifies this`brightness, this`colorLeft, this`colorCenter, this`colorRight, this`colorExtra, fw
      ensures input.Unparsable? ==>
        ret == input.errno && fw.calls == old(fw.calls) && State() == old(State())
      ensures input.Parsed? ==>
        && ret == size
        && fw.calls == old(fw.calls) + [SetColorCall(old(mode), r, input.value)]
        && State() == SetColorCodeRegionNext(old(State()), r, input.value, Ok(fw.answer, |old(fw.calls)|))
    {
      if input.Unparsable? {
        return input.errno;
      }
      var colorcode := input.value;
      var err := SetColor(r, colorcode);
      if err == 0 {
        StoreZone(r, colorcode);
      }
      return size;
    }

    method SetNextColorWholeKb() returns (ret: int)
      modifies this`brightness, this`colorLeft, this`colorCenter, this`colorRight, this`colorExtra,
        this`wholeKbdColor, fw
      ensures ret == 0
      ensures fw.calls == SetNextColorWholeKbLog(old(fw.calls), old(State()))
      ensures State() == SetNextColorWholeKbNext(old(State()), fw.answer, |old(fw.calls)|)
    {
      var newColorId := PaletteNext(wholeKbdColor);
      var newColorCode := ColorList[newColorId];
      var _ := SetColorCodeRegion(Left, newColorCode);
      var _ := SetColorCodeRegion(Center, newColorCode);
      var _ := SetColorCodeRegion(Right, newColorCode);
      var _ := SetColorCodeRegion(Extra, newColorCode);
      wholeKbdColor := newColorId;
      ret := 0;
    }

    method SetBlinkingPattern(p: PatternId)
      modifies this`blinkingPattern, this`brightness, fw
      ensures fw.calls == SetBlinkingPatternLog(old(fw.calls), old(State()), p)
      ensures State() == SetBlinkingPatternNext(old(State()), p, fw.answer, |old(fw.calls)|)
    {
      var status, _ := fw.Evaluate(SubmethodSetKbLeds, BlinkingPatterns[p]);
      if status == 0 {
        blinkingPattern := p;
      }
      if p == 0 {
        var _ := SetColor(Left, colorLeft);
        var _ := SetColor(Center, colorCenter);
        var _ := SetColor(Right, colorRight);
        if hasExtra == 1 {
          var _ := SetColor(Extra, colorExtra);
        }
      }
    }

    method SetEnabledCmd(state: u8) returns (status: u32)
      modifies fw
      ensures fw.calls == old(fw.calls) + [PowerCall(state)]
      ensures status == fw.answer(|old(fw.calls)|).status
    {
      var ret, _ := fw.Evaluate(SubmethodSetKbLeds, PowerArg(state));
      status := ret;
    }

    method SetEnabled(state: u8)
      modifies this`enabled, fw
      ensures fw.calls == old(fw.calls) + [PowerCall(state)]
      ensures State() == SetEnabledNext(old(State()), state, Ok(fw.answer, |old(fw.calls)|))
    {
      var status := SetEnabledCmd(state);
      if status == 0 {
        enabled := state;
      }
    }

    /** The hardware-event decoder, for the event codes of both firmware generations. */
    method KeyboardEventCallback(code: u32)
      modifies this`brightness, this`enabled, this`colorLeft, this`colorCenter, this`colorRight,
        this`colorExtra, this`wholeKbdColor, fw
      ensures fw.calls == EventLog(old(fw.calls), old(State()), code)
      ensures State() == EventNext(old(State()), code, fw.answer, |old(fw.calls)|)
    {
      if IsDecrease(code) {
        if mode == RGB {
          SetBrightness(RgbDecrease(brightness));
        } else {
          brightness := BwDecrease(brightness);
          SetBrightness(brightness);
        }
      } else if IsIncrease(code) {
        if mode == RGB {
          SetBrightness(RgbIncrease(brightness));
        } else {
          brightness := BwIncrease(brightness);
          SetBrightness(brightness);
        }
      } else if code == EventNextBlinkingPattern {
        if mode == RGB {
          var _ := SetNextColorWholeKb();
        }
      } else if IsToggle(code) {
        if mode == RGB {
          SetEnabled(ToggleEnabled(enabled));
        } else {
          SetBrightness(BwToggle(brightness));
        }
      }
    }

    /** Replays the store into the hardware; the store itself is left as it was. */
    method WriteState()
      modifies this`blinkingPattern, this`brightness, this`enabled, fw
      ensures fw.calls == WriteStateLog(old(fw.calls), old(State()))
      ensures State() == old(State())
    {
      if mode == RGB {
        SetBlinkingPattern(blinkingPattern);
        SetBrightness(brightness);
        SetEnabled(enabled);
      } else {
        SetBrightness(brightness);
      }
    }

    /** Before suspend an RGB keyboard is switched off in hardware only. */
    method Suspend() returns (ret: int)
      modifies fw
      ensures ret == 0
      ensures fw.calls == old(fw.calls) + (if mode == RGB then [PowerCall(0)] else [])
      ensures State() == old(State())
    {
      if mode == RGB {
        var _ := SetEnabledCmd(0);
      }
      ret := 0;
    }

    /** After resume the event query is re-armed and the whole store replayed. */
    method Resume() returns (ret: int)
      modifies this`blinkingPattern, this`brightness, this`enabled, fw
      ensures ret == 0
      ensures fw.calls == WriteStateLog(old(fw.calls) + [Call(SubmethodGetAp, 0)], old(State()))
      ensures State() == old(State())
    {
      var _, _ := fw.Evaluate(SubmethodGetAp, 0);
      WriteState();
      ret := 0;
    }

    /** The control-surface brightness write, on the already-parsed value. */
    method SetBrightnessFs(input: Parsed<u32>, size: int) returns (ret: int)
      modifies this`brightness, fw
      ensures input.Unparsable? ==>
        ret == input.errno && fw.calls == old(fw.calls) && State() == old(State())
      ensures input.Parsed? ==>
        var b := FsBrightness(old(mode), input.value);
        && ret == size
        && fw.calls == old(fw.calls) + [BrightnessCall(old(mode), b)]
        && State() == SetBrightnessNext(old(State()), b, Ok(fw.answer, |old(fw.calls)|))
    {
      if input.Unparsable? {
        return input.errno;
      }
      SetBrightness(FsBrightness(mode, input.value));
      return size;
    }

    /** The control-surface power-state write, on the already-parsed value. */
    method SetStateFs(input: Parsed<u32>, size: int) returns (ret: int)
      modifies this`enabled, fw
      ensures input.Unparsable? ==>
        ret == input.errno && fw.calls == old(fw.calls) && State() == old(State())
      ensures input.Parsed? ==>
        var e := FsState(input.value);
        && ret == size
        && fw.calls == old(fw.calls) + [PowerCall(e)]
        && State() == SetEnabledNext(old(State()), e, Ok(fw.answer, |old(fw.calls)|))
    {
      if input.Unparsable? {
        return input.errno;
      }
      SetEnabled(FsState(input.value));
      return size;
    }
  }
}
