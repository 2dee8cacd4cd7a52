/** What the controller's operations guarantee, stated on the specification functions of
    module LedSpec that the class in module Controller is proved to follow. `ans` is the
    firmware's answer to each request, by position in the request log, and `n` the
    position of an operation's first request: a property stated for all `ans` holds
    whatever the firmware answers. */
module Properties {
  import opened Types
  import opened Encoding
  import opened Steps
  import opened Params
  import opened LedSpec

  // ----- Colour encoding -----

  /** Outside the BW LEFT case a colour write is one LED request whose argument is the
      zone constant OR the repacked colour: the zone's byte on top, then blue, red, green. */
  lemma ColorRequestEncoding(v: Variant, r: Region, c: u32)
    requires !(v == BW && r == Left)
    ensures SetColorCall(v, r, c).cmd == SubmethodSetKbLeds
    ensures SetColorCall(v, r, c).arg == RegionCode(r) + Repack(c)
    ensures Byte(SetColorCall(v, r, c).arg, 3) == RegionByte(r)
    ensures Byte(SetColorCall(v, r, c).arg, 2) == Byte(c, 0)
    ensures Byte(SetColorCall(v, r, c).arg, 1) == Byte(c, 2)
    ensures Byte(SetColorCall(v, r, c).arg, 0) == Byte(c, 1)
  {
    ColorArgIsRegionOrColor(r, c);
    RegionCodeLayout(r);
    RepackLayout(c);
  }

  /** On BW the LEFT "colour" is the brightness request for the colour's low byte. */
  lemma BwLeftColorIsBrightness(c: u32)
    ensures SetColorCall(BW, Left, c) == BrightnessCall(BW, Byte(c, 0))
    ensures SetColorCall(BW, Left, c) == Call(SubmethodSetKbLedsBw, Byte(c, 0))
  {
  }

  /** Writing 0xFF to the BW LEFT zone, which the firmware accepts, leaves a brightness
      of 255, outside the BW range 0..5; one increase step from there wraps it to 0. */
  lemma BwLeftLeavesRange()
    ensures var s := Initial.(brightness := 0);
      var t := SetColorCodeRegionNext(s, Left, 0xFF, true);
      && t.brightness == 0xFF && t.brightness > BrightnessMaxBw
      && t.left == 0xFF
      && BwIncrease(t.brightness) == 0
  {
  }

  // ----- The store changes only on success -----

  /** set_brightness records the level exactly when the firmware accepts it. */
  lemma BrightnessStoredOnlyOnSuccess(s: Led, b: u8, ok: bool)
    ensures ok ==> SetBrightnessNext(s, b, ok) == s.(brightness := b)
    ensures !ok ==> SetBrightnessNext(s, b, ok) == s
  {
  }

  /** set_enabled records the power state exactly when the firmware accepts it. */
  lemma EnabledStoredOnlyOnSuccess(s: Led, state: u8, ok: bool)
    ensures ok ==> SetEnabledNext(s, state, ok) == s.(enabled := state)
    ensures !ok ==> SetEnabledNext(s, state, ok) == s
  {
  }

  /** A zone-colour write records the zone exactly when the firmware accepts it, and
      changes nothing else; the BW LEFT zone is the exception: the colour is recorded
      whatever the firmware says, and the brightness follows only on success. */
  lemma ZoneStoredOnlyOnSuccess(s: Led, r: Region, c: u32, ok: bool)
    ensures !BwLeft(s, r) && ok ==> SetColorCodeRegionNext(s, r, c, ok) == WithZone(s, r, c)
    ensures !BwLeft(s, r) && !ok ==> SetColorCodeRegionNext(s, r, c, ok) == s
    ensures BwLeft(s, r) ==>
      SetColorCodeRegionNext(s, r, c, ok) == s.(left := c, brightness := if ok then Byte(c, 0) else s.brightness)
  {
  }

  /** After a zone-colour write the zone holds either its old colour or the new one. */
  lemma ZoneAfterWrite(s: Led, r: Region, c: u32, ok: bool)
    ensures var t := SetColorCodeRegionNext(s, r, c, ok);
      && (Zone(t, r) == c <==> SetColorSucceeds(s, r, ok) || Zone(s, r) == c)
      && (forall q :: q != r ==> Zone(t, q) == Zone(s, q))
      && t.mode == s.mode && t.blinkingPattern == s.blinkingPattern && t.enabled == s.enabled
      && t.hasExtra == s.hasExtra && t.wholeKbdColor == s.wholeKbdColor
      && (!BwLeft(s, r) ==> t.brightness == s.brightness)
  {
  }

  // ----- Events on RGB -----

  /** On RGB the decrease and increase codes request one step of 25 down or up, clamped
      to 0..255; the store takes the new level only on success and nothing else changes. */
  lemma RgbBrightnessEvents(log: seq<Call>, s: Led, code: u32, ans: nat -> Reply, n: nat)
    requires s.mode == RGB
    ensures IsDecrease(code) ==>
      && EventLog(log, s, code) == log + [BrightnessCall(RGB, Max(s.brightness - 25, 0))]
      && EventNext(s, code, ans, n)
         == if Ok(ans, n) then s.(brightness := Max(s.brightness - 25, 0)) else s
    ensures IsIncrease(code) ==>
      && EventLog(log, s, code) == log + [BrightnessCall(RGB, Min(s.brightness + 25, 255))]
      && EventNext(s, code, ans, n)
         == if Ok(ans, n) then s.(brightness := Min(s.brightness + 25, 255)) else s
  {
  }

  /** On RGB the toggle codes request power on when the state is 0 and off otherwise;
      the state is stored on success, and nothing else changes. */
  lemma RgbToggleEvent(log: seq<Call>, s: Led, code: u32, ans: nat -> Reply, n: nat)
    requires s.mode == RGB && IsToggle(code)
    ensures var e := if s.enabled == 0 then 1 else 0;
      && EventLog(log, s, code) == log + [PowerCall(e)]
      && EventNext(s, code, ans, n) == if Ok(ans, n) then s.(enabled := e) else s
    ensures s.enabled <= 1 ==> EventLog(log, s, code) == log + [PowerCall(1 - s.enabled)]
  {
  }

  /** On RGB the palette code runs the whole-keyboard colour step. */
  lemma RgbPaletteEvent(log: seq<Call>, s: Led, ans: nat -> Reply, n: nat)
    requires s.mode == RGB
    ensures EventLog(log, s, EventNextBlinkingPattern) == SetNextColorWholeKbLog(log, s)
    ensures EventNext(s, EventNextBlinkingPattern, ans, n) == SetNextColorWholeKbNext(s, ans, n)
  {
  }

  /** A code that is none of the known ones issues nothing and changes nothing. */
  lemma UnknownEventIsInert(log: seq<Call>, s: Led, code: u32, ans: nat -> Reply, n: nat)
    requires !IsDecrease(code) && !IsIncrease(code) && !IsToggle(code)
    requires code != EventNextBlinkingPattern
    ensures EventLog(log, s, code) == log
    ensures EventNext(s, code, ans, n) == s
  {
  }

  // ----- Events on BW -----

  /** On BW the increase and decrease steps store the new level before the request, so
      it stays even when the firmware refuses it. */
  lemma BwStepsStoreFirst(log: seq<Call>, s: Led, code: u32, ans: nat -> Reply, n: nat)
    requires s.mode == BW
    ensures IsDecrease(code) ==>
      && EventLog(log, s, code) == log + [BrightnessCall(BW, Max(s.brightness - 1, 0))]
      && EventNext(s, code, ans, n) == s.(brightness := Max(s.brightness - 1, 0))
    ensures IsIncrease(code) ==>
      && EventLog(log, s, code) == log + [BrightnessCall(BW, BwIncrease(s.brightness))]
      && EventNext(s, code, ans, n) == s.(brightness := BwIncrease(s.brightness))
  {
  }

  /** On BW both toggle codes request full brightness when dark and dark otherwise, and
      the palette code does nothing. */
  lemma BwToggleAndPaletteEvents(log: seq<Call>, s: Led, code: u32, ans: nat -> Reply, n: nat)
    requires s.mode == BW
    ensures IsToggle(code) ==>
      var b := if s.brightness == 0 then BrightnessMaxBw else 0;
      && EventLog(log, s, code) == log + [BrightnessCall(BW, b)]
      && EventNext(s, code, ans, n) == if Ok(ans, n) then s.(brightness := b) else s
    ensures EventLog(log, s, EventNextBlinkingPattern) == log
    ensures EventNext(s, EventNextBlinkingPattern, ans, n) == s
  {
  }

  /** One event never changes the variant, and on BW keeps a brightness of 0..5 within
      0..5, whatever the firmware answers. */
  lemma EventKeepsBwRange(s: Led, code: u32, ans: nat -> Reply, n: nat)
    ensures EventNext(s, code, ans, n).mode == s.mode
    ensures s.enabled <= 1 ==> EventNext(s, code, ans, n).enabled <= 1
    ensures s.mode == BW && s.brightness <= BrightnessMaxBw ==>
      EventNext(s, code, ans, n).brightness <= BrightnessMaxBw
  {
  }

  /** The state and request log after a series of hardware events, each handled as
      the event decoder does, with the answers read at the log's positions. */
  function RunEvents(s: Led, log: seq<Call>, codes: seq<u32>, ans: nat -> Reply): (Led, seq<Call>)
    decreases |codes|
  {
    if codes == [] then (s, log)
    else RunEvents(EventNext(s, codes[0], ans, |log|), EventLog(log, s, codes[0]), codes[1..], ans)
  }

  /** Any series of events keeps the variant, only appends to the request log, and on BW
      keeps a brightness of 0..5 within 0..5, whatever the firmware answers. */
  lemma {:induction false} EventsKeepBwRange(s: Led, log: seq<Call>, codes: seq<u32>, ans: nat -> Reply)
    ensures RunEvents(s, log, codes, ans).0.mode == s.mode
    ensures log <= RunEvents(s, log, codes, ans).1
    ensures s.enabled <= 1 ==> RunEvents(s, log, codes, ans).0.enabled <= 1
    ensures s.mode == BW && s.brightness <= BrightnessMaxBw ==>
      RunEvents(s, log, codes, ans).0.brightness <= BrightnessMaxBw
    decreases |codes|
  {
    if codes != [] {
      var t := EventNext(s, codes[0], ans, |log|);
      var l := EventLog(log, s, codes[0]);
      EventKeepsBwRange(s, codes[0], ans, |log|);
      EventLogExtends(log, s, codes[0]);
      EventsKeepBwRange(t, l, codes[1..], ans);
    }
  }

  /** An event only appends to the request log. */
  lemma EventLogExtends(log: seq<Call>, s: Led, code: u32)
    ensures log <= EventLog(log, s, code)
  {
  }

  // ----- The palette step -----

  /** The palette step writes the next palette colour to all four zones, EXTRA included
      whether or not the keyboard has one; on RGB each write is a zone-colour request. */
  lemma PaletteStepRequests(log: seq<Call>, s: Led)
    requires s.mode == RGB
    ensures var c := ColorList[PaletteNext(s.wholeKbdColor)];
      SetNextColorWholeKbLog(log, s)
        == log + [ColorCall(Left, c), ColorCall(Center, c), ColorCall(Right, c), ColorCall(Extra, c)]
  {
  }

  /** The palette index advances whatever the firmware answers, and on RGB each zone
      takes the new colour exactly when its own request succeeds. */
  lemma PaletteStepState(s: Led, ans: nat -> Reply, n: nat)
    ensures SetNextColorWholeKbNext(s, ans, n).wholeKbdColor == PaletteNext(s.wholeKbdColor)
    ensures SetNextColorWholeKbNext(s, ans, n).wholeKbdColor < 8
    ensures s.mode == RGB ==>
      var c := ColorList[PaletteNext(s.wholeKbdColor)];
      var t := SetNextColorWholeKbNext(s, ans, n);
      && t.left == (if Ok(ans, n) then c else s.left)
      && t.center == (if Ok(ans, n + 1) then c else s.center)
      && t.right == (if Ok(ans, n + 2) then c else s.right)
      && t.extra == (if Ok(ans, n + 3) then c else s.extra)
      && t.brightness == s.brightness && t.enabled == s.enabled
      && t.blinkingPattern == s.blinkingPattern
  {
  }

  /** k presses of the palette key: the event code 0x83, k times. */
  function PaletteKeys(k: nat): (codes: seq<u32>)
    ensures |codes| == k && forall i :: 0 <= i < k ==> codes[i] == EventNextBlinkingPattern
  {
    seq(k, _ => EventNextBlinkingPattern)
  }

  /** On RGB, k presses of the palette key advance the palette index k steps, whatever
      the firmware answers, and keep the keyboard RGB. */
  lemma {:induction false} PaletteKeysAdvance(s: Led, log: seq<Call>, k: nat, ans: nat -> Reply)
    requires s.mode == RGB
    ensures RunEvents(s, log, PaletteKeys(k), ans).0.wholeKbdColor == PaletteNextTimes(s.wholeKbdColor, k)
    ensures RunEvents(s, log, PaletteKeys(k), ans).0.mode == RGB
    decreases k
  {
    if k > 0 {
      var codes := PaletteKeys(k);
      assert codes[1..] == PaletteKeys(k - 1);
      var t := EventNext(s, codes[0], ans, |log|);
      PaletteStepState(s, ans, |log|);
      PaletteKeysAdvance(t, EventLog(log, s, codes[0]), k - 1, ans);
    }
  }

  /** On RGB, eight presses of the palette key bring the palette index back to where it
      started, whatever the firmware answers. */
  lemma PaletteKeysCycle(s: Led, log: seq<Call>, ans: nat -> Reply)
    requires s.mode == RGB && s.wholeKbdColor < |ColorList|
    ensures RunEvents(s, log, PaletteKeys(|ColorList|), ans).0.wholeKbdColor == s.wholeKbdColor
  {
    PaletteKeysAdvance(s, log, |ColorList|, ans);
    PaletteCycles(s.wholeKbdColor);
  }

  // ----- Blinking pattern and resync -----

  /** A pattern change records the pattern only on success and never changes a stored
      colour; on RGB nothing else changes either. */
  lemma PatternStoredOnlyOnSuccess(s: Led, p: PatternId, ans: nat -> Reply, n: nat)
    ensures var t := SetBlinkingPatternNext(s, p, ans, n);
      && t.blinkingPattern == (if Ok(ans, n) then p else s.blinkingPattern)
      && t.left == s.left && t.center == s.center && t.right == s.right && t.extra == s.extra
    ensures s.mode == RGB ==>
      SetBlinkingPatternNext(s, p, ans, n) == if Ok(ans, n) then s.(blinkingPattern := p) else s
  {
  }

  /** Switching to CUSTOM (pattern 0) sends the pattern word and then re-sends the stored
      LEFT, CENTER and RIGHT colours, and EXTRA only when present; other patterns send
      the pattern word alone. The requests do not depend on the firmware's answers. */
  lemma PatternRequests(log: seq<Call>, s: Led, p: PatternId)
    ensures p != 0 ==> SetBlinkingPatternLog(log, s, p) == log + [PatternCall(p)]
    ensures p == 0 && s.hasExtra != 1 ==>
      SetBlinkingPatternLog(log, s, p) == log + [PatternCall(0),
        SetColorCall(s.mode, Left, s.left), SetColorCall(s.mode, Center, s.center),
        SetColorCall(s.mode, Right, s.right)]
    ensures p == 0 && s.hasExtra == 1 ==>
      SetBlinkingPatternLog(log, s, p) == log + [PatternCall(0),
        SetColorCall(s.mode, Left, s.left), SetColorCall(s.mode, Center, s.center),
        SetColorCall(s.mode, Right, s.right), SetColorCall(s.mode, Extra, s.extra)]
  {
  }

  /** A round trip through another pattern and back to CUSTOM ends by re-sending the
      colours stored before it began, whatever the firmware answered. */
  lemma {:induction false} PatternRoundTripRestoresColors(log: seq<Call>, s: Led, p: PatternId, ans: nat -> Reply, n: nat)
    requires s.mode == RGB && p != 0
    ensures var t := SetBlinkingPatternNext(s, p, ans, n);
      var l := SetBlinkingPatternLog(SetBlinkingPatternLog(log, s, p), t, 0);
      var restored := [ColorCall(Left, s.left), ColorCall(Center, s.center), ColorCall(Right, s.right)];
      && (s.hasExtra != 1 ==> l == log + [PatternCall(p), PatternCall(0)] + restored)
      && (s.hasExtra == 1 ==> l == log + [PatternCall(p), PatternCall(0)] + restored + [ColorCall(Extra, s.extra)])
    ensures var u := SetBlinkingPatternNext(SetBlinkingPatternNext(s, p, ans, n), 0, ans, n + 1);
      u.left == s.left && u.center == s.center && u.right == s.right && u.extra == s.extra
  {
    var t := SetBlinkingPatternNext(s, p, ans, n);
    PatternStoredOnlyOnSuccess(s, p, ans, n);
    PatternRequests(log, s, p);
    PatternRequests(log + [PatternCall(p)], t, 0);
    PatternStoredOnlyOnSuccess(t, 0, ans, n + 1);
  }

  /** Replaying the stored pattern and power state leaves the store as it was, whatever
      the firmware answers. */
  lemma ReplayKeepsStore(s: Led, ans: nat -> Reply, n: nat)
    ensures s.mode == RGB ==> SetBlinkingPatternNext(s, s.blinkingPattern, ans, n) == s
    ensures SetBrightnessNext(s, s.brightness, Ok(ans, n)) == s
    ensures SetEnabledNext(s, s.enabled, Ok(ans, n)) == s
  {
  }

  /** The full write on RGB sends the pattern first and brightness then power last; on BW
      it sends the brightness alone. */
  lemma WriteStateOrder(log: seq<Call>, s: Led)
    ensures s.mode == BW ==> WriteStateLog(log, s) == log + [BrightnessCall(BW, s.brightness)]
    ensures s.mode == RGB ==>
      var l := WriteStateLog(log, s);
      && |l| >= |log| + 3
      && l[|log|] == PatternCall(s.blinkingPattern)
      && l[|l| - 2] == BrightnessCall(RGB, s.brightness)
      && l[|l| - 1] == PowerCall(s.enabled)
  {
  }

  // ----- Power -----

  /** The power request for state 0 is the off word, for any other state the on word. */
  lemma PowerRequests(state: u8)
    ensures PowerCall(state).cmd == SubmethodSetKbLeds
    ensures state == 0 ==> PowerCall(state).arg == 0xE000_3001
    ensures state != 0 ==> PowerCall(state).arg == 0xE007_F001
  {
  }

  // ----- Input bounding -----

  /** A control-surface brightness write stays within the variant's range, on BW it
      lands on 0..5, and only the low byte of the written value counts. */
  lemma FsBrightnessRange(v: Variant, val1: u32, val2: u32)
    ensures FsBrightness(v, val1) <= if v == RGB then BrightnessMax else BrightnessMaxBw
    ensures Byte(val1, 0) == Byte(val2, 0) ==> FsBrightness(v, val1) == FsBrightness(v, val2)
    ensures FsBrightness(BW, 0xFF) == BrightnessMaxBw && FsBrightness(BW, 0x100) == 0
  {
  }

  /** A seeded state respects the variant's brightness range. */
  lemma SeededInRange(v: Variant, p: Settings)
    requires p.blinkingPattern < 8
    ensures Seeded(v, p).mode == v
    ensures Seeded(v, p).brightness <= if v == RGB then BrightnessMax else BrightnessMaxBw
    ensures Seeded(v, p).blinkingPattern == p.blinkingPattern
    ensures Seeded(v, p).enabled <= 1
  {
  }
}
