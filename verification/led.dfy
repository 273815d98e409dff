/**
 * The light-window scheduler (MushroomChamberController/src/led.cpp, led.h).
 *
 * The local hour read from the real-time clock is an input; the strip's
 * frame buffer `leds` and the static `lightOn` latch are the state, and a
 * `FastLED.show()` is reported as a `shown` flag. The light window and the
 * colour come from a `PhaseConfig`, the type that carries those fields.
 */
module Led {
  import opened Types

  const NumLeds: nat := 60

  /** The frame buffer and the `lightOn` latch. */
  datatype Lighting = Lighting(lightOn: bool, leds: seq<Crgb>)

  predicate Valid(l: Lighting)
  {
    |l.leds| == NumLeds
  }

  /** Every pixel shows `color`. */
  predicate AllColor(leds: seq<Crgb>, color: Crgb)
  {
    forall i :: 0 <= i < |leds| ==> leds[i] == color
  }

  /** `setupLeds`: a cleared strip with the latch still off (its `FastLED.show()` is not reported). */
  function SetupLeds(): (l: Lighting)
    ensures Valid(l) && !l.lightOn && AllColor(l.leds, Black)
  {
    Lighting(false, seq(NumLeds, _ => Black))
  }

  /**
   * Whether `hour` lies in the light window from `start` (inclusive) to
   * `end` (exclusive), the window wrapping past midnight when it starts
   * later than it ends.
   */
  function ShouldBeOn(hour: int, start: int, end: int): (on: bool)
    ensures start <= end ==> (on <==> start <= hour < end)
    ensures start > end ==> (on <==> hour >= start || hour < end)
    // on a 24-hour clock both branches are one arc: lit iff fewer hours past
    // `start` than the window is long
    ensures 0 <= hour < 24 && 0 <= start < 24 && 0 <= end < 24 ==>
              (on <==> (hour - start) % 24 < (end - start) % 24)
  {
    ClockArc(hour, start, end);
    if start <= end then hour >= start && hour < end
    else hour >= start || hour < end
  }

  /** The hours past `start` on a 24-hour dial, against the two written-out cases. */
  lemma ClockArc(hour: int, start: int, end: int)
    ensures 0 <= hour < 24 && 0 <= start <= end < 24 ==>
              (start <= hour < end <==> (hour - start) % 24 < (end - start) % 24)
    ensures 0 <= hour < 24 && 0 <= end < start < 24 ==>
              (hour >= start || hour < end <==> (hour - start) % 24 < (end - start) % 24)
  {
    if 0 <= hour < 24 && 0 <= start < 24 && 0 <= end < 24 {
      if hour < start {
        assert (hour - start) % 24 == hour - start + 24;
      } else {
        assert (hour - start) % 24 == hour - start;
      }
      if start <= end {
        assert (end - start) % 24 == end - start;
      } else {
        assert (end - start) % 24 == end - start + 24;
      }
    }
  }

  /** An empty window never turns the light on. */
  lemma EmptyWindowNeverOn(hour: int, h: int)
    ensures !ShouldBeOn(hour, h, h)
  {
  }

  /** A window that wraps past midnight is lit exactly when the reversed window is dark. */
  lemma WrapIsComplement(hour: int, start: int, end: int)
    requires start > end
    ensures ShouldBeOn(hour, start, end) <==> !ShouldBeOn(hour, end, start)
  {
  }

  /** `setLEDColor`: paint every pixel of the strip. */
  method SetLedColor(leds: seq<Crgb>, color: Crgb) returns (r: seq<Crgb>)
    requires |leds| == NumLeds
    ensures |r| == NumLeds
    ensures AllColor(r, color)
  {
    r := leds;
    var i := 0;
    while i < NumLeds
      invariant 0 <= i <= NumLeds
      invariant |r| == NumLeds
      invariant forall j :: 0 <= j < i ==> r[j] == color
    {
      r := r[i := color];
      i := i + 1;
    }
  }

  /**
   * `controlLighting`: repaint and show the strip only when the window says
   * otherwise than the latch, then remember what it now shows.
   */
  method ControlLighting(l: Lighting, config: PhaseConfig, hour: int) returns (r: Lighting, shown: bool)
    requires Valid(l)
    ensures Valid(r)
    ensures r.lightOn == ShouldBeOn(hour, config.lightStartHour, config.lightEndHour)
    ensures shown <==> r.lightOn != l.lightOn
    ensures !shown ==> r == l
    ensures shown && r.lightOn ==> AllColor(r.leds, config.lightColor)
    ensures shown && !r.lightOn ==> AllColor(r.leds, Black)
  {
    var shouldBeOn := ShouldBeOn(hour, config.lightStartHour, config.lightEndHour);
    if shouldBeOn && !l.lightOn {
      var leds := SetLedColor(l.leds, config.lightColor);
      r, shown := Lighting(true, leds), true;
    } else if !shouldBeOn && l.lightOn {
      var leds := SetLedColor(l.leds, Black);
      r, shown := Lighting(false, leds), true;
    } else {
      r, shown := l, false;
    }
  }

  /** A second call in the same hour with the same window writes nothing. */
  method ControlLightingSettles(l: Lighting, config: PhaseConfig, hour: int) returns (r: Lighting, shownAgain: bool)
    requires Valid(l)
    ensures !shownAgain
    ensures r.lightOn == ShouldBeOn(hour, config.lightStartHour, config.lightEndHour)
  {
    var first, _ := ControlLighting(l, config, hour);
    r, shownAgain := ControlLighting(first, config, hour);
  }
}
