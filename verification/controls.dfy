/**
 * The pure logic of components/PlayerControls.tsx: the time left in the current
 * chapter, the "m:ss" time format and the speed slider's values.
 */
module Controls {
  import opened Wrappers
  import opened Text
  import opened Types
  import opened Engine
  import opened FullScreen

  /**
   * `chapterTimeLeft`: the time to the end of the chapter holding `t`, 0 without
   * a book, without chapters, or when no chapter holds `t`.
   */
  function ChapterTimeLeft(b: Option<Book>, t: real): (r: real)
    ensures r >= 0.0
    ensures b.None? || b.value.chapters.None? ==> r == 0.0
    ensures b.Some? && b.value.chapters.Some? ==>
      var cs := b.value.chapters.value;
      var k := FindChapter(cs, t);
      && (r > 0.0 <==> k >= 0)
      && (k >= 0 ==> r == cs[k].startTime + cs[k].duration - t && r <= cs[k].duration)
  {
    if b.None? || b.value.chapters.None? then 0.0
    else
      var cs := b.value.chapters.value;
      var k := FindChapter(cs, t);
      if k == -1 then 0.0
      else
        var end := cs[k].startTime + cs[k].duration;
        if end - t >= 0.0 then end - t else 0.0
  }

  /** In chapters that tile the book, the time left in a chapter is exactly the jump 'next' makes. */
  lemma {:induction false} TimeLeftMatchesSkipNext(b: Book, t: real)
    requires b.chapters.Some? && Tiles(b.chapters.value, b.duration)
    requires FindChapter(b.chapters.value, t) >= 0
    ensures t + ChapterTimeLeft(Some(b), t) == SkipTarget(b.chapters.value, t, Next, b.duration)
  {
    var cs := b.chapters.value;
    var k := FindChapter(cs, t);
    if k < |cs| - 1 {
      assert cs[k + 1].startTime == cs[k].startTime + cs[k].duration;
    }
  }

  /** `Math.trunc`: rounding toward zero. */
  function Trunc(x: real): (i: int)
    ensures x >= 0.0 ==> i == x.Floor
    ensures x < 0.0 ==> i == -((-x).Floor)
  {
    if x >= 0.0 then x.Floor else -((-x).Floor)
  }

  /** JavaScript `x % d` on numbers: `x - d * trunc(x / d)`. */
  function JsRem(x: real, d: real): real
    requires d > 0.0
  {
    x - d * Trunc(x / d) as real
  }

  /** Modulo a minute the remainder takes the sign of `x` and stays below 60 in magnitude. */
  lemma {:induction false} JsRemMinute(x: real)
    ensures x >= 0.0 ==> 0.0 <= JsRem(x, 60.0) < 60.0
    ensures x < 0.0 ==> -60.0 < JsRem(x, 60.0) <= 0.0
  {
    var q := x / 60.0;
    var i := Trunc(q);
    assert x >= 0.0 ==> i as real <= q < i as real + 1.0;
    assert x < 0.0 ==> i as real - 1.0 < q <= i as real;
  }

  /** `formatTime`: `floor(s / 60)` ":" `floor(s % 60)`, the latter with a leading '0' below 10. */
  function FormatTime(seconds: real): string
  {
    var m := (seconds / 60.0).Floor;
    var s := JsRem(seconds, 60.0).Floor;
    IntToString(m) + ":" + (if s < 10 then "0" else "") + IntToString(s)
  }

  lemma {:induction false} TimeArithmetic(x: real)
    requires x >= 0.0
    ensures var m := (x / 60.0).Floor; var s := JsRem(x, 60.0).Floor;
      m >= 0 && 0 <= s < 60 && m * 60 + s == x.Floor
  {
    JsRemMinute(x);
    var m := (x / 60.0).Floor;
    var y := x - 60.0 * m as real;
    assert JsRem(x, 60.0) == y;
    var f := x.Floor;
    assert f as real <= x < f as real + 1.0;
    assert (f - 60 * m) as real <= y < (f - 60 * m) as real + 1.0;
  }

  /** The seconds field: two digits that read back as the seconds. */
  lemma {:induction false} SecondsField(s: nat)
    requires s < 60
    ensures var text := (if s < 10 then "0" else "") + IntToString(s);
      AllDigits(text) && |text| == 2 && ParseNat(text) == s
  {
    ParseNatToString(s);
    if s < 10 {
      ParseNatLeadingZero(NatToString(s));
    }
  }

  /** For a non-negative time the format reads back as its whole seconds. */
  lemma {:induction false} FormatTimeRoundTrip(x: real)
    requires x >= 0.0
    ensures ParseClock(FormatTime(x)) == Some(x.Floor)
  {
    TimeArithmetic(x);
    var m := (x / 60.0).Floor;
    var s := JsRem(x, 60.0).Floor;
    var ms := IntToString(m);
    var ss := (if s < 10 then "0" else "") + IntToString(s);
    SecondsField(s);
    ParseNatToString(m);
    ParseClock2(FormatTime(x), ms, ss, x.Floor);
  }

  /** Below zero the seconds field carries its own sign: -5 s renders as "-1:0-5". */
  lemma {:induction false} FormatTimeNegative()
    ensures FormatTime(-5.0) == "-1:0-5"
  {
    assert (-5.0 / 60.0).Floor == -1;
    assert JsRem(-5.0, 60.0) == -5.0;
    assert IntToString(-1) == "-1";
    assert IntToString(-5) == "-5";
  }

  /** The speed slider's k-th position (min 0.5, max 3.0, step 0.1). */
  function SliderSpeed(k: nat): (v: real)
    requires k <= 25
    ensures 0.5 <= v <= 3.0
    ensures (v - 0.5) * 10.0 == k as real
  {
    0.5 + k as real / 10.0
  }

  /** The slider's positions are exactly the speeds 0.5, 0.6, …, 3.0, one step apart, and `setSpeed` stores them unchanged. */
  lemma {:induction false} SliderSteps(e: Engine, k: nat)
    requires k < 25
    ensures SliderSpeed(k + 1) - SliderSpeed(k) == 0.1
    ensures SetSpeed(e, SliderSpeed(k)).player.speed == SliderSpeed(k)
    ensures SliderSpeed(0) == 0.5 && SliderSpeed(25) == 3.0
  {
  }
}
