/**
 * The pure logic of components/FullScreenPlayer.tsx: the A–B button, the
 * progress and remaining-time read-outs, the chapter label, the clock format,
 * the sleep countdown and the double-tap gesture.
 */
module FullScreen {
  import opened Wrappers
  import opened Text
  import opened Types
  import opened Engine

  // ---------------------------------------------------------------------
  // A–B button

  /** The toast each A–B click raises. */
  datatype ABNotice = LoopClosed | LoopOpened | PointAUpdated | PointASet

  /**
   * `handleABClick` at playback time `t`, as written: an active loop is cleared;
   * with A set and `t` past it the loop A–t is opened; otherwise A is (re)set to `t`.
   */
  function ABClickAsWritten(e: Engine, t: real): (r: (Engine, ABNotice))
    ensures e.player.abLoop.active ==> r.0 == ClearABLoop(e) && r.1 == LoopClosed
    ensures !e.player.abLoop.active ==> r.0.player.abLoop.active
    ensures !e.player.abLoop.active && e.player.abLoop.start.Some? && t > e.player.abLoop.start.value ==>
      r.0 == SetABLoop(e, e.player.abLoop.start, Some(t)) && r.1 == LoopOpened
    ensures !e.player.abLoop.active && (e.player.abLoop.start.None? || t <= e.player.abLoop.start.value) ==>
      r.0 == SetABLoop(e, Some(t), None)
  {
    var l := e.player.abLoop;
    if l.active then (ClearABLoop(e), LoopClosed)
    else if l.start.Some? then
      if t > l.start.value then (SetABLoop(e, l.start, Some(t)), LoopOpened)
      else (SetABLoop(e, Some(t), None), PointAUpdated)
    else (SetABLoop(e, Some(t), None), PointASet)
  }

  /**
   * As written, setting A already activates the loop, so the next click clears
   * it instead of setting B: clicking at 10 s and then at 20 s ends with no loop.
   */
  lemma {:induction false} ABClickAsWrittenNeverOpens(e: Engine)
    requires e.player.abLoop == ClearedLoop
    ensures var s1 := ABClickAsWritten(e, 10.0);
      var s2 := ABClickAsWritten(s1.0, 20.0);
      && s1.0.player.abLoop == ABLoop(Some(10.0), None, true)
      && s2.0.player.abLoop == ClearedLoop && s2.1 == LoopClosed
  {
  }

  /** Every state the as-written clicks reach from a cleared loop is either cleared or active with A only. */
  predicate AsWrittenReachable(l: ABLoop)
  {
    l == ClearedLoop || (l.active && l.start.Some? && l.end.None?)
  }

  /** Hence the branch that opens an A–B loop is unreachable. */
  lemma {:induction false} ABClickAsWrittenStaysReachable(e: Engine, t: real)
    requires AsWrittenReachable(e.player.abLoop)
    ensures AsWrittenReachable(ABClickAsWritten(e, t).0.player.abLoop)
    ensures ABClickAsWritten(e, t).1 != LoopOpened
  {
  }

  /**
   * The A–B button as intended: a loop is cleared only once both markers are set;
   * with only A set, a click past A opens the loop A–t, and a click at or before
   * A moves A.
   */
  function ABClick(e: Engine, t: real): (r: (Engine, ABNotice))
    ensures r.0.player.abLoop == ClearedLoop || r.0.player.abLoop.active
    ensures e.player.abLoop.active && e.player.abLoop.end.Some? ==> r.0.player.abLoop == ClearedLoop && r.1 == LoopClosed
    ensures e.player.abLoop.end.None? && e.player.abLoop.start.Some? && t > e.player.abLoop.start.value ==>
      r.0.player.abLoop == ABLoop(e.player.abLoop.start, Some(t), true) && r.1 == LoopOpened
    ensures e.player.abLoop.end.None? && (e.player.abLoop.start.None? || t <= e.player.abLoop.start.value) ==>
      r.0.player.abLoop == ABLoop(Some(t), None, true)
    ensures r.0 == e.(player := e.player.(abLoop := r.0.player.abLoop))
  {
    var l := e.player.abLoop;
    var step :=
      if l.active && l.end.Some? then (ClearedLoop, LoopClosed)
      else if l.start.Some? then
        if t > l.start.value then (ABLoop(l.start, Some(t), true), LoopOpened)
        else (ABLoop(Some(t), None, true), PointAUpdated)
      else (ABLoop(Some(t), None, true), PointASet);
    (e.(player := e.player.(abLoop := step.0)), step.1)
  }

  /** A loop end, when present, lies strictly after a present start. */
  predicate ABWellFormed(l: ABLoop)
  {
    l.end.Some? ==> l.start.Some? && l.start.value < l.end.value
  }

  /** Clicks keep the markers well-formed. */
  lemma {:induction false} ABClickWellFormed(e: Engine, t: real)
    requires ABWellFormed(e.player.abLoop)
    ensures ABWellFormed(ABClick(e, t).0.player.abLoop)
  {
  }

  /**
   * From a cleared loop, a click at `a`, a click at a later `b` and a third click
   * open the loop a–b and then close it again, restoring the original state.
   */
  lemma {:induction false} ABClickCycle(e: Engine, a: real, b: real, c: real)
    requires e.player.abLoop == ClearedLoop && a < b
    ensures var s1 := ABClick(e, a).0;
      var s2 := ABClick(s1, b).0;
      && s1.player.abLoop == ABLoop(Some(a), None, true)
      && s2.player.abLoop == ABLoop(Some(a), Some(b), true)
      && ABClick(s2, c).0 == e
  {
  }

  // ---------------------------------------------------------------------
  // read-outs

  function Floor(x: real): int
  {
    x.Floor
  }

  function MinReal(a: real, b: real): real
  {
    if a <= b then a else b
  }

  /** A book's duration is truthy: present and non-zero. */
  predicate HasDuration(b: Option<Book>)
  {
    b.Some? && b.value.duration != 0.0
  }

  /** `progressPercent`: `min(100, t / duration * 100)`, 0 without a duration. */
  function ProgressPercent(b: Option<Book>, t: real): (r: real)
    ensures r <= 100.0
    ensures !HasDuration(b) ==> r == 0.0
    ensures HasDuration(b) && b.value.duration > 0.0 && t >= 0.0 ==> r >= 0.0
    ensures HasDuration(b) && b.value.duration > 0.0 && t <= b.value.duration ==>
      r * b.value.duration == 100.0 * t
  {
    if HasDuration(b) then MinReal(100.0, t / b.value.duration * 100.0) else 0.0
  }

  /** `remainingSeconds`: whole seconds left, never negative, 0 without a duration. */
  function RemainingSeconds(b: Option<Book>, t: real): (r: int)
    ensures r >= 0
    ensures !HasDuration(b) ==> r == 0
    ensures HasDuration(b) && t <= b.value.duration ==>
      r as real <= b.value.duration - t < r as real + 1.0
    ensures HasDuration(b) && t > b.value.duration ==> r == 0
  {
    if HasDuration(b) then
      var f := Floor(b.value.duration - t);
      if f > 0 then f else 0
    else 0
  }

  /** Listening further never lowers the progress nor raises the remaining time. */
  lemma {:induction false} ReadoutsMonotone(b: Option<Book>, t1: real, t2: real)
    requires HasDuration(b) && b.value.duration > 0.0
    requires t1 <= t2
    ensures ProgressPercent(b, t1) <= ProgressPercent(b, t2)
    ensures RemainingSeconds(b, t2) <= RemainingSeconds(b, t1)
  {
    var d := b.value.duration;
    assert t1 / d <= t2 / d;
    assert Floor(d - t2) <= Floor(d - t1);
  }

  /** The chapter label: "k/n" for the chapter holding `t` (1-based), '—' when none does. */
  function ChapterLabel(b: Option<Book>, t: real): (r: string)
    ensures b.None? || b.value.chapters.None? || FindChapter(b.value.chapters.value, t) == -1 ==> r == "—"
  {
    if b.None? || b.value.chapters.None? then "—"
    else
      var cs := b.value.chapters.value;
      var k := FindChapter(cs, t);
      if k == -1 then "—" else NatToString(k + 1) + "/" + NatToString(|cs|)
  }

  lemma {:induction false} DigitsHaveNo(s: string, c: char)
    requires AllDigits(s) && !IsDigit(c)
    ensures c !in s
  {
  }

  /** A label for a chapter reads back as its 1-based position and the chapter count. */
  lemma {:induction false} ChapterLabelReadsBack(b: Book, t: real)
    requires b.chapters.Some? && FindChapter(b.chapters.value, t) >= 0
    ensures var parts := Split(ChapterLabel(Some(b), t), '/');
      && |parts| == 2 && AllDigits(parts[0]) && AllDigits(parts[1])
      && ParseNat(parts[0]) == FindChapter(b.chapters.value, t) + 1
      && ParseNat(parts[1]) == |b.chapters.value|
      && 1 <= ParseNat(parts[0]) <= ParseNat(parts[1])
  {
    var cs := b.chapters.value;
    var k := FindChapter(cs, t);
    var a := NatToString(k + 1);
    var n := NatToString(|cs|);
    DigitsHaveNo(a, '/');
    DigitsHaveNo(n, '/');
    assert ChapterLabel(Some(b), t) == a + ['/'] + n;
    SplitAt(a, n, '/');
    SplitNoSep(n, '/');
    ParseNatToString(k + 1);
    ParseNatToString(|cs|);
  }

  // ---------------------------------------------------------------------
  // clock

  /** A number zero-padded to at least two digits (`toString().padStart(2, '0')`). */
  function Pad2(n: nat): (r: string)
    ensures AllDigits(r) && ParseNat(r) == n
    ensures n < 100 ==> |r| == 2
  {
    ParseNatToString(n);
    ParseNatPadded(NatToString(n), 2);
    PadStart(NatToString(n), 2, '0')
  }

  /** `formatClock`: "h:mm:ss" from one hour on, "m:ss" below. */
  function FormatClock(secs: nat): string
  {
    var h := secs / 3600;
    var m := (secs % 3600) / 60;
    var s := secs % 60;
    if h > 0 then NatToString(h) + ":" + Pad2(m) + ":" + Pad2(s) else NatToString(m) + ":" + Pad2(s)
  }

  /** Reads "h:mm:ss" or "m:ss" back into seconds. */
  function ParseClock(text: string): (r: Option<nat>)
  {
    ParseClockParts(Split(text, ':'))
  }

  function ParseClockParts(parts: seq<string>): Option<nat>
  {
    if |parts| == 3 && AllDigits(parts[0]) && AllDigits(parts[1]) && AllDigits(parts[2]) then
      Some(ParseNat(parts[0]) * 3600 + ParseNat(parts[1]) * 60 + ParseNat(parts[2]))
    else if |parts| == 2 && AllDigits(parts[0]) && AllDigits(parts[1]) then
      Some(ParseNat(parts[0]) * 60 + ParseNat(parts[1]))
    else None
  }

  lemma {:induction false} ClockArithmetic(secs: nat)
    ensures secs == (secs / 3600) * 3600 + ((secs % 3600) / 60) * 60 + secs % 60
    ensures (secs % 3600) / 60 < 60
    ensures secs / 3600 == 0 ==> (secs % 3600) / 60 == secs / 60
  {
    var q := secs / 3600;
    var r := secs % 3600;
    var a := r / 60;
    var b := r % 60;
    assert secs == 60 * (60 * q + a) + b;
    SixtiesDigit(60 * q + a, b);
  }

  /** Dividing `60 * k + b` by 60, with `b` below 60, leaves `b`. */
  lemma {:induction false} SixtiesDigit(k: nat, b: nat)
    requires b < 60
    ensures (60 * k + b) % 60 == b && (60 * k + b) / 60 == k
  {
  }

  /** Two digit runs joined by a non-digit split back into the runs. */
  lemma {:induction false} SplitDigits2(a: string, b: string, sep: char)
    requires AllDigits(a) && AllDigits(b) && !IsDigit(sep)
    ensures Split(a + [sep] + b, sep) == [a, b]
  {
    DigitsHaveNo(a, sep);
    DigitsHaveNo(b, sep);
    SplitAt(a, b, sep);
    SplitNoSep(b, sep);
  }

  lemma {:induction false} SplitDigits3(a: string, b: string, c: string, sep: char)
    requires AllDigits(a) && AllDigits(b) && AllDigits(c) && !IsDigit(sep)
    ensures Split(a + [sep] + b + [sep] + c, sep) == [a, b, c]
  {
    DigitsHaveNo(a, sep);
    assert a + [sep] + b + [sep] + c == a + [sep] + (b + [sep] + c);
    SplitAt(a, b + [sep] + c, sep);
    SplitDigits2(b, c, sep);
  }

  /** "h:mm:ss" built from digit strings reads back as the seconds they stand for. */
  lemma {:induction false} ParseClock3(text: string, hs: string, ms: string, ss: string, v: nat)
    requires AllDigits(hs) && AllDigits(ms) && AllDigits(ss)
    requires text == hs + ":" + ms + ":" + ss
    requires v == ParseNat(hs) * 3600 + ParseNat(ms) * 60 + ParseNat(ss)
    ensures ParseClock(text) == Some(v)
  {
    assert text == hs + [':'] + ms + [':'] + ss;
    SplitDigits3(hs, ms, ss, ':');
  }

  /** "m:ss" built from digit strings reads back as the seconds they stand for. */
  lemma {:induction false} ParseClock2(text: string, ms: string, ss: string, v: nat)
    requires AllDigits(ms) && AllDigits(ss)
    requires text == ms + ":" + ss
    requires v == ParseNat(ms) * 60 + ParseNat(ss)
    ensures ParseClock(text) == Some(v)
  {
    assert text == ms + [':'] + ss;
    SplitDigits2(ms, ss, ':');
  }

  /** The clock format is readable: parsing it gives the seconds back. */
  lemma {:induction false} FormatClockRoundTrip(secs: nat)
    ensures ParseClock(FormatClock(secs)) == Some(secs)
  {
    var h := secs / 3600;
    var m := (secs % 3600) / 60;
    var s := secs % 60;
    assert secs == h * 3600 + m * 60 + s && (h == 0 ==> secs == m * 60 + s) by {
      ClockArithmetic(secs);
    }
    if h > 0 {
      var hs := NatToString(h);
      assert ParseNat(hs) == h by { ParseNatToString(h); }
      ParseClock3(FormatClock(secs), hs, Pad2(m), Pad2(s), secs);
    } else {
      var ms := NatToString(m);
      assert ParseNat(ms) == m by { ParseNatToString(m); }
      ParseClock2(FormatClock(secs), ms, Pad2(s), secs);
    }
  }

  // ---------------------------------------------------------------------
  // sleep countdown

  function IntMax(a: int, b: int): int
  {
    if a >= b then a else b
  }

  /**
   * The countdown shown while a deadline is set: whole seconds left, rounded up,
   * never negative; nothing without a deadline.
   */
  function SleepCountdown(sleepTimer: Option<int>, now: int): (r: Option<nat>)
    ensures r.Some? <==> sleepTimer.Some? && sleepTimer.value != 0
    ensures r.Some? ==>
      var diff := IntMax(0, sleepTimer.value - now);
      r.value * 1000 >= diff > (r.value - 1) * 1000
  {
    if sleepTimer.Some? && sleepTimer.value != 0 then
      var diff := IntMax(0, sleepTimer.value - now);
      Some((diff + 999) / 1000)
    else None
  }

  /** The countdown shows 0 exactly when the watchdog's deadline has been reached. */
  lemma {:induction false} CountdownZeroAtDeadline(e: Engine, now: int)
    ensures SleepCountdown(e.player.sleepTimer, now) == Some(0) <==> DeadlineReached(e, now)
  {
  }

  // ---------------------------------------------------------------------
  // double tap

  datatype Side = Left | Right

  /** Result of a tap: the new last-tap stamp and the seek it requests, if any. */
  datatype Tap = Tap(lastTap: int, seekTo: Option<real>)

  /** `handleDoubleTap`: a second tap within 300 ms seeks 10 s back (left) or forward (right). */
  function DoubleTap(lastTap: int, now: int, side: Side, t: real): (r: Tap)
    ensures r.lastTap == now
    ensures r.seekTo.Some? <==> now - lastTap < 300
    ensures r.seekTo.Some? ==> r.seekTo.value == (if side == Left then t - 10.0 else t + 10.0)
  {
    var target := if now - lastTap < 300 then Some(if side == Left then t - 10.0 else t + 10.0) else None;
    Tap(now, target)
  }

  /**
   * Two quick taps on the left seek back ten seconds, which the engine clamps at
   * the start of the book.
   */
  lemma {:induction false} DoubleTapLeftSeeks(e: Engine, books: seq<Book>, first: int, second: int, audioTime: real)
    requires 0 <= second - first < 300
    requires CurrentBook(e, books).Some?
    requires HasTracks(CurrentBook(e, books).value) || Truthy(CurrentBook(e, books).value.audioUrl)
    requires CurrentBook(e, books).value.duration >= 0.0
    ensures var tap := DoubleTap(DoubleTap(0, first, Left, e.player.currentTime).lastTap, second, Left, e.player.currentTime);
      && tap.seekTo == Some(e.player.currentTime - 10.0)
      && Seek(e, books, tap.seekTo.value, false, audioTime).next.player.currentTime
        == ClampTime(e.player.currentTime - 10.0, CurrentBook(e, books).value.duration)
  {
  }
}
