/**
 * The second player store (frontend/src/stores/player.ts): a small state record
 * with its own smart-rewind rule table, whose thresholds compare with `>=`
 * where the playback engine compares with `>`.
 */
module Store {
  import opened Wrappers
  import opened Engine

  datatype Network = Wifi | Cellular | Offline

  datatype StoreState = StoreState(
    isPlaying: bool,
    currentBookId: Option<int>,
    currentTimeMs: int,
    lastPausedAt: Option<int>,
    playbackRate: real,
    volumeBoostDb: real,
    skipSilenceEnabled: bool,
    drivingMode: bool,
    sleepMode: bool,
    sleepTimerMs: Option<int>,
    network: Network)

  const InitialStore: StoreState :=
    StoreState(false, None, 0, None, 1.0, 0.0, true, false, false, None, Wifi)

  datatype Rule = Rule(pauseDurationMs: int, rewindSeconds: nat)

  /** `SMART_REWIND_RULES`, longest pause first. */
  const Rules: seq<Rule> := [Rule(Day, 60), Rule(Hour, 30), Rule(FiveMinutes, 10)]

  /** `rules.find(rule => delta >= rule.pauseDurationMs)` as an index, -1 when none matches. */
  function FirstMatch(rules: seq<Rule>, delta: int): (k: int)
    ensures -1 <= k < |rules|
    ensures k >= 0 ==> delta >= rules[k].pauseDurationMs
    ensures k >= 0 ==> forall j :: 0 <= j < k ==> delta < rules[j].pauseDurationMs
    ensures k == -1 <==> forall j :: 0 <= j < |rules| ==> delta < rules[j].pauseDurationMs
    decreases |rules|
  {
    if |rules| == 0 then -1
    else if delta >= rules[0].pauseDurationMs then 0
    else
      var k := FirstMatch(rules[1..], delta);
      if k == -1 then -1 else k + 1
  }

  /** Seconds the store would rewind after a pause of `delta` ms. */
  function StoreRewindAfter(delta: int): (r: nat)
    ensures r == 0 || r == 10 || r == 30 || r == 60
  {
    var k := FirstMatch(Rules, delta);
    if k == -1 then 0 else Rules[k].rewindSeconds
  }

  /** `smartRewindSeconds`: nothing without a (truthy) pause stamp. */
  function SmartRewindSeconds(s: StoreState, now: int): (r: nat)
    ensures s.lastPausedAt.None? || s.lastPausedAt.value == 0 ==> r == 0
    ensures s.lastPausedAt.Some? && s.lastPausedAt.value != 0 ==>
      r == StoreRewindAfter(now - s.lastPausedAt.value)
  {
    if s.lastPausedAt.None? || s.lastPausedAt.value == 0 then 0
    else StoreRewindAfter(now - s.lastPausedAt.value)
  }

  /** The table reads as the threshold ladder 24 h / 1 h / 5 min, each inclusive. */
  lemma {:induction false} StoreRewindLadder(delta: int)
    ensures StoreRewindAfter(delta) == 60 <==> delta >= Day
    ensures StoreRewindAfter(delta) == 30 <==> Hour <= delta < Day
    ensures StoreRewindAfter(delta) == 10 <==> FiveMinutes <= delta < Hour
    ensures StoreRewindAfter(delta) == 0 <==> delta < FiveMinutes
  {
    var k := FirstMatch(Rules, delta);
    assert Rules[1..] == [Rule(Hour, 30), Rule(FiveMinutes, 10)];
    assert Rules[1..][1..] == [Rule(FiveMinutes, 10)];
    if delta >= Day {
      assert k == 0;
    } else if delta >= Hour {
      assert FirstMatch(Rules[1..], delta) == 0;
    } else if delta >= FiveMinutes {
      assert FirstMatch(Rules[1..][1..], delta) == 0;
    } else {
      assert k == -1;
    }
  }

  /** A longer pause never rewinds less. */
  lemma {:induction false} StoreRewindMonotone(d1: int, d2: int)
    requires d1 <= d2
    ensures StoreRewindAfter(d1) <= StoreRewindAfter(d2)
  {
    StoreRewindLadder(d1);
    StoreRewindLadder(d2);
  }

  /**
   * On whole milliseconds the inclusive table is the engine's strict one shifted
   * by one millisecond, and the two disagree exactly at the three thresholds.
   */
  lemma {:induction false} StoreVersusEngine(delta: int)
    ensures StoreRewindAfter(delta) == RewindAfter(delta + 1)
    ensures StoreRewindAfter(delta) != RewindAfter(delta) <==>
      delta == Day || delta == Hour || delta == FiveMinutes
  {
    StoreRewindLadder(delta);
  }

  /** With the same pause stamp, the store rewinds at least as far as the engine. */
  lemma {:induction false} StoreRewindsAtLeastEngine(s: StoreState, now: int)
    ensures SmartRewindSeconds(s, now) >= ComputeSmartRewind(s.lastPausedAt, now)
  {
    if s.lastPausedAt.Some? && s.lastPausedAt.value != 0 {
      var d := now - s.lastPausedAt.value;
      StoreVersusEngine(d);
      RewindMonotone(d, d + 1);
    }
  }

  /** `togglePlayPause`: flips playing; a pause stamps the time, a resume keeps the old stamp. */
  function TogglePlayPause(s: StoreState, now: int): (r: StoreState)
    ensures r.isPlaying == !s.isPlaying
    ensures !r.isPlaying ==> r.lastPausedAt == Some(now)
    ensures r.isPlaying ==> r.lastPausedAt == s.lastPausedAt
    ensures r.(isPlaying := s.isPlaying, lastPausedAt := s.lastPausedAt) == s
  {
    if s.isPlaying then s.(isPlaying := false, lastPausedAt := Some(now))
    else s.(isPlaying := true)
  }

  /** Pausing then resuming restores playing and leaves the pause stamp behind. */
  lemma {:induction false} PauseResumeKeepsStamp(s: StoreState, t1: int, t2: int)
    requires s.isPlaying
    ensures TogglePlayPause(TogglePlayPause(s, t1), t2) == s.(lastPausedAt := Some(t1))
  {
  }

  /** `applySmartRewind`: steps back by the rewind, never below zero. */
  function ApplySmartRewind(s: StoreState, now: int): (r: StoreState)
    ensures r.currentTimeMs >= 0
    ensures var back := 1000 * SmartRewindSeconds(s, now);
      (s.currentTimeMs >= back ==> r.currentTimeMs == s.currentTimeMs - back)
      && (s.currentTimeMs < back ==> r.currentTimeMs == 0)
    ensures r.(currentTimeMs := s.currentTimeMs) == s
  {
    var back := 1000 * SmartRewindSeconds(s, now);
    var t := s.currentTimeMs - back;
    s.(currentTimeMs := if t > 0 then t else 0)
  }

  /** A stale stamp (a day or more) moves playback back one minute at most, and never forward. */
  lemma {:induction false} RewindAfterLongPause(s: StoreState, now: int)
    requires s.lastPausedAt.Some? && s.lastPausedAt.value != 0
    requires now - s.lastPausedAt.value >= Day
    requires s.currentTimeMs >= 0
    ensures s.currentTimeMs - 60000 <= ApplySmartRewind(s, now).currentTimeMs <= s.currentTimeMs
  {
    StoreRewindLadder(now - s.lastPausedAt.value);
  }

  /** `enableSleepMode(on, timerMs)`: the timer is kept only while sleep mode is on. */
  function EnableSleepMode(s: StoreState, on: bool, timerMs: Option<int>): (r: StoreState)
    ensures r.sleepMode == on
    ensures r.sleepTimerMs.Some? <==> on && timerMs.Some?
    ensures r.sleepTimerMs.Some? ==> r.sleepTimerMs == timerMs
    ensures r.(sleepMode := s.sleepMode, sleepTimerMs := s.sleepTimerMs) == s
  {
    s.(sleepMode := on, sleepTimerMs := if on then timerMs else None)
  }

  /** Turning sleep mode off forgets any timer, whatever was set before. */
  lemma {:induction false} SleepOffForgets(s: StoreState, timerMs: Option<int>, other: Option<int>)
    ensures EnableSleepMode(EnableSleepMode(s, true, timerMs), false, other)
         == s.(sleepMode := false, sleepTimerMs := None)
  {
  }
}
