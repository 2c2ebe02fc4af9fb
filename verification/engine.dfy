/**
 * The playback engine of context/PlayerContext.tsx. Each operation is a pure
 * reducer from the engine state to the next state plus the commands the source
 * issues to the audio element, the toast list and the deferred `seek` calls.
 * The book list (`booksRef`), the clock (`Date.now()`) and the audio element's
 * own position are parameters.
 */
module Engine {
  import opened Wrappers
  import opened Text
  import opened Seqs
  import opened Types
  import opened Timeline

  datatype Ambience = NoAmbience | Rain | Fire | Forest

  /** The A–B repeat markers. */
  datatype ABLoop = ABLoop(start: Option<real>, end: Option<real>, active: bool)

  const ClearedLoop: ABLoop := ABLoop(None, None, false)

  /** `PlayerState` of types.ts; times in seconds of the global timeline, `sleepTimer` in ms. */
  datatype PlayerState = PlayerState(
    currentBookId: Option<string>,
    isPlaying: bool,
    currentTime: real,
    duration: real,
    volume: real,
    speed: real,
    isFullScreen: bool,
    sleepTimer: Option<int>,
    sleepEndOfChapter: bool,
    zenMode: bool,
    lastSeekPosition: Option<real>,
    lastPausedAt: Option<int>,
    ambience: Ambience,
    ambienceVolume: real,
    abLoop: ABLoop,
    vocalBoost: bool,
    currentTrackIndex: nat)

  /** The state the provider starts from. */
  const InitialPlayer: PlayerState := PlayerState(
    None, false, 0.0, 0.0, 1.0, 1.0, false, None, false, false, None, None,
    NoAmbience, 0.2, ClearedLoop, false, 0)

  /** The player state together with the refs the reducers read and write. */
  datatype Engine = Engine(
    player: PlayerState,
    history: seq<HistoryEntry>,
    sleepTriggered: bool,
    sessionStart: int)

  /** The toasts the engine raises. */
  datatype Notice = NoPlayableAudio | SleepTimerPaused | ChapterEndPaused | BookFinished | AudioLoadFailed

  /**
   * Effects outside the state: assignments to the audio element, toasts, the
   * `setTimeout(() => seek(t, isAuto), 0)` calls, the deferred src/load/play of
   * the next track, and the debounced progress save.
   */
  datatype Command =
    | LoadSource(url: string)
    | SetPosition(seconds: real)
    | Play
    | Pause
    | Notify(notice: Notice)
    | QueueSeek(time: real, isAuto: bool)
    | LoadAndPlay(url: string)
    | SaveProgress(bookId: Option<string>, trackIndex: nat, time: real)

  /** A reducer's result. */
  datatype Step = Step(next: Engine, cmds: seq<Command>)

  const HistoryCap: nat := 1000

  function Min(a: real, b: real): real
  {
    if a <= b then a else b
  }

  function Abs(x: real): real
  {
    if x < 0.0 then -x else x
  }

  /** `Math.max(0, Math.min(t, hi))`. */
  function ClampTime(t: real, hi: real): (r: real)
    ensures r >= 0.0
    ensures 0.0 <= t <= hi ==> r == t
    ensures hi >= 0.0 ==> r <= hi
  {
    Max(0.0, Min(t, hi))
  }

  /** The book the player points at, if the library holds it. */
  function CurrentBook(e: Engine, books: seq<Book>): Option<Book>
  {
    FindBook(books, e.player.currentBookId)
  }

  predicate HasTracks(b: Book)
  {
    b.tracks.Some? && |b.tracks.value| > 0
  }

  // ---------------------------------------------------------------------
  // smart rewind

  const Day: int := 24 * 60 * 60 * 1000
  const Hour: int := 60 * 60 * 1000
  const FiveMinutes: int := 5 * 60 * 1000

  /** Seconds to rewind after a pause of `diffMs`, strict thresholds (`computeSmartRewind`). */
  function RewindAfter(diffMs: int): (r: nat)
    ensures r == 0 || r == 10 || r == 30 || r == 60
    ensures r == 60 <==> diffMs > Day
    ensures r == 0 <==> diffMs <= FiveMinutes
  {
    if diffMs > Day then 60
    else if diffMs > Hour then 30
    else if diffMs > FiveMinutes then 10
    else 0
  }

  /** No rewind without a pause stamp (null, or the falsy stamp 0). */
  function ComputeSmartRewind(pausedAt: Option<int>, now: int): (r: nat)
    ensures pausedAt.None? || pausedAt.value == 0 ==> r == 0
    ensures pausedAt.Some? && pausedAt.value != 0 ==> r == RewindAfter(now - pausedAt.value)
  {
    if pausedAt.None? || pausedAt.value == 0 then 0 else RewindAfter(now - pausedAt.value)
  }

  /** A longer pause never rewinds less. */
  lemma {:induction false} RewindMonotone(d1: int, d2: int)
    requires d1 <= d2
    ensures RewindAfter(d1) <= RewindAfter(d2)
  {
  }

  // ---------------------------------------------------------------------
  // playBook

  /**
   * State after switching to `b` at `resume`, on track `index`: the book, track,
   * time and duration are the new book's, playback is on, the pause stamp and the
   * A-B loop are cleared and a new session starts; everything else is kept.
   */
  function Switched(e: Engine, b: Book, index: nat, resume: real, now: int): Engine
  {
    e.(player := e.player.(
         currentBookId := Some(b.id),
         currentTrackIndex := index,
         currentTime := resume,
         duration := b.duration,
         isPlaying := true,
         lastPausedAt := None,
         abLoop := ClearedLoop),
       sessionStart := now)
  }

  /**
   * `playBook(id)`: an unknown id does nothing; the current book toggles play;
   * another book is loaded at its saved progress (on the track holding it when
   * the book has tracks, else from its single `audioUrl`); a book with neither
   * only raises an error toast.
   */
  function PlayBook(e: Engine, books: seq<Book>, id: string, now: int): (r: Step)
    ensures FindBook(books, Some(id)).None? ==> r == Step(e, [])
    ensures FindBook(books, Some(id)).Some? && e.player.currentBookId == Some(id) ==>
      r.next == e.(player := e.player.(isPlaying := !e.player.isPlaying))
      && r.cmds == [if e.player.isPlaying then Pause else Play]
    ensures r.next.player.currentBookId.Some? && r.next.player.currentBookId != e.player.currentBookId ==>
      r.next.player.currentBookId == Some(id) && r.next.player.isPlaying
      && r.next.player.lastPausedAt.None? && r.next.player.abLoop == ClearedLoop
      && r.next.sessionStart == now
    ensures FindBook(books, Some(id)).Some? && e.player.currentBookId != Some(id) ==>
      var b := FindBook(books, Some(id)).value;
      && (HasTracks(b) ==>
            var p := FindTrackByTime(b.tracks, b.progress);
            && r.next.player.currentTrackIndex == p.index && r.next.player.currentTime == b.progress
            && r.next == Switched(e, b, p.index, b.progress, now)
            && r.cmds == [LoadSource(b.tracks.value[p.index].url), SetPosition(p.offset), Play])
      && (!HasTracks(b) && Truthy(b.audioUrl) ==>
            && r.next.player.currentTrackIndex == 0 && r.next.player.currentTime == b.progress
            && r.next == Switched(e, b, 0, b.progress, now)
            && r.cmds == [LoadSource(b.audioUrl.value), SetPosition(b.progress), Play])
      && (!HasTracks(b) && !Truthy(b.audioUrl) ==> r == Step(e, [Notify(NoPlayableAudio)]))
  {
    var found := FindBook(books, Some(id));
    if found.None? then Step(e, [])
    else
      var b := found.value;
      if e.player.currentBookId == Some(id) then
        if e.player.isPlaying then Step(e.(player := e.player.(isPlaying := false)), [Pause])
        else Step(e.(player := e.player.(isPlaying := true)), [Play])
      else
        var resume := b.progress;
        if HasTracks(b) then
          var p := FindTrackByTime(b.tracks, resume);
          Step(Switched(e, b, p.index, resume, now),
               [LoadSource(b.tracks.value[p.index].url), SetPosition(p.offset), Play])
        else if Truthy(b.audioUrl) then
          Step(Switched(e, b, 0, resume, now), [LoadSource(b.audioUrl.value), SetPosition(resume), Play])
        else
          Step(e, [Notify(NoPlayableAudio)])
  }

  /** A book with tracks starts on the track that holds its saved progress, at the right offset. */
  lemma {:induction false} PlayBookResumes(e: Engine, books: seq<Book>, id: string, now: int, b: Book)
    requires FindBook(books, Some(id)) == Some(b)
    requires e.player.currentBookId != Some(id)
    requires HasTracks(b) && 0.0 <= b.progress <= Sum(Durations(b.tracks.value))
    ensures var r := PlayBook(e, books, id, now);
      var i := r.next.player.currentTrackIndex;
      && i < |b.tracks.value|
      && r.next.player.currentTime == b.progress
      && r.cmds[0] == LoadSource(b.tracks.value[i].url)
      && r.cmds[1].SetPosition?
      && Globalize(Durations(b.tracks.value), i, r.cmds[1].seconds) == b.progress
  {
    FindTrackInRange(b.tracks.value, b.progress);
  }

  /** Asking twice for the book that is already loaded restores the play state. */
  lemma {:induction false} PlayBookSameTwice(e: Engine, books: seq<Book>, id: string, now1: int, now2: int)
    requires FindBook(books, Some(id)).Some? && e.player.currentBookId == Some(id)
    ensures PlayBook(PlayBook(e, books, id, now1).next, books, id, now2).next == e
  {
  }

  // ---------------------------------------------------------------------
  // seek / undoSeek

  /** Whether the audio element has to be moved: more than 0.5 s away from the target offset. */
  predicate NeedsNudge(audioTime: real, offset: real)
  {
    Abs(audioTime - offset) > 0.5
  }

  /** The audio-element effects of a seek within a multi-track book. */
  function TrackSeekCommands(b: Book, p: Position, prevIndex: nat, playing: bool, audioTime: real): seq<Command>
    requires HasTracks(b) && 0 <= p.index < |b.tracks.value|
  {
    if p.index != prevIndex then
      [LoadSource(b.tracks.value[p.index].url), SetPosition(p.offset)] + (if playing then [Play] else [])
    else if NeedsNudge(audioTime, p.offset) then [SetPosition(p.offset)]
    else []
  }

  /** The current book is in the library and has something to play: tracks or a single audio URL. */
  predicate Seekable(e: Engine, books: seq<Book>)
  {
    CurrentBook(e, books).Some?
    && (HasTracks(CurrentBook(e, books).value) || Truthy(CurrentBook(e, books).value.audioUrl))
  }

  /** The track a seek lands on: the one holding the clamped time, or the current one for a single-file book. */
  function SeekTrack(e: Engine, b: Book, time: real): (i: nat)
    ensures HasTracks(b) ==> i < |b.tracks.value|
    ensures !HasTracks(b) ==> i == e.player.currentTrackIndex
  {
    if HasTracks(b) then FindTrackByTime(b.tracks, ClampTime(time, b.duration)).index else e.player.currentTrackIndex
  }

  /** A seek within a book that has something to play; the previous position is kept for a manual seek only. */
  function SeekInBook(e: Engine, b: Book, time: real, isAuto: bool, audioTime: real): (r: Step)
    requires HasTracks(b) || Truthy(b.audioUrl)
    ensures r.next.history == e.history && r.next.sleepTriggered == e.sleepTriggered
    ensures r.next.sessionStart == e.sessionStart
    ensures r.next.player.isPlaying == e.player.isPlaying
    ensures r.next.player.currentTime == ClampTime(time, b.duration)
    ensures r.next.player.lastSeekPosition == (if isAuto then None else Some(e.player.currentTime))
    ensures r.next == e.(player := e.player.(
      currentTime := ClampTime(time, b.duration),
      currentTrackIndex := SeekTrack(e, b, time),
      lastSeekPosition := if isAuto then None else Some(e.player.currentTime)))
    ensures !HasTracks(b) ==> r.cmds == [SetPosition(ClampTime(time, b.duration))]
    ensures HasTracks(b) ==>
      var p := FindTrackByTime(b.tracks, ClampTime(time, b.duration));
      && (p.index != e.player.currentTrackIndex ==>
            r.cmds == [LoadSource(b.tracks.value[p.index].url), SetPosition(p.offset)]
                      + (if e.player.isPlaying then [Play] else []))
      && (p.index == e.player.currentTrackIndex ==>
            r.cmds == if NeedsNudge(audioTime, p.offset) then [SetPosition(p.offset)] else [])
  {
    var safe := ClampTime(time, b.duration);
    var last := if isAuto then None else Some(e.player.currentTime);
    if HasTracks(b) then
      var p := FindTrackByTime(b.tracks, safe);
      Step(e.(player := e.player.(currentTime := safe, currentTrackIndex := p.index, lastSeekPosition := last)),
           TrackSeekCommands(b, p, e.player.currentTrackIndex, e.player.isPlaying, audioTime))
    else
      Step(e.(player := e.player.(currentTime := safe, lastSeekPosition := last)), [SetPosition(safe)])
  }

  /**
   * `seek(time, isAuto)`: clamps the time into the book, moves to the track that
   * holds it, and remembers the previous position for a manual seek only.
   * `audioTime` is the audio element's current position.
   */
  function Seek(e: Engine, books: seq<Book>, time: real, isAuto: bool, audioTime: real): (r: Step)
    ensures r.next.history == e.history && r.next.sleepTriggered == e.sleepTriggered
    ensures r.next.sessionStart == e.sessionStart
    ensures r.next.player.isPlaying == e.player.isPlaying
    ensures !Seekable(e, books) ==> r == Step(e, [])
    ensures Seekable(e, books) ==>
      && r.next.player.currentTime == ClampTime(time, CurrentBook(e, books).value.duration)
      && r.next.player.lastSeekPosition == (if isAuto then None else Some(e.player.currentTime))
    ensures Seekable(e, books) ==>
      var b := CurrentBook(e, books).value;
      r.next == e.(player := e.player.(
        currentTime := ClampTime(time, b.duration),
        currentTrackIndex := SeekTrack(e, b, time),
        lastSeekPosition := if isAuto then None else Some(e.player.currentTime)))
  {
    if Seekable(e, books) then SeekInBook(e, CurrentBook(e, books).value, time, isAuto, audioTime)
    else Step(e, [])
  }

  /** `undoSeek`: a remembered position is consumed and an automatic seek back to it is queued. */
  function UndoSeek(e: Engine): (r: Step)
    ensures e.player.lastSeekPosition.None? ==> r == Step(e, [])
    ensures e.player.lastSeekPosition.Some? ==>
      r.next.player.lastSeekPosition.None? && r.cmds == [QueueSeek(e.player.lastSeekPosition.value, true)]
    ensures r.next == e.(player := e.player.(lastSeekPosition := None))
  {
    match e.player.lastSeekPosition
    case None => Step(e, [])
    case Some(t) => Step(e.(player := e.player.(lastSeekPosition := None)), [QueueSeek(t, true)])
  }

  /**
   * Undo after a manual seek that moved the player queues an automatic seek back
   * to the time before it; carrying out that automatic seek leaves nothing to undo.
   */
  lemma {:induction false} UndoAfterManualSeek(e: Engine, books: seq<Book>, time: real, audioTime: real, audioTime2: real)
    requires Seekable(e, books)
    ensures var s := Seek(e, books, time, false, audioTime).next;
      && UndoSeek(s).cmds == [QueueSeek(e.player.currentTime, true)]
      && Seek(UndoSeek(s).next, books, e.player.currentTime, true, audioTime2).next.player.lastSeekPosition.None?
  {
    var s := Seek(e, books, time, false, audioTime).next;
    assert s.player.lastSeekPosition == Some(e.player.currentTime);
    var u := UndoSeek(s);
    assert u.next.player.lastSeekPosition.None?;
    AutoSeekKeepsNothing(u.next, books, e.player.currentTime, audioTime2);
  }

  /** An automatic seek never leaves a position to undo when there was none. */
  lemma {:induction false} AutoSeekKeepsNothing(e: Engine, books: seq<Book>, time: real, audioTime: real)
    requires e.player.lastSeekPosition.None?
    ensures Seek(e, books, time, true, audioTime).next.player.lastSeekPosition.None?
  {
  }

  /**
   * For a book whose chapters were derived from its tracks, seeking to `t` and then
   * reporting the audio element at the offset the seek chose gives `t` back as
   * the global time.
   */
  lemma {:induction false} SeekThenTick(e: Engine, books: seq<Book>, t: real, isAuto: bool, audioTime: real)
    requires CurrentBook(e, books).Some?
    requires var b := CurrentBook(e, books).value;
      HasTracks(b) && b.chapters == Some(ChaptersFromTracks(b.tracks.value))
      && b.duration == Sum(Durations(b.tracks.value))
    requires 0.0 <= t <= CurrentBook(e, books).value.duration
    ensures var b := CurrentBook(e, books).value;
      var p := FindTrackByTime(b.tracks, t);
      HandleTimeUpdate(Seek(e, books, t, isAuto, audioTime).next, books, p.offset).next.player.currentTime == t
  {
    var b := CurrentBook(e, books).value;
    var ts := b.tracks.value;
    var p := FindTrackByTime(b.tracks, t);
    FindTrackInRange(ts, t);
    var s := Seek(e, books, t, isAuto, audioTime).next;
    assert s.player.currentTrackIndex == p.index;
    assert CurrentBook(s, books) == CurrentBook(e, books);
    TickGlobalTime(s, books, p.offset);
  }

  // ---------------------------------------------------------------------
  // togglePlay

  /**
   * `togglePlay(now)`: without a current book nothing happens; playing pauses and
   * stamps the pause; paused resumes, clears the stamp and queues an automatic
   * seek back by the smart-rewind amount when that is positive.
   */
  function TogglePlay(e: Engine, now: int): (r: Step)
    ensures !Truthy(e.player.currentBookId) ==> r == Step(e, [])
    ensures Truthy(e.player.currentBookId) ==> r.next.player.isPlaying == !e.player.isPlaying
    ensures Truthy(e.player.currentBookId) ==>
      r.next == e.(player := e.player.(
        isPlaying := !e.player.isPlaying,
        lastPausedAt := if e.player.isPlaying then Some(now) else None))
    ensures Truthy(e.player.currentBookId) && e.player.isPlaying ==>
      r.next.player.lastPausedAt == Some(now) && r.cmds == [Pause]
    ensures Truthy(e.player.currentBookId) && !e.player.isPlaying ==>
      && r.next.player.lastPausedAt.None?
      && Play in r.cmds
      && var k := ComputeSmartRewind(e.player.lastPausedAt, now);
        (k > 0 <==> QueueSeek(Max(0.0, e.player.currentTime - k as real), true) in r.cmds)
        && (k == 0 ==> r.cmds == [Play])
  {
    if !Truthy(e.player.currentBookId) then Step(e, [])
    else if e.player.isPlaying then
      Step(e.(player := e.player.(isPlaying := false, lastPausedAt := Some(now))), [Pause])
    else
      var rewind := ComputeSmartRewind(e.player.lastPausedAt, now);
      var queued := if rewind > 0 then [QueueSeek(Max(0.0, e.player.currentTime - rewind as real), true)] else [];
      Step(e.(player := e.player.(isPlaying := true, lastPausedAt := None)), queued + [Play])
  }

  /** Pausing and resuming gives back the playing state with no pause stamp. */
  lemma {:induction false} TogglePlayTwice(e: Engine, t1: int, t2: int)
    requires Truthy(e.player.currentBookId) && e.player.isPlaying
    ensures TogglePlay(TogglePlay(e, t1).next, t2).next == e.(player := e.player.(lastPausedAt := None))
  {
  }

  /** A resume after a pause longer than a day queues a 60-second rewind. */
  lemma {:induction false} ResumeAfterDay(e: Engine, t1: int, t2: int)
    requires Truthy(e.player.currentBookId) && e.player.isPlaying
    requires t1 != 0 && t2 - t1 > Day
    ensures QueueSeek(Max(0.0, e.player.currentTime - 60.0), true) in TogglePlay(TogglePlay(e, t1).next, t2).cmds
  {
  }

  // ---------------------------------------------------------------------
  // skipChapter

  datatype Direction = Prev | Next

  /** Index of the chapter holding `t`, 0 when none does. */
  function ActiveChapterOr0(cs: seq<Chapter>, t: real): (i: nat)
    ensures |cs| > 0 ==> i < |cs|
    ensures FindChapter(cs, t) >= 0 ==> i == FindChapter(cs, t)
    ensures FindChapter(cs, t) == -1 ==> i == 0
  {
    var k := FindChapter(cs, t);
    if k == -1 then 0 else k
  }

  /**
   * The time `skipChapter(dir)` jumps to. 'prev' goes to the previous chapter's
   * start within 3 s of the active chapter's start, else restarts the active
   * chapter; 'next' goes to the following chapter's start, or to the end of the
   * book from the last chapter. A time no chapter holds counts as chapter 0.
   */
  function SkipTarget(cs: seq<Chapter>, t: real, dir: Direction, duration: real): (r: real)
    requires dir == Prev ==> |cs| > 0
    ensures var i := FindChapter(cs, t);
      dir == Prev && i > 0 && t - cs[i].startTime < 3.0 ==> r == cs[i - 1].startTime
    ensures var i := FindChapter(cs, t);
      dir == Prev && i >= 0 && (i == 0 || t - cs[i].startTime >= 3.0) ==> r == cs[i].startTime
    ensures dir == Prev && FindChapter(cs, t) == -1 ==> r == cs[0].startTime
    ensures var i := FindChapter(cs, t);
      dir == Next && 0 <= i < |cs| - 1 ==> r == cs[i + 1].startTime
    ensures dir == Next && FindChapter(cs, t) == |cs| - 1 ==> r == duration
    ensures dir == Next && FindChapter(cs, t) == -1 ==> r == if |cs| > 1 then cs[1].startTime else duration
  {
    var idx := ActiveChapterOr0(cs, t);
    match dir
    case Prev =>
      if t - cs[idx].startTime < 3.0 && idx > 0 then cs[idx - 1].startTime else cs[idx].startTime
    case Next =>
      if idx < |cs| - 1 then cs[idx + 1].startTime else duration
  }

  /** `skipChapter` dereferences `chapters[0]` for 'prev', so it needs a chapter then. */
  predicate SkipDefined(e: Engine, books: seq<Book>, dir: Direction)
  {
    match CurrentBook(e, books)
    case None => true
    case Some(b) => dir == Prev && b.chapters.Some? ==> |b.chapters.value| > 0
  }

  /** `skipChapter(dir)`: leaves the state alone and queues a manual seek to the target. */
  function SkipChapter(e: Engine, books: seq<Book>, dir: Direction): (r: Step)
    requires SkipDefined(e, books, dir)
    ensures r.next == e
    ensures |r.cmds| <= 1
    ensures |r.cmds| == 1 <==> CurrentBook(e, books).Some? && CurrentBook(e, books).value.chapters.Some?
    ensures |r.cmds| == 1 ==> r.cmds[0].QueueSeek? && !r.cmds[0].isAuto
    ensures |r.cmds| == 1 ==>
      var b := CurrentBook(e, books).value;
      r.cmds[0].time == SkipTarget(b.chapters.value, e.player.currentTime, dir, b.duration)
  {
    match CurrentBook(e, books)
    case None => Step(e, [])
    case Some(b) =>
      match b.chapters
      case None => Step(e, [])
      case Some(cs) => Step(e, [QueueSeek(SkipTarget(cs, e.player.currentTime, dir, b.duration), false)])
  }

  /** Chapters that tile the book: contiguous, non-negative, the last one ending at `duration`. */
  predicate Tiles(cs: seq<Chapter>, duration: real)
  {
    && Contiguous(cs)
    && (forall i :: 0 <= i < |cs| ==> cs[i].duration >= 0.0)
    && |cs| > 0 && cs[|cs| - 1].startTime + cs[|cs| - 1].duration == duration
  }

  /**
   * Inside a tiled book, 'next' jumps strictly forward (to the next chapter's
   * start, or the end of the book) and 'prev' never jumps forward.
   */
  lemma {:induction false} SkipDirections(cs: seq<Chapter>, t: real, duration: real)
    requires Tiles(cs, duration)
    requires FindChapter(cs, t) >= 0
    ensures SkipTarget(cs, t, Next, duration) > t
    ensures SkipTarget(cs, t, Prev, duration) <= t
  {
    var idx := FindChapter(cs, t);
    if idx > 0 {
      assert cs[idx].startTime == cs[idx - 1].startTime + cs[idx - 1].duration;
    }
    if idx < |cs| - 1 {
      assert cs[idx + 1].startTime == cs[idx].startTime + cs[idx].duration;
    }
  }

  /** Three seconds or more into a chapter, 'prev' restarts it. */
  lemma {:induction false} SkipPrevRestarts(cs: seq<Chapter>, t: real, duration: real)
    requires FindChapter(cs, t) >= 0
    requires t - cs[FindChapter(cs, t)].startTime >= 3.0
    ensures SkipTarget(cs, t, Prev, duration) == cs[FindChapter(cs, t)].startTime
  {
  }

  // ---------------------------------------------------------------------
  // audio element events

  /**
   * The 'ended' handler: moves to the next track and queues its loading when
   * there is one; otherwise finishes the book and prepends one history entry,
   * keeping at most 1000.
   */
  function HandleEnded(e: Engine, books: seq<Book>, now: int): (r: Step)
    ensures CurrentBook(e, books).None? ==> r == Step(e, [])
    ensures r.next.sleepTriggered == e.sleepTriggered && r.next.sessionStart == e.sessionStart
    ensures |r.next.history| <= Max2(|e.history|, HistoryCap)
  {
    match CurrentBook(e, books)
    case None => Step(e, [])
    case Some(b) =>
      if b.tracks.Some? && e.player.currentTrackIndex < |b.tracks.value| - 1 then
        var next := e.player.currentTrackIndex + 1;
        Step(e.(player := e.player.(currentTrackIndex := next)), [LoadAndPlay(b.tracks.value[next].url)])
      else
        var entry := HistoryEntry("h_" + IntToString(now), e.player.currentBookId.GetOr(""), now,
                                  (now - e.sessionStart) as real / 1000.0);
        var h := [entry] + e.history;
        Step(e.(player := e.player.(isPlaying := false, currentTime := b.duration),
                history := if |h| > HistoryCap then h[..HistoryCap] else h),
             [Notify(BookFinished)])
  }

  function Max2(a: nat, b: nat): nat
  {
    if a >= b then a else b
  }

  /** Before the last track, 'ended' advances exactly one track and leaves the clock and history alone. */
  lemma {:induction false} EndedAdvances(e: Engine, books: seq<Book>, now: int)
    requires CurrentBook(e, books).Some?
    requires var b := CurrentBook(e, books).value;
      b.tracks.Some? && e.player.currentTrackIndex < |b.tracks.value| - 1
    ensures var r := HandleEnded(e, books, now);
      && r.next == e.(player := e.player.(currentTrackIndex := e.player.currentTrackIndex + 1))
      && r.cmds == [LoadAndPlay(CurrentBook(e, books).value.tracks.value[e.player.currentTrackIndex + 1].url)]
  {
  }

  /**
   * On the last track (or without tracks), 'ended' stops at the end of the book and
   * records exactly one new history entry in front, for the current book, with
   * the time since the session started; older entries follow in order.
   */
  lemma {:induction false} EndedFinishes(e: Engine, books: seq<Book>, now: int)
    requires CurrentBook(e, books).Some?
    requires var b := CurrentBook(e, books).value;
      b.tracks.None? || e.player.currentTrackIndex >= |b.tracks.value| - 1
    ensures var r := HandleEnded(e, books, now);
      && !r.next.player.isPlaying
      && r.next.player.currentTime == CurrentBook(e, books).value.duration
      && |r.next.history| == (if |e.history| < HistoryCap then |e.history| + 1 else HistoryCap)
      && r.next.history[0].bookId == e.player.currentBookId.value
      && r.next.history[0].timestamp == now
      && r.next.history[0].durationListened == (now - e.sessionStart) as real / 1000.0
      && r.next.history[1..] == e.history[..|r.next.history| - 1]
  {
  }

  /** Start time of the chapter at the track index, 0 when there is none (`?.startTime || 0`). */
  function TrackStart(chapters: Option<seq<Chapter>>, index: nat): (s: real)
    ensures chapters.Some? && index < |chapters.value| ==> s == chapters.value[index].startTime
    ensures chapters.None? || index >= |chapters.value| ==> s == 0.0
  {
    if chapters.Some? && index < |chapters.value| then chapters.value[index].startTime else 0.0
  }

  /**
   * The 'timeupdate' handler: converts the audio element's in-track position
   * into global time and schedules the progress save.
   */
  function HandleTimeUpdate(e: Engine, books: seq<Book>, audioTime: real): (r: Step)
    ensures CurrentBook(e, books).None? ==> r == Step(e, [])
    ensures CurrentBook(e, books).Some? ==>
      && r.next == e.(player := e.player.(currentTime := r.next.player.currentTime))
      && r.cmds == [SaveProgress(e.player.currentBookId, e.player.currentTrackIndex, r.next.player.currentTime)]
    ensures CurrentBook(e, books).Some? && !HasTracks(CurrentBook(e, books).value) ==>
      r.next.player.currentTime == audioTime
  {
    match CurrentBook(e, books)
    case None => Step(e, [])
    case Some(b) =>
      var global := if HasTracks(b) then TrackStart(b.chapters, e.player.currentTrackIndex) + audioTime else audioTime;
      Step(e.(player := e.player.(currentTime := global)),
           [SaveProgress(e.player.currentBookId, e.player.currentTrackIndex, global)])
  }

  /**
   * With chapters derived from the tracks, the tick's global time is the summed
   * duration of the earlier tracks plus the in-track position.
   */
  lemma {:induction false} TickGlobalTime(e: Engine, books: seq<Book>, audioTime: real)
    requires CurrentBook(e, books).Some?
    requires var b := CurrentBook(e, books).value;
      HasTracks(b) && b.chapters == Some(ChaptersFromTracks(b.tracks.value))
      && e.player.currentTrackIndex < |b.tracks.value|
    ensures HandleTimeUpdate(e, books, audioTime).next.player.currentTime
      == Globalize(Durations(CurrentBook(e, books).value.tracks.value), e.player.currentTrackIndex, audioTime)
  {
    ChaptersFromTracksSpec(CurrentBook(e, books).value.tracks.value, e.player.currentTrackIndex);
  }

  /** The 'error' handler: stops and raises a toast. */
  function HandleError(e: Engine): (r: Step)
    ensures r.next == e.(player := e.player.(isPlaying := false))
    ensures r.cmds == [Notify(AudioLoadFailed)]
  {
    Step(e.(player := e.player.(isPlaying := false)), [Notify(AudioLoadFailed)])
  }

  // ---------------------------------------------------------------------
  // sleep watchdog

  /** A sleep timer deadline is set (0 is falsy). */
  predicate TimerArmed(p: PlayerState)
  {
    p.sleepTimer.Some? && p.sleepTimer.value != 0
  }

  /** The watchdog interval exists only while a deadline or end-of-chapter mode is set. */
  predicate WatchdogArmed(p: PlayerState)
  {
    TimerArmed(p) || p.sleepEndOfChapter
  }

  /** Re-running the watchdog effect: with nothing armed the trigger guard is reset. */
  function WatchdogSync(e: Engine): (r: Engine)
    ensures r.player == e.player && r.history == e.history && r.sessionStart == e.sessionStart
    ensures r.sleepTriggered == (e.sleepTriggered && WatchdogArmed(e.player))
  {
    if !WatchdogArmed(e.player) then e.(sleepTriggered := false) else e
  }

  /** The deadline has passed. */
  predicate DeadlineReached(e: Engine, now: int)
  {
    TimerArmed(e.player) && now >= e.player.sleepTimer.value
  }

  /** End-of-chapter mode is on and the current time lies in no chapter of the current book. */
  predicate ChapterEnded(e: Engine, books: seq<Book>)
  {
    && e.player.sleepEndOfChapter
    && Truthy(e.player.currentBookId)
    && var b := CurrentBook(e, books);
      && b.Some? && b.value.chapters.Some? && |b.value.chapters.value| > 0
      && FindChapter(b.value.chapters.value, e.player.currentTime) == -1
  }

  function Fire(e: Engine, n: Notice): Engine
  {
    e.(player := e.player.(isPlaying := false, sleepTimer := None, sleepEndOfChapter := false),
       sleepTriggered := true)
  }

  /** One 700 ms tick of the watchdog, `now` being the wall clock. */
  function WatchdogTick(e: Engine, books: seq<Book>, now: int): (r: Step)
    ensures r.next.history == e.history && r.next.sessionStart == e.sessionStart
    ensures r.cmds != [] <==>
      WatchdogArmed(e.player) && !e.sleepTriggered && (DeadlineReached(e, now) || ChapterEnded(e, books))
    ensures r.cmds == [] ==> r.next == e
    ensures r.cmds != [] ==>
      && !r.next.player.isPlaying && !WatchdogArmed(r.next.player) && r.next.sleepTriggered
      && r.next.player == e.player.(isPlaying := false, sleepTimer := None, sleepEndOfChapter := false)
      && |r.cmds| == 2 && r.cmds[0] == Pause
  {
    if !WatchdogArmed(e.player) then Step(e, [])
    else if DeadlineReached(e, now) && !e.sleepTriggered then
      Step(Fire(e, SleepTimerPaused), [Pause, Notify(SleepTimerPaused)])
    else if ChapterEnded(e, books) && !e.sleepTriggered then
      Step(Fire(e, ChapterEndPaused), [Pause, Notify(ChapterEndPaused)])
    else Step(e, [])
  }

  /** Once the watchdog fired it cannot fire again until it is re-armed. */
  lemma {:induction false} WatchdogFiresOnce(e: Engine, books: seq<Book>, now1: int, now2: int)
    requires WatchdogTick(e, books, now1).cmds != []
    ensures var s := WatchdogTick(e, books, now1).next;
      WatchdogTick(s, books, now2) == Step(s, [])
      && WatchdogTick(WatchdogSync(s), books, now2) == Step(WatchdogSync(s), [])
  {
  }

  /** `setSleepTimer(m, e)`: a deadline `m` minutes from now (none for null or 0), and the guard reset. */
  function SetSleepTimer(e: Engine, minutes: Option<int>, endOfChapter: bool, now: int): (r: Engine)
    ensures r.player.sleepEndOfChapter == endOfChapter && !r.sleepTriggered
    ensures TimerArmed(r.player) || r.player.sleepTimer.None? || r.player.sleepTimer == Some(0)
    ensures minutes.Some? && minutes.value != 0 ==> r.player.sleepTimer == Some(now + minutes.value * 60000)
    ensures minutes.None? || minutes.value == 0 ==> r.player.sleepTimer.None?
    ensures r == e.(player := r.player, sleepTriggered := false)
    ensures r.player == e.player.(sleepTimer := r.player.sleepTimer, sleepEndOfChapter := endOfChapter)
  {
    var t := if minutes.Some? && minutes.value != 0 then Some(now + minutes.value * 60000) else None;
    e.(player := e.player.(sleepTimer := t, sleepEndOfChapter := endOfChapter), sleepTriggered := false)
  }

  /** A positive timer set at `now` fires at its deadline and not a millisecond before. */
  lemma {:induction false} SleepTimerFiresAtDeadline(e: Engine, books: seq<Book>, m: int, now: int, later: int)
    requires m > 0 && now >= 0
    ensures var s := SetSleepTimer(e, Some(m), false, now);
      (WatchdogTick(s, books, later).cmds != [] <==> later >= now + m * 60000)
  {
  }

  // ---------------------------------------------------------------------
  // simple setters

  /** `setABLoop(s, e)`: any call activates the loop. */
  function SetABLoop(e: Engine, start: Option<real>, end: Option<real>): (r: Engine)
    ensures r.player.abLoop.active && r.player.abLoop.start == start && r.player.abLoop.end == end
    ensures r == e.(player := e.player.(abLoop := r.player.abLoop))
  {
    e.(player := e.player.(abLoop := ABLoop(start, end, true)))
  }

  /** `clearABLoop()`: both markers gone and the loop inactive. */
  function ClearABLoop(e: Engine): (r: Engine)
    ensures !r.player.abLoop.active && r.player.abLoop.start.None? && r.player.abLoop.end.None?
    ensures r == e.(player := e.player.(abLoop := r.player.abLoop))
  {
    e.(player := e.player.(abLoop := ClearedLoop))
  }

  /** `setSpeed(s)`: stored as given, without clamping. */
  function SetSpeed(e: Engine, s: real): (r: Engine)
    ensures r.player.speed == s
    ensures r == e.(player := e.player.(speed := r.player.speed))
  {
    e.(player := e.player.(speed := s))
  }
}
