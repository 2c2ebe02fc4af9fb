/**
 * The demo library of constants.ts (`DEFAULT_BOOKS`) and concrete walks of the
 * engine over it. `addedAt` depends on the clock, so the fixtures take `now`.
 */
module Fixtures {
  import Text
  import opened Wrappers
  import opened Types
  import opened Timeline
  import opened Engine

  const DemoAudioUrl: string := "https://www.soundhelix.com/examples/mp3/SoundHelix-Song-1.mp3"

  function Demo(id: string, title: string, author: string, n: nat, duration: real, addedAt: int, cs: seq<Chapter>): Book
  {
    Book(id, title, author, "https://picsum.photos/400/400?random=" + Text.NatToString(n),
         duration, 0.0, addedAt, Some(cs), None, Some(DemoAudioUrl), false)
  }

  const B1Chapters: seq<Chapter> := [
    Chapter("第一章: 疯狂年代", 0.0, 600.0),
    Chapter("第二章: 寂静的春天", 600.0, 900.0),
    Chapter("第三章: 红岸之巅", 1500.0, 1200.0),
    Chapter("第四章: 科学边界", 2700.0, 900.0)]

  const B2Chapters: seq<Chapter> := [
    Chapter("序言", 0.0, 300.0),
    Chapter("第一部分: 浪荡岁月", 300.0, 800.0),
    Chapter("第二部分: 艰难生存", 1100.0, 700.0)]

  const B3Chapters: seq<Chapter> := [
    Chapter("第一部分: 认知革命", 0.0, 1000.0),
    Chapter("第二部分: 农业革命", 1000.0, 1200.0),
    Chapter("第三部分: 人类的融合", 2200.0, 1000.0),
    Chapter("第四部分: 科学革命", 3200.0, 1000.0)]

  const B4Chapters: seq<Chapter> := [
    Chapter("序章", 0.0, 300.0),
    Chapter("上部: 面壁者", 300.0, 2000.0),
    Chapter("中部: 咒语", 2300.0, 1500.0),
    Chapter("下部: 黑暗森林", 3800.0, 1200.0)]

  const B5Chapters: seq<Chapter> := [
    Chapter("第一部", 0.0, 2000.0),
    Chapter("第二部", 2000.0, 2000.0),
    Chapter("第三部", 4000.0, 2000.0)]

  /** `DEFAULT_BOOKS`, added 0, 100, 200, 300 and 400 seconds before `now`. */
  function DefaultBooks(now: int): seq<Book>
  {
    [ Demo("b1", "三体: 地球往事", "刘慈欣", 1, 3600.0, now, B1Chapters),
      Demo("b2", "活着", "余华", 2, 1800.0, now - 100000, B2Chapters),
      Demo("b3", "人类简史", "尤瓦尔·赫拉利", 3, 4200.0, now - 200000, B3Chapters),
      Demo("b4", "三体 II: 黑暗森林", "刘慈欣", 4, 5000.0, now - 300000, B4Chapters),
      Demo("b5", "三体 III: 死神永生", "刘慈欣", 5, 6000.0, now - 400000, B5Chapters) ]
  }

  /** Every demo book's chapters tile it: contiguous and ending at the book's duration. */
  lemma {:induction false} DefaultBooksTile(now: int)
    ensures forall b :: b in DefaultBooks(now) ==> b.chapters.Some? && Tiles(b.chapters.value, b.duration)
  {
    var bs := DefaultBooks(now);
    DemoChaptersTile();
    forall i | 0 <= i < |bs|
      ensures bs[i].chapters.Some? && Tiles(bs[i].chapters.value, bs[i].duration)
    {
      assert i == 0 || i == 1 || i == 2 || i == 3 || i == 4;
    }
  }

  /** Each demo chapter list tiles its book's duration. */
  lemma {:induction false} DemoChaptersTile()
    ensures Tiles(B1Chapters, 3600.0) && Tiles(B2Chapters, 1800.0) && Tiles(B3Chapters, 4200.0)
    ensures Tiles(B4Chapters, 5000.0) && Tiles(B5Chapters, 6000.0)
  {
    assert Tiles(B1Chapters, 3600.0);
    assert Tiles(B2Chapters, 1800.0);
    assert Tiles(B3Chapters, 4200.0);
    assert Tiles(B4Chapters, 5000.0);
    assert Tiles(B5Chapters, 6000.0);
  }

  const Fresh: Engine := Engine(InitialPlayer, [], false, 0)

  /** The first book of a library is the demo's "b1": one file, 3600 s, not started, the four chapters of B1Chapters. */
  predicate OpensWithB1(books: seq<Book>)
  {
    && |books| > 0 && books[0].id == "b1"
    && books[0].tracks.None? && books[0].audioUrl == Some(DemoAudioUrl)
    && books[0].duration == 3600.0 && books[0].progress == 0.0 && books[0].chapters == Some(B1Chapters)
  }

  /** The demo library opens with "b1". */
  lemma {:induction false} DefaultOpensWithB1(now: int)
    ensures OpensWithB1(DefaultBooks(now))
  {
  }

  /**
   * Playing "b1" loads its single file from the start; a manual seek to 603 s
   * lands three seconds into chapter two; 'prev' then restarts chapter two
   * (three seconds is not "less than three") and 'next' goes to chapter three.
   */
  lemma {:induction false} PlaySeekSkipScenario(now: int)
    ensures var books := DefaultBooks(now);
      var s1 := PlayBook(Fresh, books, "b1", now);
      var s2 := Seek(s1.next, books, 603.0, false, 0.0);
      && s1.cmds == [LoadSource(DemoAudioUrl), SetPosition(0.0), Play]
      && s2.next.player.currentTime == 603.0
      && s2.next.player.lastSeekPosition == Some(0.0)
      && s2.cmds == [SetPosition(603.0)]
      && SkipChapter(s2.next, books, Prev).cmds == [QueueSeek(600.0, false)]
      && SkipChapter(s2.next, books, Next).cmds == [QueueSeek(1500.0, false)]
  {
    DefaultOpensWithB1(now);
    PlaySeekSkipWalk(DefaultBooks(now), now);
  }

  /** The walk of PlaySeekSkipScenario over any library that opens with "b1". */
  lemma {:induction false} PlaySeekSkipWalk(books: seq<Book>, now: int)
    requires OpensWithB1(books)
    ensures var s1 := PlayBook(Fresh, books, "b1", now);
      var s2 := Seek(s1.next, books, 603.0, false, 0.0);
      && s1.cmds == [LoadSource(DemoAudioUrl), SetPosition(0.0), Play]
      && s2.next.player.currentTime == 603.0
      && s2.next.player.lastSeekPosition == Some(0.0)
      && s2.cmds == [SetPosition(603.0)]
      && SkipChapter(s2.next, books, Prev).cmds == [QueueSeek(600.0, false)]
      && SkipChapter(s2.next, books, Next).cmds == [QueueSeek(1500.0, false)]
  {
    assert FindBook(books, Some("b1")) == Some(books[0]);
    var s1 := PlayBook(Fresh, books, "b1", now);
    assert CurrentBook(s1.next, books) == Some(books[0]);
    var s2 := Seek(s1.next, books, 603.0, false, 0.0);
    assert CurrentBook(s2.next, books) == Some(books[0]);
    assert FindChapter(B1Chapters, 603.0) == 1;
  }

  /** One second into chapter two, 'prev' goes back to the start of chapter one. */
  lemma {:induction false} SkipPrevEarlyScenario(now: int)
    ensures var books := DefaultBooks(now);
      var s1 := PlayBook(Fresh, books, "b1", now);
      var s2 := Seek(s1.next, books, 601.0, true, 0.0);
      && s2.next.player.lastSeekPosition.None?
      && SkipChapter(s2.next, books, Prev).cmds == [QueueSeek(0.0, false)]
  {
    DefaultOpensWithB1(now);
    SkipPrevEarlyWalk(DefaultBooks(now), now);
  }

  /** The walk of SkipPrevEarlyScenario over any library that opens with "b1". */
  lemma {:induction false} SkipPrevEarlyWalk(books: seq<Book>, now: int)
    requires OpensWithB1(books)
    ensures var s1 := PlayBook(Fresh, books, "b1", now);
      var s2 := Seek(s1.next, books, 601.0, true, 0.0);
      && s2.next.player.lastSeekPosition.None?
      && SkipChapter(s2.next, books, Prev).cmds == [QueueSeek(0.0, false)]
  {
    assert FindBook(books, Some("b1")) == Some(books[0]);
    var s1 := PlayBook(Fresh, books, "b1", now);
    assert CurrentBook(s1.next, books) == Some(books[0]);
    var s2 := Seek(s1.next, books, 601.0, true, 0.0);
    assert CurrentBook(s2.next, books) == Some(books[0]);
    assert FindChapter(B1Chapters, 601.0) == 1;
  }

  /**
   * A seek past the end clamps to the duration, where no chapter holds the time,
   * so an armed end-of-chapter watchdog pauses on its next tick; 'ended' then
   * records one history entry for the session.
   */
  lemma {:induction false} EndOfBookScenario(now: int, later: int)
    ensures var books := DefaultBooks(now);
      var s1 := PlayBook(Fresh, books, "b1", now);
      var s2 := Seek(s1.next, books, 9999.0, false, 0.0);
      var armed := SetSleepTimer(s2.next, None, true, now);
      var tick := WatchdogTick(armed, books, later);
      var ended := HandleEnded(tick.next, books, later);
      && s2.next.player.currentTime == 3600.0
      && tick.cmds == [Pause, Notify(ChapterEndPaused)]
      && ended.next.history == [HistoryEntry("h_" + Text.IntToString(later), "b1", later, (later - now) as real / 1000.0)]
  {
    DefaultOpensWithB1(now);
    EndOfBookWalk(DefaultBooks(now), now, later);
  }

  /** The walk of EndOfBookScenario over any library that opens with "b1". */
  lemma {:induction false} EndOfBookWalk(books: seq<Book>, now: int, later: int)
    requires OpensWithB1(books)
    ensures var s1 := PlayBook(Fresh, books, "b1", now);
      var s2 := Seek(s1.next, books, 9999.0, false, 0.0);
      var armed := SetSleepTimer(s2.next, None, true, now);
      var tick := WatchdogTick(armed, books, later);
      var ended := HandleEnded(tick.next, books, later);
      && s2.next.player.currentTime == 3600.0
      && tick.cmds == [Pause, Notify(ChapterEndPaused)]
      && ended.next.history == [HistoryEntry("h_" + Text.IntToString(later), "b1", later, (later - now) as real / 1000.0)]
  {
    assert FindBook(books, Some("b1")) == Some(books[0]);
    var s1 := PlayBook(Fresh, books, "b1", now);
    assert CurrentBook(s1.next, books) == Some(books[0]);
    var s2 := Seek(s1.next, books, 9999.0, false, 0.0);
    assert s2.next.player.currentBookId == Some("b1");
    assert s2.next.player.currentTime == 3600.0;
    EndOfChapterAtEnd(s2.next, books, now, later);
  }

  /** Parked at the very end of "b1", an end-of-chapter watchdog pauses and 'ended' records the session. */
  lemma {:induction false} EndOfChapterAtEnd(e: Engine, books: seq<Book>, now: int, later: int)
    requires OpensWithB1(books)
    requires e.player.currentBookId == Some("b1") && e.player.currentTime == 3600.0
    requires e.history == [] && e.sessionStart == now
    ensures var armed := SetSleepTimer(e, None, true, now);
      var tick := WatchdogTick(armed, books, later);
      var ended := HandleEnded(tick.next, books, later);
      && tick.cmds == [Pause, Notify(ChapterEndPaused)]
      && ended.next.history == [HistoryEntry("h_" + Text.IntToString(later), "b1", later, (later - now) as real / 1000.0)]
  {
    assert FindBook(books, Some("b1")) == Some(books[0]);
    var armed := SetSleepTimer(e, None, true, now);
    assert CurrentBook(armed, books) == Some(books[0]);
    assert FindChapter(B1Chapters, 3600.0) == -1;
    var tick := WatchdogTick(armed, books, later);
    assert CurrentBook(tick.next, books) == Some(books[0]);
    assert tick.next.history == [] && tick.next.sessionStart == now;
    assert tick.next.player.currentBookId == Some("b1");
    EndedFirstEntry(tick.next, books, later);
  }

  /** With no earlier history, finishing a single-file book leaves exactly the one new entry. */
  lemma {:induction false} EndedFirstEntry(e: Engine, books: seq<Book>, now: int)
    requires CurrentBook(e, books).Some? && CurrentBook(e, books).value.tracks.None?
    requires e.history == [] && e.player.currentBookId.Some?
    ensures HandleEnded(e, books, now).next.history ==
      [HistoryEntry("h_" + Text.IntToString(now), e.player.currentBookId.value, now, (now - e.sessionStart) as real / 1000.0)]
  {
  }
}
