/**
 * The statistics page's aggregates (pages/Stats.tsx): library counts and sums,
 * the completion rate, listening totals for the last week and month, the three
 * authors listened to longest, and the duration and heat-map formatting.
 */
module Stats {
  import opened Wrappers
  import opened Text
  import opened Seqs
  import opened Types
  import opened Library
  import opened Tally

  predicate Liked(b: Book)
  {
    b.isLiked
  }

  /** Finished for the statistics: a positive duration and more than 90% listened. */
  predicate Completed(b: Book)
  {
    b.duration > 0.0 && b.progress > b.duration * 0.9
  }

  function Duration(b: Book): real
  {
    b.duration
  }

  function Progress(b: Book): real
  {
    b.progress
  }

  function Listened(h: HistoryEntry): real
  {
    h.durationListened
  }

  /** `favoritesCount`: the liked books. */
  function FavoritesCount(books: seq<Book>): (n: nat)
    ensures n <= |books|
    ensures n == 0 <==> forall i :: 0 <= i < |books| ==> !books[i].isLiked
  {
    var liked := Filter(books, Liked);
    assert forall i :: 0 <= i < |books| && books[i].isLiked ==> books[i] in liked;
    assert |liked| > 0 ==> liked[0] in liked;
    |liked|
  }

  /** `completedCount`. */
  function CompletedCount(books: seq<Book>): (n: nat)
    ensures n <= |books|
    ensures n == |books| <==> forall i :: 0 <= i < |books| ==> Completed(books[i])
  {
    var done := Filter(books, Completed);
    FilterCountAll(books, Completed);
    |done|
  }

  /** A filter keeps every element exactly when its test holds for all of them. */
  lemma {:induction false} FilterCountAll(s: seq<Book>, p: Book -> bool)
    ensures |Filter(s, p)| == |s| <==> forall i :: 0 <= i < |s| ==> p(s[i])
    decreases |s|
  {
    if |s| > 0 {
      FilterCountAll(s[1..], p);
      AllHeadTail(s, p);
      assert |Filter(s, p)| == (if p(s[0]) then 1 else 0) + |Filter(s[1..], p)|;
    }
  }

  /** A test holds for every element exactly when it holds for the head and for every element of the tail. */
  lemma {:induction false} AllHeadTail(s: seq<Book>, p: Book -> bool)
    requires |s| > 0
    ensures (forall i :: 0 <= i < |s| ==> p(s[i])) <==> p(s[0]) && forall i :: 0 <= i < |s[1..]| ==> p(s[1..][i])
  {
    assert forall i :: 1 <= i < |s| ==> s[i] == s[1..][i - 1];
  }

  /** `Math.round`: the nearest integer, halves rounded up. */
  function JsRound(x: real): (r: int)
    ensures x - 0.5 < r as real <= x + 0.5
  {
    (x + 0.5).Floor
  }

  /**
   * `completionRate`: 0 for an empty library, otherwise the completed share
   * as a percentage rounded to the nearest whole number.
   */
  function CompletionRate(books: seq<Book>): (r: int)
    ensures 0 <= r <= 100
    ensures |books| == 0 ==> r == 0
    ensures |books| > 0 ==>
      var x := CompletedCount(books) as real / |books| as real * 100.0;
      x - 0.5 < r as real <= x + 0.5
  {
    var t := |books|;
    var c := CompletedCount(books);
    if t > 0 then
      PercentBounds(c as real, t as real);
      JsRound(c as real / t as real * 100.0)
    else 0
  }

  lemma {:induction false} RoundWhole(n: int)
    ensures JsRound(n as real) == n
  {
  }

  lemma {:induction false} WholeShare(c: nat, t: nat)
    requires c == t && t > 0
    ensures JsRound(c as real / t as real * 100.0) == 100
  {
    assert c as real / t as real == 1.0;
    RoundWhole(100);
  }

  /** A library entirely completed rates 100. */
  lemma {:induction false} AllCompletedRate(books: seq<Book>)
    requires |books| > 0 && forall i :: 0 <= i < |books| ==> Completed(books[i])
    ensures CompletionRate(books) == 100
  {
    var c := CompletedCount(books);
    assert c == |books|;
    WholeShare(c, |books|);
  }

  /** A library with nothing completed rates 0. */
  lemma {:induction false} NoneCompletedRate(books: seq<Book>)
    requires forall i :: 0 <= i < |books| ==> !Completed(books[i])
    ensures CompletionRate(books) == 0
  {
    var done := Filter(books, Completed);
    if |done| > 0 {
      assert done[0] in done;
    }
    assert CompletedCount(books) == 0;
    if |books| > 0 {
      assert 0.0 / |books| as real == 0.0;
      RoundWhole(0);
    }
  }

  /** `totalTime` and `totalProgress`: sums over the library. */
  function TotalTime(books: seq<Book>): real
  {
    SumOf(books, Duration)
  }

  function TotalProgress(books: seq<Book>): real
  {
    SumOf(books, Progress)
  }

  /** When no book is listened past its end, the total progress is at most the total time. */
  lemma {:induction false} ProgressWithinTime(books: seq<Book>)
    requires forall b :: b in books ==> b.progress <= b.duration
    ensures TotalProgress(books) <= TotalTime(books)
  {
    SumOfMonotone(books, Progress, Duration);
  }

  /** Entries logged strictly after `t`. */
  function After(t: int): HistoryEntry -> bool
  {
    (h: HistoryEntry) => h.timestamp > t
  }

  /** `totalListenedTime`. */
  function TotalListened(history: seq<HistoryEntry>): real
  {
    SumOf(history, Listened)
  }

  /** `thisWeekTime`: time listened in sessions of the last seven days. */
  function WeekTime(history: seq<HistoryEntry>, now: int): real
  {
    SumOf(Filter(history, After(now - 7 * DayMs)), Listened)
  }

  /** `thisMonthTime`: time listened in sessions of the last thirty days. */
  function MonthTime(history: seq<HistoryEntry>, now: int): real
  {
    SumOf(Filter(history, After(now - 30 * DayMs)), Listened)
  }

  /**
   * With no negative session lengths, the week's total is at most the month's,
   * which is at most the all-time total.
   */
  lemma {:induction false} WeekWithinMonth(history: seq<HistoryEntry>, now: int)
    requires forall h :: h in history ==> h.durationListened >= 0.0
    ensures 0.0 <= WeekTime(history, now) <= MonthTime(history, now) <= TotalListened(history)
  {
    var week := Filter(history, After(now - 7 * DayMs));
    var month := Filter(history, After(now - 30 * DayMs));
    SumOfNonNegative(week, Listened);
    FilterWeaker(history, After(now - 7 * DayMs), After(now - 30 * DayMs));
    SumOfSubsequence(week, month, Listened);
    SumOfSubsequence(month, history, Listened);
  }

  /** The author a session is credited to: the author of its book, when the book is in the library. */
  function CreditedAuthor(books: seq<Book>, h: HistoryEntry): Option<string>
  {
    var b := FindBook(books, Some(h.bookId));
    if b.Some? then Some(b.value.author) else None
  }

  /** The reference total: seconds of the sessions credited to `name`. */
  function ListenedTo(books: seq<Book>, history: seq<HistoryEntry>, name: string): real
  {
    if |history| == 0 then 0.0
    else
      var h := history[|history| - 1];
      ListenedTo(books, history[..|history| - 1], name)
        + (if CreditedAuthor(books, h) == Some(name) then h.durationListened else 0.0)
  }

  /**
   * `authorTimeMap`, in the order the authors are first credited. `Object.entries`
   * lists index-like names such as "1984" first; after the stable sort by time
   * that changes only the order of authors with equal time.
   */
  function Rows(books: seq<Book>, history: seq<HistoryEntry>): seq<Row>
  {
    if |history| == 0 then []
    else
      var es := Rows(books, history[..|history| - 1]);
      var h := history[|history| - 1];
      match CreditedAuthor(books, h)
      case None => es
      case Some(a) => Credit(es, a, h.durationListened)
  }

  /** Some session in `history` is credited to `name`. */
  predicate CreditedIn(books: seq<Book>, history: seq<HistoryEntry>, name: string)
  {
    exists i :: 0 <= i < |history| && CreditedAuthor(books, history[i]) == Some(name)
  }

  /** The sessions credited to `name` in `history` are those in its prefix plus possibly its last one. */
  lemma {:induction false} CreditedInSnoc(books: seq<Book>, history: seq<HistoryEntry>, name: string)
    requires |history| > 0
    ensures CreditedIn(books, history, name) <==>
      CreditedIn(books, history[..|history| - 1], name) || CreditedAuthor(books, history[|history| - 1]) == Some(name)
  {
    var init := history[..|history| - 1];
    var last := |history| - 1;
    assert CreditedIn(books, init, name) ==> CreditedIn(books, history, name) by {
      if CreditedIn(books, init, name) {
        var i :| 0 <= i < |init| && CreditedAuthor(books, init[i]) == Some(name);
        assert history[i] == init[i];
      }
    }
    assert CreditedAuthor(books, history[last]) == Some(name) ==> CreditedIn(books, history, name);
    assert CreditedIn(books, history, name) ==>
      CreditedIn(books, init, name) || CreditedAuthor(books, history[last]) == Some(name) by {
      if CreditedIn(books, history, name) {
        var i :| 0 <= i < |history| && CreditedAuthor(books, history[i]) == Some(name);
        if i < last {
          assert init[i] == history[i];
        }
      }
    }
  }

  /** Every author credited with a session has a row, and no other name has one. */
  lemma {:induction false} RowsNames(books: seq<Book>, history: seq<HistoryEntry>, n: string)
    ensures n in Names(Rows(books, history)) <==> CreditedIn(books, history, n)
    decreases |history|
  {
    if |history| > 0 {
      RowsNames(books, history[..|history| - 1], n);
      CreditedInSnoc(books, history, n);
    }
  }

  /** Each name has one row. */
  lemma {:induction false} RowsDistinct(books: seq<Book>, history: seq<HistoryEntry>)
    ensures DistinctBy(Rows(books, history), NameOf)
    decreases |history|
  {
    if |history| > 0 {
      var es := Rows(books, history[..|history| - 1]);
      var h := history[|history| - 1];
      RowsDistinct(books, history[..|history| - 1]);
      if CreditedAuthor(books, h).Some? {
        DistinctNamesCredit(es, CreditedAuthor(books, h).value, h.durationListened);
      }
    }
  }

  /** The time recorded for each name is the author's total listened time. */
  lemma {:induction false} RowsTimes(books: seq<Book>, history: seq<HistoryEntry>, n: string)
    ensures TotalFor(Rows(books, history), n) == ListenedTo(books, history, n)
    decreases |history|
  {
    if |history| > 0 {
      RowsTimes(books, history[..|history| - 1], n);
    }
  }

  /** `topAuthors`: the three authors with the most listened time, most first. */
  function TopAuthors(books: seq<Book>, history: seq<HistoryEntry>): (r: seq<Row>)
    ensures |r| <= 3 && |r| <= |Rows(books, history)|
    ensures |Rows(books, history)| >= 3 ==> |r| == 3
    ensures SortedDesc(r, TotalOf)
  {
    TakeSortDescShape(Rows(books, history), TotalOf, 3);
    Take(SortDesc(Rows(books, history), TotalOf), 3)
  }

  /**
   * At most three rows, ordered by time, one per author, each an author with a
   * credited session and their total time; no author left out has more time
   * than one shown.
   */
  lemma {:induction false} TopAuthorsSpec(books: seq<Book>, history: seq<HistoryEntry>)
    ensures |TopAuthors(books, history)| <= 3
    ensures SortedDesc(TopAuthors(books, history), TotalOf)
    ensures DistinctBy(TopAuthors(books, history), NameOf)
    ensures forall e :: e in TopAuthors(books, history) ==>
      CreditedIn(books, history, e.name) && e.total == ListenedTo(books, history, e.name)
    ensures forall e, x ::
      (e in Rows(books, history) && e !in TopAuthors(books, history) && x in TopAuthors(books, history))
        ==> x.total >= e.total
  {
    var es := Rows(books, history);
    var sorted := SortDesc(es, TotalOf);
    var r := TopAuthors(books, history);
    RowsDistinct(books, history);
    SortDescDistinct(es, TotalOf, NameOf);
    assert r == sorted[..|r|];
    assert DistinctBy(r, NameOf);
    assert SortedDesc(r, TotalOf);
    forall e | e in r ensures CreditedIn(books, history, e.name) && e.total == ListenedTo(books, history, e.name) {
      assert e in sorted;
      assert e in multiset(sorted);
      assert e in es;
      var i :| 0 <= i < |es| && es[i] == e;
      assert Names(es)[i] == e.name;
      RowsNames(books, history, e.name);
      RowsTimes(books, history, e.name);
      TotalForRow(es, e);
    }
    forall e, x | e in es && e !in r && x in r ensures x.total >= e.total {
      TakeSortDescTop(es, TotalOf, 3, e);
    }
  }

  /**
   * `formatTime`: whole seconds below a minute, otherwise hours and minutes,
   * or minutes alone when there is no full hour.
   */
  function FormatDuration(sec: real): string
  {
    if sec < 60.0 then IntToString(JsRound(sec)) + "s"
    else HoursMinutesText(WholeHours(sec), LeftoverMinutes(sec))
  }

  /** The whole hours in `sec` seconds. */
  function WholeHours(sec: real): int
  {
    (sec / 3600.0).Floor
  }

  /** The whole minutes left over after the whole hours. */
  function LeftoverMinutes(sec: real): int
  {
    ((sec - 3600.0 * WholeHours(sec) as real) / 60.0).Floor
  }

  /** "<h>h <m>m" with at least one hour, "<m>min" below. */
  function HoursMinutesText(h: int, m: int): string
  {
    if h > 0 then IntToString(h) + "h " + IntToString(m) + "m" else IntToString(m) + "min"
  }

  /** A duration of `h` hours, `m` minutes and `s` seconds is shown as its hours and minutes. */
  lemma {:induction false} FormatDurationOf(h: nat, m: nat, s: real)
    requires m < 60 && 0.0 <= s < 60.0 && (h > 0 || m > 0)
    ensures FormatDuration(3600.0 * h as real + 60.0 * m as real + s)
         == if h > 0 then IntToString(h) + "h " + IntToString(m) + "m" else IntToString(m) + "min"
  {
    var sec := 3600.0 * h as real + 60.0 * m as real + s;
    assert sec >= 60.0;
    HoursAndMinutes(h, m, s);
    assert FormatDuration(sec) == HoursMinutesText(h, m);
  }

  lemma {:induction false} HoursAndMinutes(h: nat, m: nat, s: real)
    requires m < 60 && 0.0 <= s < 60.0
    ensures var sec := 3600.0 * h as real + 60.0 * m as real + s;
      WholeHours(sec) == h && LeftoverMinutes(sec) == m
  {
    var sec := 3600.0 * h as real + 60.0 * m as real + s;
    var under := 60.0 * m as real + s;
    assert m as real <= 59.0;
    assert 0.0 <= under < 3600.0;
    assert sec / 3600.0 == h as real + under / 3600.0;
    FloorOf(sec / 3600.0, h);
    assert sec - 3600.0 * h as real == under;
    assert under / 60.0 == m as real + s / 60.0;
    FloorOf(under / 60.0, m);
  }

  lemma {:induction false} FloorOf(x: real, n: int)
    requires n as real <= x < n as real + 1.0
    ensures x.Floor == n
  {
  }

  /**
   * `getLevelColor` as a heat level: 0 for no listening, then one level per
   * band of 15, 45 and 90 minutes. A negative input falls in the first band.
   */
  function Level(seconds: real): (l: nat)
    ensures l <= 4
    ensures l == 0 <==> seconds == 0.0
  {
    if seconds == 0.0 then 0
    else if seconds < 15.0 * 60.0 then 1
    else if seconds < 45.0 * 60.0 then 2
    else if seconds < 90.0 * 60.0 then 3
    else 4
  }

  /** More listening never lowers the level. */
  lemma {:induction false} LevelMonotone(a: real, b: real)
    requires 0.0 <= a <= b
    ensures Level(a) <= Level(b)
  {
  }
}
