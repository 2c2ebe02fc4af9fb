/**
 * The library page's derived lists (pages/Library.tsx): the search box, the
 * "hide completed" preference and the filter tabs that produce the visible
 * books, the "continue listening" shelf, and the badges on each book card.
 */
module Library {
  import opened Text
  import opened Seqs
  import opened Types

  /** The filter tabs: everything, not started, in progress, and shorter than an hour. */
  datatype FilterType = All | Unread | InProgress | Short

  /** The lowercased query occurs in the lowercased title or author. */
  predicate MatchesQuery(b: Book, query: string)
  {
    Contains(Lower(b.title), Lower(query)) || Contains(Lower(b.author), Lower(query))
  }

  /** Kept by "hide completed": no duration, or less than 95% listened. */
  predicate NotCompleted(b: Book)
  {
    b.duration == 0.0 || b.progress / b.duration < 0.95
  }

  predicate PassesFilter(b: Book, ft: FilterType)
  {
    match ft
    case All => true
    case Unread => b.progress == 0.0
    case InProgress => b.progress > 0.0 && b.progress < b.duration * 0.95
    case Short => b.duration < 3600.0
  }

  /** The single test a book passes to be listed. */
  predicate Listed(b: Book, query: string, hideCompleted: bool, ft: FilterType)
  {
    MatchesQuery(b, query) && (hideCompleted ==> NotCompleted(b)) && PassesFilter(b, ft)
  }

  function ListedBy(query: string, hideCompleted: bool, ft: FilterType): Book -> bool
  {
    (b: Book) => Listed(b, query, hideCompleted, ft)
  }

  function QueryBy(query: string): Book -> bool
  {
    (b: Book) => MatchesQuery(b, query)
  }

  function FilterBy(ft: FilterType): Book -> bool
  {
    (b: Book) => PassesFilter(b, ft)
  }

  /** Passes the search and, when it is set, "hide completed". */
  function VisibleBy(query: string, hideCompleted: bool): Book -> bool
  {
    (b: Book) => MatchesQuery(b, query) && (hideCompleted ==> NotCompleted(b))
  }

  /** The search, then "hide completed" when it is set. */
  function Visible(books: seq<Book>, query: string, hideCompleted: bool): seq<Book>
  {
    var searched := Filter(books, QueryBy(query));
    if hideCompleted then Filter(searched, NotCompleted) else searched
  }

  /** `filteredBooks`: the visible books, narrowed by the tab's filter unless it is "all". */
  function FilteredBooks(books: seq<Book>, query: string, hideCompleted: bool, ft: FilterType): (r: seq<Book>)
    ensures |r| <= |books|
    ensures forall b :: b in r <==> b in books && Listed(b, query, hideCompleted, ft)
  {
    var visible := Visible(books, query, hideCompleted);
    if ft == All then visible else Filter(visible, FilterBy(ft))
  }

  /** Two filters that agree on every element keep the same elements. */
  lemma {:induction false} FilterSame(s: seq<Book>, p: Book -> bool, q: Book -> bool)
    requires forall b :: p(b) == q(b)
    ensures Filter(s, p) == Filter(s, q)
    decreases |s|
  {
    if |s| > 0 {
      FilterSame(s[1..], p, q);
    }
  }

  lemma {:induction false} VisibleIsOneFilter(books: seq<Book>, query: string, hideCompleted: bool)
    ensures Visible(books, query, hideCompleted) == Filter(books, VisibleBy(query, hideCompleted))
  {
    var q := QueryBy(query);
    var v := VisibleBy(query, hideCompleted);
    if hideCompleted {
      var both := Both(q, NotCompleted);
      FilterFilter(books, q, NotCompleted);
      assert forall b :: both(b) == v(b);
      FilterSame(books, both, v);
    } else {
      assert forall b :: q(b) == v(b);
      FilterSame(books, q, v);
    }
  }

  lemma {:induction false} FilteredIsOneFilter(books: seq<Book>, query: string, hideCompleted: bool, ft: FilterType)
    ensures FilteredBooks(books, query, hideCompleted, ft) == Filter(books, ListedBy(query, hideCompleted, ft))
  {
    var v := VisibleBy(query, hideCompleted);
    VisibleIsOneFilter(books, query, hideCompleted);
    if ft == All {
      assert forall b :: v(b) == ListedBy(query, hideCompleted, ft)(b);
      FilterSame(books, v, ListedBy(query, hideCompleted, ft));
    } else {
      FilterFilter(books, v, FilterBy(ft));
      assert forall b :: Both(v, FilterBy(ft))(b) == ListedBy(query, hideCompleted, ft)(b);
      FilterSame(books, Both(v, FilterBy(ft)), ListedBy(query, hideCompleted, ft));
    }
  }

  /**
   * The chain of filters is one filter by `Listed`: the visible books are, in
   * library order, exactly the books that pass it.
   */
  lemma {:induction false} FilteredBooksListed(books: seq<Book>, query: string, hideCompleted: bool, ft: FilterType)
    ensures SubsequenceOf(FilteredBooks(books, query, hideCompleted, ft), books)
    ensures forall b :: b in FilteredBooks(books, query, hideCompleted, ft)
                    <==> b in books && Listed(b, query, hideCompleted, ft)
  {
    FilteredIsOneFilter(books, query, hideCompleted, ft);
  }

  /** An empty search on the "all" tab lists the whole library. */
  lemma {:induction false} EmptySearchListsAll(books: seq<Book>)
    ensures FilteredBooks(books, "", false, All) == books
  {
    forall i | 0 <= i < |books| ensures QueryBy("")(books[i]) {
      ContainsEmpty(Lower(books[i].title));
    }
    FilterKeepsAll(books, QueryBy(""));
  }

  /** The search ignores the letter case of the query. */
  lemma {:induction false} SearchIgnoresQueryCase(books: seq<Book>, query: string, hideCompleted: bool, ft: FilterType)
    ensures FilteredBooks(books, Lower(query), hideCompleted, ft) == FilteredBooks(books, query, hideCompleted, ft)
  {
    LowerIdempotent(query);
    FilterSame(books, QueryBy(Lower(query)), QueryBy(query));
  }

  /** Every book under the "in progress" tab is below 95%, so "hide completed" removes none of them. */
  lemma {:induction false} InProgressNotCompleted(b: Book)
    requires PassesFilter(b, InProgress)
    ensures NotCompleted(b)
  {
    if b.duration != 0.0 {
      QuotientBelow(b.progress, b.duration, 0.95);
    }
  }

  /** Dividing both sides of `p < c * d` by a positive `d`. */
  lemma {:induction false} QuotientBelow(p: real, d: real, c: real)
    requires d > 0.0 && p < d * c
    ensures p / d < c
  {
    var q := p / d;
    assert q * d == p;
    assert (c - q) * d == c * d - p;
  }

  /** "Hide completed" does not change the "in progress" tab. */
  lemma {:induction false} HideCompletedKeepsInProgress(books: seq<Book>, query: string)
    ensures FilteredBooks(books, query, true, InProgress) == FilteredBooks(books, query, false, InProgress)
  {
    forall b | PassesFilter(b, InProgress) {
      InProgressNotCompleted(b);
    }
    FilteredIsOneFilter(books, query, true, InProgress);
    FilteredIsOneFilter(books, query, false, InProgress);
    FilterSame(books, ListedBy(query, true, InProgress), ListedBy(query, false, InProgress));
  }

  /** Shown on the "continue listening" shelf: more than 10 s in and below 95%. */
  predicate Recent(b: Book)
  {
    b.progress > 10.0 && b.progress < b.duration * 0.95
  }

  function AddedAt(b: Book): real
  {
    b.addedAt as real
  }

  /** `recentBooks`: the recent books, newest first, at most five. */
  function RecentBooks(books: seq<Book>): (r: seq<Book>)
    ensures |r| <= 5
    ensures forall b :: b in r ==> b in books && Recent(b)
    ensures SortedDesc(r, AddedAt)
  {
    TakeSortDescShape(Filter(books, Recent), AddedAt, 5);
    Take(SortDesc(Filter(books, Recent), AddedAt), 5)
  }

  /**
   * The shelf holds at most five books of the library, all recent, newest
   * first, and every recent book when there are fewer than five.
   */
  lemma {:induction false} RecentBooksSpec(books: seq<Book>)
    ensures |RecentBooks(books)| <= 5
    ensures forall b :: b in RecentBooks(books) ==> b in books && Recent(b)
    ensures SortedDesc(RecentBooks(books), AddedAt)
    ensures |RecentBooks(books)| < 5 ==> multiset(RecentBooks(books)) == multiset(Filter(books, Recent))
  {
    TakeSortDescShape(Filter(books, Recent), AddedAt, 5);
  }

  /** No recent book left off the shelf was added later than one on it. */
  lemma {:induction false} RecentBooksNewest(books: seq<Book>, y: Book)
    requires y in books && Recent(y) && y !in RecentBooks(books)
    ensures forall x :: x in RecentBooks(books) ==> x.addedAt >= y.addedAt
  {
    TakeSortDescTop(Filter(books, Recent), AddedAt, 5, y);
  }

  /**
   * The card's progress percentage: 0 without a positive duration, otherwise
   * the share of the duration listened, times 100.
   */
  function ProgressPercent(b: Book): (r: real)
    ensures b.duration <= 0.0 ==> r == 0.0
    ensures b.duration > 0.0 ==> r * b.duration == 100.0 * b.progress
    ensures b.duration > 0.0 && 0.0 <= b.progress <= b.duration ==> 0.0 <= r <= 100.0
  {
    if b.duration > 0.0 then
      PercentBounds(b.progress, b.duration);
      (b.progress / b.duration) * 100.0
    else 0.0
  }

  lemma {:induction false} PercentBounds(p: real, d: real)
    requires d > 0.0
    ensures (p / d) * 100.0 * d == 100.0 * p
    ensures 0.0 <= p <= d ==> 0.0 <= (p / d) * 100.0 <= 100.0
  {
    var q := p / d;
    assert q * d == p;
    if 0.0 <= p <= d {
      assert 0.0 <= q;
      assert q <= 1.0;
    }
  }

  /** The card's "new" badge: added less than a day before `now`. */
  predicate IsNew(b: Book, now: int)
  {
    now - b.addedAt < DayMs
  }

  /** A badge that has expired never comes back as time goes on. */
  lemma {:induction false} NewBadgeExpires(b: Book, now: int, later: int)
    requires now <= later && !IsNew(b, now)
    ensures !IsNew(b, later)
  {
  }
}
