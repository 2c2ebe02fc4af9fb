/**
 * The front-end records of the library (types.ts): chapters, tracks, books,
 * history entries and series, plus the lookups every view uses.
 */
module Types {
  import opened Wrappers

  /** One day of wall-clock time in milliseconds (`24 * 60 * 60 * 1000`). */
  const DayMs: int := 24 * 60 * 60 * 1000

  /** A named range of the global timeline, in seconds. */
  datatype Chapter = Chapter(title: string, startTime: real, duration: real)

  /** One playable audio file of a book. */
  datatype Track = Track(id: string, url: string, duration: real, filename: string, format: string)

  /**
   * A book as the player and the pages see it. `duration` and `progress` are in
   * seconds of the global timeline; `addedAt` is a wall-clock stamp in ms.
   * `chapters`, `tracks` and `audioUrl` are optional in the source.
   */
  datatype Book = Book(
    id: string,
    title: string,
    author: string,
    coverUrl: string,
    duration: real,
    progress: real,
    addedAt: int,
    chapters: Option<seq<Chapter>>,
    tracks: Option<seq<Track>>,
    audioUrl: Option<string>,
    isLiked: bool)

  /** A completed listening session. */
  datatype HistoryEntry = HistoryEntry(id: string, bookId: string, timestamp: int, durationListened: real)

  /** A user-made collection of book ids. */
  datatype Series = Series(id: string, title: string, coverUrl: string, description: string, books: seq<string>)

  /** JavaScript truthiness of an optional string: present and non-empty. */
  predicate Truthy(s: Option<string>)
  {
    s.Some? && s.value != ""
  }

  /** Index of the first book with the given id (`findIndex`), or -1. */
  function FindBookIndex(books: seq<Book>, id: string): (k: int)
    ensures -1 <= k < |books|
    ensures k >= 0 ==> books[k].id == id && forall j :: 0 <= j < k ==> books[j].id != id
    ensures k == -1 ==> forall j :: 0 <= j < |books| ==> books[j].id != id
  {
    if |books| == 0 then -1
    else if books[0].id == id then 0
    else
      var k := FindBookIndex(books[1..], id);
      if k == -1 then -1 else k + 1
  }

  /** `books.find(b => b.id === id)`: nothing for a null id. */
  function FindBook(books: seq<Book>, id: Option<string>): (r: Option<Book>)
    ensures r.Some? <==> id.Some? && exists j :: 0 <= j < |books| && books[j].id == id.value
    ensures r.Some? ==> r.value in books && r.value.id == id.value
  {
    if id.None? then None
    else
      var k := FindBookIndex(books, id.value);
      if k == -1 then None else Some(books[k])
  }

  /** `c` covers time `t`: `t >= start && t < start + duration`. */
  predicate ChapterContains(c: Chapter, t: real)
  {
    c.startTime <= t < c.startTime + c.duration
  }

  /** `chapters.findIndex(c => t >= c.startTime && t < c.startTime + c.duration)`. */
  function FindChapter(cs: seq<Chapter>, t: real): (k: int)
    ensures -1 <= k < |cs|
    ensures k >= 0 ==> ChapterContains(cs[k], t) && forall j :: 0 <= j < k ==> !ChapterContains(cs[j], t)
    ensures k == -1 <==> forall j :: 0 <= j < |cs| ==> !ChapterContains(cs[j], t)
  {
    if |cs| == 0 then -1
    else if ChapterContains(cs[0], t) then 0
    else
      var k := FindChapter(cs[1..], t);
      if k == -1 then -1 else k + 1
  }
}
