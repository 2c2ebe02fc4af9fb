/**
 * The authors page (pages/Authors.tsx): one card per author with the number of
 * their books, most prolific first; the books of the selected author; and the
 * picture shown for an author.
 */
module Authors {
  import opened Wrappers
  import opened Seqs
  import opened Types
  import opened Tally

  /** The picture of an author with no custom image and no book. */
  const AuthorPlaceholder: string := "https://placehold.co/400x400?text=Author"

  /** The reference count: the books written by `name`. */
  function BooksBy(books: seq<Book>, name: string): nat
  {
    if |books| == 0 then 0
    else BooksBy(books[..|books| - 1], name) + (if books[|books| - 1].author == name then 1 else 0)
  }

  /** The `Map` of book counts per author, in the order the authors first appear. */
  function AuthorCounts(books: seq<Book>): seq<Row>
  {
    if |books| == 0 then []
    else Credit(AuthorCounts(books[..|books| - 1]), books[|books| - 1].author, 1.0)
  }

  /** `authorsData`: the counts, most books first, ties in order of first appearance. */
  function AuthorsData(books: seq<Book>): (r: seq<Row>)
    ensures multiset(r) == multiset(AuthorCounts(books))
    ensures SortedDesc(r, TotalOf)
  {
    SortDesc(AuthorCounts(books), TotalOf)
  }

  /** Some book is by `name`. */
  predicate HasBook(books: seq<Book>, name: string)
  {
    exists i :: 0 <= i < |books| && books[i].author == name
  }

  lemma {:induction false} HasBookSnoc(books: seq<Book>, name: string)
    requires |books| > 0
    ensures HasBook(books, name) <==> HasBook(books[..|books| - 1], name) || books[|books| - 1].author == name
  {
    var init := books[..|books| - 1];
    if HasBook(init, name) {
      var i :| 0 <= i < |init| && init[i].author == name;
      assert books[i] == init[i];
    }
    if HasBook(books, name) && books[|books| - 1].author != name {
      var i :| 0 <= i < |books| && books[i].author == name;
      assert i < |init| && init[i] == books[i];
    }
  }

  /** The counts have one row per author of a book and no other rows, each with that author's count. */
  lemma {:induction false} AuthorCountsRows(books: seq<Book>, name: string)
    ensures name in Names(AuthorCounts(books)) <==> HasBook(books, name)
    ensures TotalFor(AuthorCounts(books), name) == BooksBy(books, name) as real
    decreases |books|
  {
    if |books| > 0 {
      AuthorCountsRows(books[..|books| - 1], name);
      HasBookSnoc(books, name);
    }
  }

  /** The counts have one row per name and add up to the number of books. */
  lemma {:induction false} AuthorCountsShape(books: seq<Book>)
    ensures DistinctBy(AuthorCounts(books), NameOf)
    ensures SumOf(AuthorCounts(books), TotalOf) == |books| as real
    decreases |books|
  {
    if |books| > 0 {
      var es := AuthorCounts(books[..|books| - 1]);
      AuthorCountsShape(books[..|books| - 1]);
      DistinctNamesCredit(es, books[|books| - 1].author, 1.0);
      SumCredit(es, books[|books| - 1].author, 1.0);
    }
  }

  /**
   * Every author of a book has exactly one card and no one else has a card;
   * each card's count is the number of that author's books; the cards are in
   * non-increasing count order; and the counts add up to the number of books.
   */
  lemma {:induction false} AuthorsDataSpec(books: seq<Book>)
    ensures DistinctBy(AuthorsData(books), NameOf)
    ensures forall name :: name in Names(AuthorsData(books)) <==> HasBook(books, name)
    ensures forall e :: e in AuthorsData(books) ==> e.total == BooksBy(books, e.name) as real
    ensures SortedDesc(AuthorsData(books), TotalOf)
    ensures SumOf(AuthorsData(books), TotalOf) == |books| as real
  {
    var es := AuthorCounts(books);
    var r := AuthorsData(books);
    AuthorCountsShape(books);
    SortDescDistinct(es, TotalOf, NameOf);
    SumOfSortDesc(es, TotalOf, TotalOf);
    forall name ensures name in Names(r) <==> HasBook(books, name) {
      AuthorCountsRows(books, name);
      if name in Names(r) {
        var i :| 0 <= i < |r| && Names(r)[i] == name;
        assert r[i] in multiset(r);
        RowNamed(es, r[i]);
      }
      if name in Names(es) {
        var i :| 0 <= i < |es| && Names(es)[i] == name;
        assert es[i] in multiset(es);
        RowNamed(r, es[i]);
      }
    }
    forall e | e in r ensures e.total == BooksBy(books, e.name) as real {
      assert e in multiset(r);
      AuthorCountsRows(books, e.name);
      TotalForRow(es, e);
    }
  }

  /** `books.filter(b => b.author === name)`. */
  function ByAuthor(name: string): Book -> bool
  {
    (b: Book) => b.author == name
  }

  /**
   * `selectedAuthorBooks`: nothing without a selection (an empty name counts
   * as none), otherwise the selected author's books in library order.
   */
  function SelectedAuthorBooks(books: seq<Book>, selected: Option<string>): (r: seq<Book>)
    ensures !Truthy(selected) ==> r == []
    ensures Truthy(selected) ==> SubsequenceOf(r, books)
    ensures Truthy(selected) ==> forall b :: b in r <==> b in books && b.author == selected.value
  {
    if !Truthy(selected) then [] else Filter(books, ByAuthor(selected.value))
  }

  /** The first book by `name`, if any (`books.find(b => b.author === name)`). */
  function FirstBookBy(books: seq<Book>, name: string): (r: Option<Book>)
    ensures r.None? <==> !HasBook(books, name)
    ensures r.Some? ==> r.value.author == name
    ensures r.Some? ==>
      exists k :: 0 <= k < |books| && books[k] == r.value && forall j :: 0 <= j < k ==> books[j].author != name
  {
    if |books| == 0 then None
    else if books[0].author == name then Some(books[0])
    else
      var r := FirstBookBy(books[1..], name);
      assert HasBook(books, name) <==> HasBook(books[1..], name) by {
        if HasBook(books, name) {
          var i :| 0 <= i < |books| && books[i].author == name;
          assert books[1..][i - 1] == books[i];
        }
        if HasBook(books[1..], name) {
          var i :| 0 <= i < |books[1..]| && books[1..][i].author == name;
          assert books[i + 1] == books[1..][i];
        }
      }
      if r.Some? then
        var k :| 0 <= k < |books[1..]| && books[1..][k] == r.value
          && forall j :: 0 <= j < k ==> books[1..][j].author != name;
        assert books[k + 1] == r.value;
        r
      else r
  }

  /**
   * The picture on an author's card: the custom image when set and non-empty,
   * else the cover of the author's first book when non-empty, else the placeholder.
   */
  function AuthorAvatar(authorImages: map<string, string>, books: seq<Book>, name: string): (r: string)
    ensures r != ""
    ensures name in authorImages && authorImages[name] != "" ==> r == authorImages[name]
    ensures (name !in authorImages || authorImages[name] == "")
            && (FirstBookBy(books, name).None? || FirstBookBy(books, name).value.coverUrl == "")
            ==> r == AuthorPlaceholder
  {
    if name in authorImages && authorImages[name] != "" then authorImages[name]
    else
      var first := FirstBookBy(books, name);
      if first.Some? && first.value.coverUrl != "" then first.value.coverUrl else AuthorPlaceholder
  }

  /** Without a custom image, an author whose first book has a cover shows that cover. */
  lemma {:induction false} AvatarPriority(authorImages: map<string, string>, books: seq<Book>, name: string, k: nat)
    requires k < |books| && books[k].author == name && books[k].coverUrl != ""
    requires forall j :: 0 <= j < k ==> books[j].author != name
    requires name !in authorImages || authorImages[name] == ""
    ensures AuthorAvatar(authorImages, books, name) == books[k].coverUrl
  {
    var first := FirstBookBy(books, name);
    assert HasBook(books, name);
    var i :| 0 <= i < |books| && books[i] == first.value
      && forall j :: 0 <= j < i ==> books[j].author != name;
    assert i == k;
  }
}
