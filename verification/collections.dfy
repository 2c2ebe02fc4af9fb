/**
 * The collections page (pages/Collections.tsx) and the series list it edits
 * through the player context: adding a book to a series or taking it out, and
 * saving a new or edited series.
 */
module Collections {
  import opened Wrappers
  import opened Text
  import opened Seqs
  import opened Types

  /** The cover a saved series gets when none was given. */
  const DefaultSeriesCover: string := "https://picsum.photos/400/400?grayscale"

  /** `series.find(s => s.id === id)`. */
  function FindSeries(series: seq<Series>, id: string): (r: Option<Series>)
    ensures r.None? <==> forall i :: 0 <= i < |series| ==> series[i].id != id
    ensures r.Some? ==> r.value.id == id
    ensures r.Some? ==>
      exists k :: 0 <= k < |series| && series[k] == r.value && forall j :: 0 <= j < k ==> series[j].id != id
  {
    if |series| == 0 then None
    else if series[0].id == id then Some(series[0])
    else
      var r := FindSeries(series[1..], id);
      if r.Some? then
        var k :| 0 <= k < |series[1..]| && series[1..][k] == r.value
          && forall j :: 0 <= j < k ==> series[1..][j].id != id;
        assert series[k + 1] == r.value;
        r
      else r
  }

  /** `updateSeries`: every series with the id of `s` is replaced by `s`. */
  function UpdateSeries(series: seq<Series>, s: Series): (r: seq<Series>)
    ensures |r| == |series|
    ensures forall i :: 0 <= i < |r| ==> r[i].id == series[i].id
    ensures forall i :: 0 <= i < |r| && series[i].id != s.id ==> r[i] == series[i]
    ensures forall i :: 0 <= i < |r| && series[i].id == s.id ==> r[i] == s
  {
    seq(|series|, i requires 0 <= i < |series| => if series[i].id == s.id then s else series[i])
  }

  /** After an update of a listed series, looking its id up finds the new version. */
  lemma {:induction false} UpdateThenFind(series: seq<Series>, s: Series)
    requires FindSeries(series, s.id).Some?
    ensures FindSeries(UpdateSeries(series, s), s.id) == Some(s)
  {
    var r := UpdateSeries(series, s);
    var found := FindSeries(r, s.id);
    var k :| 0 <= k < |series| && series[k].id == s.id;
    assert r[k].id == s.id;
    var j :| 0 <= j < |r| && r[j] == found.value && forall i :: 0 <= i < j ==> r[i].id != s.id;
    assert series[j].id == s.id;
  }

  /** Not the given book id. */
  function Other(bookId: string): string -> bool
  {
    (id: string) => id != bookId
  }

  /**
   * The book list after a toggle: a listed id is removed everywhere it occurs,
   * any other id is appended at the end.
   */
  function Toggle(ids: seq<string>, bookId: string): (r: seq<string>)
    ensures bookId !in r <==> bookId in ids
    ensures bookId in ids ==> SubsequenceOf(r, ids)
    ensures bookId in ids ==> forall x :: x != bookId ==> multiset(r)[x] == multiset(ids)[x]
    ensures bookId !in ids ==> |r| == |ids| + 1 && r[..|ids|] == ids && r[|ids|] == bookId
  {
    if bookId in ids then Filter(ids, Other(bookId)) else ids + [bookId]
  }

  /** Removing an id that was just appended gives back the list it was appended to. */
  lemma {:induction false} RemoveAppended(ids: seq<string>, bookId: string)
    requires bookId !in ids
    ensures Filter(ids + [bookId], Other(bookId)) == ids
    decreases |ids|
  {
    if |ids| == 0 {
      assert ids + [bookId] == [bookId];
      FilterCons(bookId, [], Other(bookId));
    } else {
      var rest := ids[1..] + [bookId];
      assert ids + [bookId] == [ids[0]] + rest;
      RemoveAppended(ids[1..], bookId);
      FilterCons(ids[0], rest, Other(bookId));
      assert ids == [ids[0]] + ids[1..];
    }
  }

  /** Adding a book to a series and taking it out again restores the list exactly. */
  lemma {:induction false} ToggleTwiceRestores(ids: seq<string>, bookId: string)
    requires bookId !in ids
    ensures Toggle(Toggle(ids, bookId), bookId) == ids
  {
    assert bookId in ids + [bookId];
    RemoveAppended(ids, bookId);
  }

  /**
   * `toggleBookInSeries`: toggles `bookId` in the managed series; nothing
   * happens when no series is managed or the managed one is not in the list.
   */
  function ToggleBookInSeries(series: seq<Series>, managed: Option<string>, bookId: string): (r: seq<Series>)
    ensures |r| == |series|
    ensures forall i :: 0 <= i < |r| ==> r[i].id == series[i].id
    ensures forall i :: 0 <= i < |r| && (!Truthy(managed) || series[i].id != managed.value) ==> r[i] == series[i]
  {
    if !Truthy(managed) then series
    else
      match FindSeries(series, managed.value)
      case None => series
      case Some(target) => UpdateSeries(series, target.(books := Toggle(target.books, bookId)))
  }

  /**
   * Only the managed series changes, and only in its book list, which is the
   * toggled list of the first series with that id; without a managed series
   * in the list nothing changes.
   */
  lemma {:induction false} ToggleBookInSeriesSpec(series: seq<Series>, managed: Option<string>, bookId: string)
    ensures var r := ToggleBookInSeries(series, managed, bookId);
      |r| == |series|
      && (forall i :: 0 <= i < |r| ==> r[i].id == series[i].id)
      && (forall i :: 0 <= i < |r| && (!Truthy(managed) || series[i].id != managed.value) ==> r[i] == series[i])
    ensures !Truthy(managed) || FindSeries(series, managed.value).None? ==>
      ToggleBookInSeries(series, managed, bookId) == series
    ensures Truthy(managed) && FindSeries(series, managed.value).Some? ==>
      var target := FindSeries(series, managed.value).value;
      FindSeries(ToggleBookInSeries(series, managed, bookId), managed.value)
        == Some(target.(books := Toggle(target.books, bookId)))
  {
    if Truthy(managed) && FindSeries(series, managed.value).Some? {
      var target := FindSeries(series, managed.value).value;
      UpdateThenFind(series, target.(books := Toggle(target.books, bookId)));
    }
  }

  /** What saving the series dialog does to the list. */
  datatype SaveAction = NoSave | AddNew(created: Series) | UpdateExisting(updated: Series)

  /**
   * `handleSave` for the dialog's `editing` record: nothing without a title; a
   * new series gets an id from the clock, no books and the default cover when
   * none is set; an edited one keeps its fields but also falls back to the
   * default cover.
   */
  function HandleSave(editing: Series, isNew: bool, now: int): (r: SaveAction)
    ensures r.NoSave? <==> editing.title == ""
    ensures r.AddNew? ==>
      r.created.books == [] && r.created.title == editing.title
      && r.created.description == editing.description && StartsWith(r.created.id, "series_")
    ensures r.UpdateExisting? ==> r.updated.(coverUrl := editing.coverUrl) == editing
    ensures r.AddNew? || r.UpdateExisting? ==>
      var saved := if r.AddNew? then r.created else r.updated;
      saved.coverUrl != "" && (editing.coverUrl != "" ==> saved.coverUrl == editing.coverUrl)
  {
    if editing.title == "" then NoSave
    else
      var cover := if editing.coverUrl != "" then editing.coverUrl else DefaultSeriesCover;
      if isNew then
        var id := "series_" + IntToString(now);
        assert id[..7] == "series_";
        AddNew(Series(id, editing.title, cover, editing.description, []))
      else UpdateExisting(editing.(coverUrl := cover))
  }

  /** `addSeries` / `updateSeries` applied to the outcome of a save. */
  function ApplySave(series: seq<Series>, action: SaveAction): seq<Series>
  {
    match action
    case NoSave => series
    case AddNew(s) => series + [s]
    case UpdateExisting(s) => UpdateSeries(series, s)
  }

  /** Every series in the list has a cover. */
  predicate AllCovered(series: seq<Series>)
  {
    forall i :: 0 <= i < |series| ==> series[i].coverUrl != ""
  }

  /** Saving never brings a series without a cover into a list where all have one. */
  lemma {:induction false} SaveKeepsCovers(series: seq<Series>, editing: Series, isNew: bool, now: int)
    requires AllCovered(series)
    ensures AllCovered(ApplySave(series, HandleSave(editing, isNew, now)))
  {
  }

  /** `deleteSeries`: drops every series with the id, keeping the rest in order. */
  function DeleteSeries(series: seq<Series>, id: string): (r: seq<Series>)
    ensures FindSeries(r, id).None?
    ensures SubsequenceOf(r, series)
    ensures forall s :: s in series && s.id != id ==> s in r
  {
    var r := Filter(series, (s: Series) => s.id != id);
    assert forall i :: 0 <= i < |r| ==> r[i] in r;
    r
  }
}
