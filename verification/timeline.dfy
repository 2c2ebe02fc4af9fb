/**
 * The global timeline of a multi-track book (context/PlayerContext.tsx):
 * mapping a global time to (track index, in-track offset), the inverse
 * mapping, and the chapters the player derives from a backend book's tracks.
 */
module Timeline {
  import opened Wrappers
  import opened Text
  import opened Seqs
  import opened Types
  import opened FileNames

  /** A place on the timeline as the audio element sees it: which track, how far into it. */
  datatype Position = Position(index: int, offset: real)

  /** Slack added to every track's window to absorb measurement drift at a boundary. */
  const Tolerance: real := 0.1

  function Max(a: real, b: real): real
  {
    if a >= b then a else b
  }

  /** The track durations, in order. */
  function Durations(tracks: seq<Track>): (ds: seq<real>)
    ensures |ds| == |tracks|
    ensures forall i :: 0 <= i < |tracks| ==> ds[i] == tracks[i].duration
  {
    if |tracks| == 0 then [] else [tracks[0].duration] + Durations(tracks[1..])
  }

  /** Global start of track `i`: the total duration of the tracks before it. */
  function PrefixSum(ds: seq<real>, i: nat): real
    requires i <= |ds|
  {
    Sum(ds[..i])
  }

  /** The window `[start, start + duration + 0.1)` of track `j` holds `t`. */
  predicate InWindow(ds: seq<real>, j: nat, t: real)
    requires j < |ds|
  {
    PrefixSum(ds, j) <= t < PrefixSum(ds, j) + ds[j] + Tolerance
  }

  lemma {:induction false} PrefixSumStep(ds: seq<real>, i: nat)
    requires i < |ds|
    ensures PrefixSum(ds, i + 1) == PrefixSum(ds, i) + ds[i]
  {
    assert ds[..i + 1][..i] == ds[..i];
  }

  /** The loop of `findTrackByTime` from track `i` on, `accum` being the start of track `i`. */
  function LocateFrom(ds: seq<real>, t: real, i: nat, accum: real): (p: Position)
    requires i <= |ds|
    ensures |ds| > 0 ==> 0 <= p.index < |ds|
    ensures |ds| == 0 ==> p.index == -1
    decreases |ds| - i
  {
    if i == |ds| then Position(|ds| - 1, 0.0)
    else if t >= accum && t < accum + ds[i] + Tolerance then Position(i, Max(0.0, t - accum))
    else LocateFrom(ds, t, i + 1, accum + ds[i])
  }

  /**
   * `findTrackByTime(book, time)`: (0, 0) without a track list; otherwise the
   * first track whose window holds `t`, or the last track at offset 0 when none does.
   * An empty track list yields index -1 (callers only use it with at least one track).
   */
  function FindTrackByTime(tracks: Option<seq<Track>>, t: real): (p: Position)
    ensures tracks.None? ==> p == Position(0, 0.0)
    ensures tracks.Some? && |tracks.value| > 0 ==> 0 <= p.index < |tracks.value|
  {
    match tracks
    case None => Position(0, 0.0)
    case Some(ts) => LocateFrom(Durations(ts), t, 0, 0.0)
  }

  /** Inverse mapping: the global time of `offset` seconds into track `index`. */
  function Globalize(ds: seq<real>, index: nat, offset: real): real
    requires index <= |ds|
  {
    PrefixSum(ds, index) + offset
  }

  lemma {:induction false} LocateFromFirstWindow(ds: seq<real>, t: real, i: nat, j: nat)
    requires i <= j < |ds|
    requires InWindow(ds, j, t)
    requires forall k :: i <= k < j ==> !InWindow(ds, k, t)
    ensures LocateFrom(ds, t, i, PrefixSum(ds, i)) == Position(j, t - PrefixSum(ds, j))
    decreases j - i
  {
    if i < j {
      assert !InWindow(ds, i, t);
      PrefixSumStep(ds, i);
      LocateFromFirstWindow(ds, t, i + 1, j);
    }
  }

  lemma {:induction false} LocateFromNoWindow(ds: seq<real>, t: real, i: nat)
    requires i <= |ds|
    requires forall k :: i <= k < |ds| ==> !InWindow(ds, k, t)
    ensures LocateFrom(ds, t, i, PrefixSum(ds, i)) == Position(|ds| - 1, 0.0)
    decreases |ds| - i
  {
    if i < |ds| {
      assert !InWindow(ds, i, t);
      PrefixSumStep(ds, i);
      LocateFromNoWindow(ds, t, i + 1);
    }
  }

  /** When some window holds `t`, the mapper answers the first such track, offset `t` minus its start. */
  lemma {:induction false} FindTrackFirstWindow(ts: seq<Track>, t: real, j: nat)
    requires j < |ts|
    requires InWindow(Durations(ts), j, t)
    requires forall k :: 0 <= k < j ==> !InWindow(Durations(ts), k, t)
    ensures FindTrackByTime(Some(ts), t) == Position(j, t - PrefixSum(Durations(ts), j))
  {
    assert Durations(ts)[..0] == [];
    LocateFromFirstWindow(Durations(ts), t, 0, j);
  }

  /** When no window holds `t`, the mapper falls back to the last track at offset 0. */
  lemma {:induction false} FindTrackNoWindow(ts: seq<Track>, t: real)
    requires forall k :: 0 <= k < |ts| ==> !InWindow(Durations(ts), k, t)
    ensures FindTrackByTime(Some(ts), t) == Position(|ts| - 1, 0.0)
  {
    assert Durations(ts)[..0] == [];
    LocateFromNoWindow(Durations(ts), t, 0);
  }

  /** Every time between the start of track `i` and the end of the book lies in some window from `i` on. */
  lemma {:induction false} WindowsCover(ds: seq<real>, t: real, i: nat) returns (j: nat)
    requires i < |ds|
    requires PrefixSum(ds, i) <= t <= Sum(ds)
    ensures i <= j < |ds| && InWindow(ds, j, t)
    ensures forall k :: i <= k < j ==> !InWindow(ds, k, t)
    decreases |ds| - i
  {
    if InWindow(ds, i, t) {
      j := i;
    } else {
      PrefixSumStep(ds, i);
      if i + 1 == |ds| {
        assert false;
      } else {
        j := WindowsCover(ds, t, i + 1);
      }
    }
  }

  /**
   * For a time inside the book, the mapper lands in a real track, the offset lies
   * within that track (plus tolerance), and globalizing the answer gives the time back.
   */
  lemma {:induction false} FindTrackInRange(ts: seq<Track>, t: real)
    requires |ts| > 0
    requires 0.0 <= t <= Sum(Durations(ts))
    ensures var p := FindTrackByTime(Some(ts), t);
      && 0 <= p.index < |ts|
      && 0.0 <= p.offset < ts[p.index].duration + Tolerance
      && Globalize(Durations(ts), p.index, p.offset) == t
  {
    var ds := Durations(ts);
    assert ds[..0] == [];
    var j := WindowsCover(ds, t, 0);
    FindTrackFirstWindow(ts, t, j);
  }

  // ---------------------------------------------------------------------
  // chapters derived from tracks (mapBackendBook)

  /** Chapter title of a track file: extension and leading track number removed. */
  function ChapterTitle(filename: string): string
  {
    StripTrackPrefix(StripExtension(filename))
  }

  /** The chapter titles of the tracks, in order. */
  function ChapterTitles(tracks: seq<Track>): (ts: seq<string>)
    ensures |ts| == |tracks|
    ensures forall i :: 0 <= i < |tracks| ==> ts[i] == ChapterTitle(tracks[i].filename)
  {
    seq(|tracks|, i requires 0 <= i < |tracks| => ChapterTitle(tracks[i].filename))
  }

  /**
   * The `tracks.map` loop of `mapBackendBook` over the tracks' titles and
   * durations, `accum` being the running start time.
   */
  function ChaptersFrom(titles: seq<string>, ds: seq<real>, accum: real): (cs: seq<Chapter>)
    requires |titles| == |ds|
    ensures |cs| == |ds|
    decreases |ds|
  {
    if |ds| == 0 then []
    else [Chapter(titles[0], accum, ds[0])] + ChaptersFrom(titles[1..], ds[1..], accum + ds[0])
  }

  /** One chapter per track, in order, each starting where the previous one ends. */
  function ChaptersFromTracks(tracks: seq<Track>): (cs: seq<Chapter>)
    ensures |cs| == |tracks|
  {
    ChaptersFrom(ChapterTitles(tracks), Durations(tracks), 0.0)
  }

  /** Chapter `i` starts at `accum` plus the durations before it. */
  lemma {:induction false} ChaptersFromStart(titles: seq<string>, ds: seq<real>, accum: real, i: nat)
    requires |titles| == |ds| && i < |ds|
    ensures ChaptersFrom(titles, ds, accum)[i] == Chapter(titles[i], accum + PrefixSum(ds, i), ds[i])
    decreases i
  {
    if i == 0 {
      assert ds[..0] == [];
    } else {
      var rest := ChaptersFrom(titles[1..], ds[1..], accum + ds[0]);
      assert ChaptersFrom(titles, ds, accum)[i] == rest[i - 1];
      ChaptersFromStart(titles[1..], ds[1..], accum + ds[0], i - 1);
      PrefixShift(ds, i);
    }
  }

  /** A prefix sum equals the first term plus the prefix sum of the rest. */
  lemma {:induction false} PrefixShift(ds: seq<real>, i: nat)
    requires 0 < i <= |ds|
    ensures PrefixSum(ds, i) == ds[0] + PrefixSum(ds[1..], i - 1)
    decreases i
  {
    if i == 1 {
      assert ds[..1][..0] == [];
      assert ds[1..][..0] == [];
    } else {
      PrefixShift(ds, i - 1);
      PrefixSumStep(ds, i - 1);
      PrefixSumStep(ds[1..], i - 2);
    }
  }

  /** Chapter `i` starts at the total duration of the tracks before it and lasts as long as track `i`. */
  lemma {:induction false} ChaptersFromTracksSpec(tracks: seq<Track>, i: nat)
    requires i < |tracks|
    ensures ChaptersFromTracks(tracks)[i].startTime == PrefixSum(Durations(tracks), i)
    ensures ChaptersFromTracks(tracks)[i].duration == tracks[i].duration
    ensures ChaptersFromTracks(tracks)[i].title == ChapterTitle(tracks[i].filename)
  {
    ChaptersFromStart(ChapterTitles(tracks), Durations(tracks), 0.0, i);
  }

  /** Consecutive chapters are contiguous: each one starts where the previous one ends. */
  predicate Contiguous(cs: seq<Chapter>)
  {
    forall i :: 0 <= i < |cs| - 1 ==> cs[i + 1].startTime == cs[i].startTime + cs[i].duration
  }

  /** Chapters built from durations are contiguous and the first starts at `accum`. */
  lemma {:induction false} ChaptersFromContiguous(titles: seq<string>, ds: seq<real>, accum: real)
    requires |titles| == |ds|
    ensures Contiguous(ChaptersFrom(titles, ds, accum))
    ensures |ds| > 0 ==> ChaptersFrom(titles, ds, accum)[0].startTime == accum
  {
    var cs := ChaptersFrom(titles, ds, accum);
    forall i | 0 <= i < |cs| - 1
      ensures cs[i + 1].startTime == cs[i].startTime + cs[i].duration
    {
      ChaptersFromStart(titles, ds, accum, i);
      ChaptersFromStart(titles, ds, accum, i + 1);
      PrefixSumStep(ds, i);
    }
  }

  /** Derived chapters are contiguous and start at 0. */
  lemma {:induction false} ChaptersFromTracksContiguous(tracks: seq<Track>)
    ensures Contiguous(ChaptersFromTracks(tracks))
    ensures |tracks| > 0 ==> ChaptersFromTracks(tracks)[0].startTime == 0.0
  {
    ChaptersFromContiguous(ChapterTitles(tracks), Durations(tracks), 0.0);
  }

  /** The last chapter built from durations ends at `accum` plus their sum. */
  lemma {:induction false} ChaptersFromEnd(titles: seq<string>, ds: seq<real>, accum: real)
    requires |titles| == |ds| && |ds| > 0
    ensures var cs := ChaptersFrom(titles, ds, accum);
      cs[|cs| - 1].startTime + cs[|cs| - 1].duration == accum + Sum(ds)
  {
    var n := |ds|;
    ChaptersFromStart(titles, ds, accum, n - 1);
    PrefixSumStep(ds, n - 1);
    assert ds[..n] == ds;
  }

  // ---------------------------------------------------------------------
  // backend book mapping

  /** An audio file row as the backend sends it. */
  datatype BackendFile = BackendFile(id: string, filename: string, duration: real, format: string)

  /** A book row as the backend sends it; optional fields are `None`. */
  datatype BackendBook = BackendBook(
    id: string,
    title: string,
    author: Option<string>,
    coverUrl: Option<string>,
    duration: real,
    createdAt: int,
    audioFiles: seq<BackendFile>)

  const ApiBase: string := "/api"
  const PlaceholderCover: string := "https://placehold.co/400x400"

  function ToTrack(f: BackendFile): Track
  {
    Track(f.id, ApiBase + "/stream/" + f.id, f.duration, f.filename, f.format)
  }

  /**
   * `mapBackendBook`: one track per audio file, chapters derived from the tracks,
   * 'Unknown' for a missing author, a placeholder cover, and the summed track
   * durations when the backend duration is 0.
   */
  function MapBackendBook(b: BackendBook): (r: Book)
    ensures r.tracks.Some? && |r.tracks.value| == |b.audioFiles|
    ensures r.chapters == Some(ChaptersFromTracks(r.tracks.value))
    ensures forall i :: 0 <= i < |b.audioFiles| ==>
      r.tracks.value[i].id == b.audioFiles[i].id && r.tracks.value[i].duration == b.audioFiles[i].duration
    ensures r.duration == if b.duration != 0.0 then b.duration else Sum(Durations(r.tracks.value))
    ensures r.progress == 0.0 && !r.isLiked
  {
    var tracks := seq(|b.audioFiles|, i requires 0 <= i < |b.audioFiles| => ToTrack(b.audioFiles[i]));
    var chapters := ChaptersFromTracks(tracks);
    var total := Sum(Durations(tracks));
    Book(
      id := b.id,
      title := b.title,
      author := if Truthy(b.author) then b.author.value else "Unknown",
      coverUrl := if Truthy(b.coverUrl) then b.coverUrl.value else PlaceholderCover,
      duration := if b.duration != 0.0 then b.duration else total,
      progress := 0.0,
      addedAt := b.createdAt,
      chapters := Some(chapters),
      tracks := Some(tracks),
      audioUrl := None,
      isLiked := false)
  }

  /** The accumulated start time after the last chapter equals the summed track durations. */
  lemma {:induction false} ChaptersEndAtTotal(tracks: seq<Track>)
    requires |tracks| > 0
    ensures var cs := ChaptersFromTracks(tracks);
      cs[|cs| - 1].startTime + cs[|cs| - 1].duration == Sum(Durations(tracks))
  {
    ChaptersFromEnd(ChapterTitles(tracks), Durations(tracks), 0.0);
  }
}
