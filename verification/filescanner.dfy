/**
 * The browser-side importer (utils/fileScanner.ts): a directory walk that keeps
 * audio files, grouping of the kept files by directory, and one book per group
 * whose chapters are the files laid end to end. File handles, blob URLs, the
 * clock and the audio element that measures durations are outside the model:
 * durations are an input.
 */
module FileScanner {
  import opened Wrappers
  import opened Text
  import opened Seqs
  import opened Types
  import opened FileNames
  import opened Timeline
  import Engine
  import Scanner

  // ---------------------------------------------------------------------
  // cleanTitle

  /** `cleanTitle`: drop the extension, then a leading track number, then every `[...]`, then trim. */
  function CleanTitle(filename: string): (r: string)
    ensures Trimmed(r)
    ensures |r| <= |filename|
  {
    Trim(RemoveBracketed(StripTrackPrefix(StripExtension(filename))))
  }

  /** "07 - Title.mp3" becomes "Title" for a plain, trimmed title without brackets. */
  lemma {:induction false} CleanTitleOf(digits: string, seps: string, title: string, ext: string)
    requires |digits| > 0 && AllDigits(digits)
    requires |seps| > 0 && forall i :: 0 <= i < |seps| ==> IsTrackSeparator(seps[i])
    requires |title| == 0 || !IsTrackSeparator(title[0])
    requires NoBracketPair(title) && Trimmed(title)
    requires ExtensionBody(ext)
    ensures CleanTitle(digits + seps + title + "." + ext) == title
  {
    StripExtensionOf(digits + seps + title, ext);
    StripTrackPrefixOf(digits, seps, title);
    RemoveBracketedNoop(title);
  }

  /** The title never keeps a bracketed segment: whatever was inside `[...]` is gone. */
  lemma {:induction false} CleanTitleDropsBrackets(filename: string)
    ensures NoBracketPair(RemoveBracketed(StripTrackPrefix(StripExtension(filename))))
  {
    RemoveBracketedLeavesNone(StripTrackPrefix(StripExtension(filename)));
  }

  // ---------------------------------------------------------------------
  // extension filter

  /** `AUDIO_EXTENSIONS` of the importer, without the dot. */
  const LocalExtensions: seq<string> := ["mp3", "m4a", "m4b", "flac", "ogg", "wav", "aac"]

  /** `ext && AUDIO_EXTENSIONS.has(ext)` with `ext` the lower-cased text after the last '.'. */
  predicate IsCollected(name: string)
  {
    var e := Lower(AfterLast(name, '.'));
    e != "" && e in LocalExtensions
  }

  /** A name "stem.ext" is collected exactly when `ext`, lower-cased, is listed. */
  lemma {:induction false} CollectedByExtension(stem: string, ext: string)
    requires '.' !in ext
    ensures IsCollected(stem + "." + ext) <==> Lower(ext) in LocalExtensions
  {
    LastIndexOfSplit(stem, ext, '.');
    var name := stem + "." + ext;
    assert name[|stem| + 1..] == ext;
  }

  /** Without any dot the whole name is the "extension": a file named "MP3" is collected. */
  lemma {:induction false} DotlessNameIsItsExtension(name: string)
    requires '.' !in name
    ensures IsCollected(name) <==> Lower(name) in LocalExtensions
  {
    assert AfterLast(name, '.') == name by {
      assert LastIndexOf(name, '.') == -1;
      assert name[0..] == name;
    }
    if Lower(name) in LocalExtensions {
      ListedNonEmpty(Lower(name));
    }
  }

  lemma {:induction false} ListedNonEmpty(e: string)
    requires e in LocalExtensions
    ensures e != ""
  {
    var i :| 0 <= i < |LocalExtensions| && LocalExtensions[i] == e;
    assert |LocalExtensions[i]| >= 3;
  }

  /** Every extension the importer collects is one the server scanner also accepts. */
  lemma {:induction false} LocalExtensionsServerAccepted(stem: string, ext: string)
    requires stem != "" && '/' !in stem && ExtensionBody(ext)
    requires IsCollected(stem + "." + ext)
    ensures Scanner.IsAudioFile(stem + "." + ext)
  {
    var e := Lower(ext);
    assert e in LocalExtensions by { CollectedByExtension(stem, ext); }
    assert "." + e in Scanner.AudioExtensions by { LocalIsServerExtension(e); }
    assert Lower("." + ext) == "." + e;
    Scanner.AudioByExtension(stem, ext);
  }

  lemma {:induction false} LocalIsServerExtension(e: string)
    requires e in LocalExtensions
    ensures "." + e in Scanner.AudioExtensions
  {
    var k :| 0 <= k < |LocalExtensions| && LocalExtensions[k] == e;
    assert "." + e == Scanner.AudioExtensions[k];
  }

  // ---------------------------------------------------------------------
  // the directory walk

  datatype Entry = FileEntry(name: string) | DirEntry(name: string, children: seq<Entry>)

  /** A collected file and its path below the picked directory ("/a/b/file.mp3"). */
  datatype ScannedFile = ScannedFile(name: string, path: string)

  /** `scanDirectoryRecursively`: collected files in walk order, directories expanded in place. */
  function ScanEntries(es: seq<Entry>, path: string): (r: seq<ScannedFile>)
    ensures forall f :: f in r ==> IsCollected(f.name)
    decreases es
  {
    if |es| == 0 then []
    else
      var first := match es[0]
        case FileEntry(n) => if IsCollected(n) then [ScannedFile(n, path + "/" + n)] else []
        case DirEntry(n, cs) => ScanEntries(cs, path + "/" + n);
      first + ScanEntries(es[1..], path)
  }

  lemma {:induction false} StartsWithTrans(s: string, a: string, b: string)
    requires StartsWith(s, a + b)
    ensures StartsWith(s, a)
  {
    assert s[..|a|] == (a + b)[..|a|];
  }

  /** `f` sits below `path` and its path ends with its own name. */
  predicate Below(f: ScannedFile, path: string)
  {
    StartsWith(f.path, path + "/") && EndsWith(f.path, "/" + f.name)
  }

  /** A file found directly in `path` lies below it. */
  lemma {:induction false} FileBelow(path: string, n: string)
    ensures Below(ScannedFile(n, path + "/" + n), path)
  {
    assert (path + "/" + n)[..|path + "/"|] == path + "/";
    assert path + "/" + n == path + ("/" + n);
  }

  /** A file below the sub-directory `path/n` lies below `path`. */
  lemma {:induction false} NestedBelow(f: ScannedFile, path: string, n: string)
    requires Below(f, path + "/" + n)
    ensures Below(f, path)
  {
    assert path + "/" + n + "/" == (path + "/") + (n + "/");
    StartsWithTrans(f.path, path + "/", n + "/");
  }

  /** Every collected path lies below the walked directory and ends with "/name". */
  lemma {:induction false} ScannedPathsBelow(es: seq<Entry>, path: string)
    ensures forall f :: f in ScanEntries(es, path) ==> Below(f, path)
    decreases es
  {
    if |es| > 0 {
      var rest := ScanEntries(es[1..], path);
      ScannedPathsBelow(es[1..], path);
      match es[0]
      case FileEntry(n) => {
        var first := if IsCollected(n) then [ScannedFile(n, path + "/" + n)] else [];
        assert ScanEntries(es, path) == first + rest;
        FileBelow(path, n);
      }
      case DirEntry(n, cs) => {
        var first := ScanEntries(cs, path + "/" + n);
        assert ScanEntries(es, path) == first + rest;
        ScannedPathsBelow(cs, path + "/" + n);
        forall f | f in first
          ensures Below(f, path)
        {
          NestedBelow(f, path, n);
        }
      }
    }
  }

  /** Every collected file directly in the directory is found, under "path/name". */
  lemma {:induction false} ScanFindsTopLevelFiles(es: seq<Entry>, path: string, n: string)
    requires FileEntry(n) in es && IsCollected(n)
    ensures ScannedFile(n, path + "/" + n) in ScanEntries(es, path)
    decreases es
  {
    if es[0] != FileEntry(n) {
      ScanFindsTopLevelFiles(es[1..], path, n);
    }
  }

  // ---------------------------------------------------------------------
  // grouping by directory

  /** `sf.path.substring(0, sf.path.lastIndexOf('/')) || '/Root'`. */
  function DirOf(path: string): (d: string)
    ensures d != ""
    ensures d == "/Root" || StartsWith(path, d)
  {
    var k := LastIndexOf(path, '/');
    var prefix := if k >= 0 then path[..k] else "";
    if prefix == "" then "/Root" else prefix
  }

  /** The directory of a walked file is the walked directory it sits in. */
  lemma {:induction false} DirOfJoined(dir: string, name: string)
    requires dir != "" && '/' !in name
    ensures DirOf(dir + "/" + name) == dir
  {
    LastIndexOfSplit(dir, name, '/');
    assert (dir + "/" + name)[..|dir|] == dir;
  }

  /** Some file of `files` lies directly in directory `k`. */
  predicate HasDir(files: seq<ScannedFile>, k: string)
  {
    exists i :: 0 <= i < |files| && DirOf(files[i].path) == k
  }

  /** The directories of a sequence are those of its prefix plus the last file's. */
  lemma {:induction false} HasDirSnoc(files: seq<ScannedFile>)
    requires |files| > 0
    ensures forall k :: HasDir(files, k) <==>
      HasDir(files[..|files| - 1], k) || DirOf(files[|files| - 1].path) == k
  {
    var init := files[..|files| - 1];
    forall k ensures HasDir(files, k) <==> HasDir(init, k) || DirOf(files[|files| - 1].path) == k {
      if HasDir(files, k) && DirOf(files[|files| - 1].path) != k {
        var i :| 0 <= i < |files| && DirOf(files[i].path) == k;
        assert init[i] == files[i];
      }
      if HasDir(init, k) {
        var i :| 0 <= i < |init| && DirOf(init[i].path) == k;
        assert files[i] == init[i];
      }
    }
  }

  /** Appending a key that is not there yet keeps the keys pairwise different. */
  lemma {:induction false} DistinctSnoc(keys: seq<string>, d: string)
    requires forall i, j :: 0 <= i < j < |keys| ==> keys[i] != keys[j]
    requires d !in keys
    ensures var r := keys + [d]; forall i, j :: 0 <= i < j < |r| ==> r[i] != r[j]
  {
  }

  /** Distinct directories, in order of first appearance (the insertion order of `grouped`). */
  function GroupKeys(files: seq<ScannedFile>): (keys: seq<string>)
    ensures forall i, j :: 0 <= i < j < |keys| ==> keys[i] != keys[j]
    ensures forall k :: k in keys <==> HasDir(files, k)
  {
    if |files| == 0 then []
    else
      var keys := GroupKeys(files[..|files| - 1]);
      var d := DirOf(files[|files| - 1].path);
      HasDirSnoc(files);
      if d in keys then keys else DistinctSnoc(keys, d); keys + [d]
  }

  /** The files of one directory, in input order. */
  function GroupOf(files: seq<ScannedFile>, dir: string): (g: seq<ScannedFile>)
    ensures SubsequenceOf(g, files)
    ensures forall f :: f in g <==> f in files && DirOf(f.path) == dir
  {
    Filter(files, (f: ScannedFile) => DirOf(f.path) == dir)
  }

  /** Every file lands in the group of some key. */
  lemma {:induction false} GroupsCover(files: seq<ScannedFile>, f: ScannedFile)
    requires f in files
    ensures exists i :: 0 <= i < |GroupKeys(files)| && f in GroupOf(files, GroupKeys(files)[i])
  {
    var keys := GroupKeys(files);
    var m :| 0 <= m < |files| && files[m] == f;
    assert DirOf(files[m].path) in keys;
    var i :| 0 <= i < |keys| && keys[i] == DirOf(f.path);
    assert f in GroupOf(files, keys[i]);
  }

  /** No file lands in two groups. */
  lemma {:induction false} GroupsDisjoint(files: seq<ScannedFile>, f: ScannedFile, i: nat, j: nat)
    requires i < |GroupKeys(files)| && j < |GroupKeys(files)|
    requires f in GroupOf(files, GroupKeys(files)[i]) && f in GroupOf(files, GroupKeys(files)[j])
    ensures i == j
  {
  }

  /** No group is empty, so the `files.length === 0` guard never fires. */
  lemma {:induction false} GroupsNonEmpty(files: seq<ScannedFile>, i: nat)
    requires i < |GroupKeys(files)|
    ensures |GroupOf(files, GroupKeys(files)[i])| > 0
  {
    var keys := GroupKeys(files);
    assert keys[i] in keys;
    var m :| 0 <= m < |files| && DirOf(files[m].path) == keys[i];
    assert files[m] in GroupOf(files, keys[i]);
  }

  // ---------------------------------------------------------------------
  // one book per group

  /** The cleaned title of every file name, in order. */
  function CleanTitles(names: seq<string>): (ts: seq<string>)
    ensures |ts| == |names|
    ensures forall i :: 0 <= i < |names| ==> ts[i] == CleanTitle(names[i])
  {
    seq(|names|, i requires 0 <= i < |names| => CleanTitle(names[i]))
  }

  /** The chapters of a group: chapter `i` is titled `titles[i]` and starts where the files before it end. */
  function ImportedChapters(titles: seq<string>, durations: seq<real>): (cs: seq<Chapter>)
    requires |titles| == |durations|
    ensures |cs| == |titles|
  {
    seq(|titles|, i requires 0 <= i < |titles| => Chapter(titles[i], PrefixSum(durations, i), durations[i]))
  }

  /** The chapter loop of `organizeFilesToBooks`, with the running total. */
  method BuildChapters(titles: seq<string>, durations: seq<real>) returns (chapters: seq<Chapter>, total: real)
    requires |titles| == |durations|
    ensures chapters == ImportedChapters(titles, durations)
    ensures total == Sum(durations)
  {
    chapters := [];
    total := 0.0;
    for i := 0 to |titles|
      invariant |chapters| == i
      invariant forall k :: 0 <= k < i ==> chapters[k] == Chapter(titles[k], PrefixSum(durations, k), durations[k])
      invariant total == PrefixSum(durations, i)
    {
      PrefixSumStep(durations, i);
      chapters := chapters + [Chapter(titles[i], total, durations[i])];
      total := total + durations[i];
    }
    assert durations[..|durations|] == durations;
  }

  /** The imported chapters start at 0, are contiguous, and end at the book's duration. */
  lemma {:induction false} ImportedChaptersTile(titles: seq<string>, durations: seq<real>)
    requires |titles| == |durations| && |titles| > 0
    requires forall i :: 0 <= i < |durations| ==> durations[i] >= 0.0
    ensures ImportedChapters(titles, durations)[0].startTime == 0.0
    ensures Engine.Tiles(ImportedChapters(titles, durations), Sum(durations))
  {
    var cs := ImportedChapters(titles, durations);
    assert durations[..0] == [];
    forall i | 0 <= i < |cs| - 1
      ensures cs[i + 1].startTime == cs[i].startTime + cs[i].duration
    {
      PrefixSumStep(durations, i);
    }
    assert Contiguous(cs);
    assert forall i :: 0 <= i < |cs| ==> cs[i].duration >= 0.0;
    var n := |cs|;
    PrefixSumStep(durations, n - 1);
    assert durations[..n] == durations;
    assert cs[n - 1].startTime + cs[n - 1].duration == Sum(durations);
  }

  function Names(files: seq<ScannedFile>): (ns: seq<string>)
    ensures |ns| == |files|
    ensures forall i :: 0 <= i < |files| ==> ns[i] == files[i].name
  {
    seq(|files|, i requires 0 <= i < |files| => files[i].name)
  }

  /** A book imported from the browser. */
  datatype ImportedBook = ImportedBook(
    title: string,
    author: string,
    coverUrl: string,
    duration: real,
    progress: real,
    description: string,
    chapters: seq<Chapter>)

  const UnknownAuthor: string := "Unknown Author"
  const NoCover: string := "https://placehold.co/400x400?text=No+Cover"

  /** `dir.split('/').pop() || cleanTitle(firstFile.file.name)`. */
  function BookTitle(dir: string, firstName: string): (t: string)
    ensures Basename(dir) != "" ==> t == Basename(dir)
    ensures Basename(dir) == "" ==> t == CleanTitle(firstName)
  {
    var last := Basename(dir);
    if last != "" then last else CleanTitle(firstName)
  }

  /** The book of one group; `durations[i]` is the measured length of `files[i]` (0 when unreadable). */
  method BuildBook(dir: string, files: seq<ScannedFile>, durations: seq<real>) returns (b: ImportedBook)
    requires |files| == |durations| && |files| > 0
    ensures b.title == BookTitle(dir, files[0].name)
    ensures b.duration == Sum(durations)
    ensures b.chapters == ImportedChapters(CleanTitles(Names(files)), durations)
    ensures b.author == UnknownAuthor && b.coverUrl == NoCover && b.progress == 0.0
    ensures b.description == "Imported from " + dir + ". Contains " + NatToString(|files|) + " tracks."
  {
    var chapters, total := BuildChapters(CleanTitles(Names(files)), durations);
    b := ImportedBook(BookTitle(dir, files[0].name), UnknownAuthor, NoCover, total, 0.0,
                      "Imported from " + dir + ". Contains " + NatToString(|files|) + " tracks.", chapters);
  }

  /** The measured durations of a group's files. */
  function Measures(g: seq<ScannedFile>, measure: ScannedFile -> real): (ds: seq<real>)
    ensures |ds| == |g|
  {
    seq(|g|, i requires 0 <= i < |g| => measure(g[i]))
  }

  /** `b` is the book `organizeFilesToBooks` makes from group `g` of directory `dir`. */
  predicate BookOfGroup(b: ImportedBook, dir: string, g: seq<ScannedFile>, measure: ScannedFile -> real)
  {
    && |g| > 0
    && b.title == BookTitle(dir, g[0].name)
    && b.duration == Sum(Measures(g, measure))
    && b.chapters == ImportedChapters(CleanTitles(Names(g)), Measures(g, measure))
  }

  /** `organizeFilesToBooks`: one book per directory, in order of first appearance; `measure` stands for `getAudioDuration`. */
  method OrganizeFilesToBooks(files: seq<ScannedFile>, measure: ScannedFile -> real) returns (books: seq<ImportedBook>)
    ensures |books| == |GroupKeys(files)|
    ensures forall i :: 0 <= i < |books| ==>
      BookOfGroup(books[i], GroupKeys(files)[i], GroupOf(files, GroupKeys(files)[i]), measure)
  {
    var keys := GroupKeys(files);
    var groups := seq(|keys|, k requires 0 <= k < |keys| => GroupOf(files, keys[k]));
    books := [];
    for i := 0 to |keys|
      invariant |books| == i
      invariant BooksOfGroups(books, keys, groups, measure)
    {
      var b := GroupBook(files, i, measure);
      BooksOfGroupsSnoc(books, b, keys, groups, measure);
      books := books + [b];
    }
  }

  /** The book of the `i`-th group. */
  method GroupBook(files: seq<ScannedFile>, i: nat, measure: ScannedFile -> real) returns (b: ImportedBook)
    requires i < |GroupKeys(files)|
    ensures BookOfGroup(b, GroupKeys(files)[i], GroupOf(files, GroupKeys(files)[i]), measure)
  {
    var dir := GroupKeys(files)[i];
    var g := GroupOf(files, dir);
    GroupsNonEmpty(files, i);
    b := BuildBook(dir, g, Measures(g, measure));
  }

  /** Each of `books` is the book of the group at the same position. */
  predicate BooksOfGroups(books: seq<ImportedBook>, keys: seq<string>, groups: seq<seq<ScannedFile>>,
                          measure: ScannedFile -> real)
  {
    && |books| <= |keys| == |groups|
    && forall k :: 0 <= k < |books| ==> BookOfGroup(books[k], keys[k], groups[k], measure)
  }

  lemma {:induction false} BooksOfGroupsSnoc(books: seq<ImportedBook>, b: ImportedBook, keys: seq<string>,
                                             groups: seq<seq<ScannedFile>>, measure: ScannedFile -> real)
    requires BooksOfGroups(books, keys, groups, measure) && |books| < |keys|
    requires BookOfGroup(b, keys[|books|], groups[|books|], measure)
    ensures BooksOfGroups(books + [b], keys, groups, measure)
  {
    forall k | 0 <= k < |books| + 1 ensures BookOfGroup((books + [b])[k], keys[k], groups[k], measure) {
      if k < |books| {
        BookOfGroupAt(books, b, keys, groups, measure, k);
      }
    }
  }

  lemma {:induction false} BookOfGroupAt(books: seq<ImportedBook>, b: ImportedBook, keys: seq<string>,
                                         groups: seq<seq<ScannedFile>>, measure: ScannedFile -> real, k: nat)
    requires BooksOfGroups(books, keys, groups, measure) && k < |books|
    ensures BookOfGroup((books + [b])[k], keys[k], groups[k], measure)
  {
    assert (books + [b])[k] == books[k];
  }

  /** A group walked from a named directory takes that directory's name as its title. */
  lemma {:induction false} TitleIsDirectoryName(parent: string, name: string, firstName: string)
    requires name != "" && '/' !in name
    ensures BookTitle(parent + "/" + name, firstName) == name
  {
    LastIndexOfSplit(parent, name, '/');
    assert (parent + "/" + name)[|parent| + 1..] == name;
  }
}
