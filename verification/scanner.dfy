/**
 * The pure decisions of the server's folder scanner (server/services/scanner.js):
 * file-name sanitising, ignore patterns and dot-folders, the audio-extension
 * filter, the NFO sidecar fields, title and author precedence, the track-number
 * fallback and the track list with its total duration. Directory reads, ffprobe,
 * ID3 parsing and the database are outside the model: their results are inputs.
 */
module Scanner {
  import opened Wrappers
  import opened Text
  import opened Seqs
  import opened Types
  import opened FileNames
  import Renamer

  // ---------------------------------------------------------------------
  // sanitizeFilename

  /** `name.replace(/[<>:"/\\|?*]/g, '').trim()`. */
  function SanitizeFilename(name: string): (r: string)
    ensures forall i :: 0 <= i < |r| ==> r[i] !in Renamer.Unsafe
    ensures Trimmed(r)
    ensures |r| <= |name|
  {
    var kept := RemoveChars(name, Renamer.Unsafe);
    Renamer.TrimAvoids(kept, Renamer.Unsafe);
    Trim(kept)
  }

  /** A name is left alone exactly when it has nothing to remove or trim. */
  lemma {:induction false} SanitizeFilenameFixpoint(name: string)
    ensures SanitizeFilename(name) == name <==>
      (forall i :: 0 <= i < |name| ==> name[i] !in Renamer.Unsafe) && Trimmed(name)
  {
    if (forall i :: 0 <= i < |name| ==> name[i] !in Renamer.Unsafe) && Trimmed(name) {
      RemoveCharsNoop(name, Renamer.Unsafe);
    }
  }

  /** Sanitising twice is sanitising once. */
  lemma {:induction false} SanitizeFilenameIdempotent(name: string)
    ensures SanitizeFilename(SanitizeFilename(name)) == SanitizeFilename(name)
  {
    SanitizeFilenameFixpoint(SanitizeFilename(name));
  }

  // ---------------------------------------------------------------------
  // ignore patterns and dot-folders

  /** `ignorePatterns.split(',').map(s => s.trim())`. */
  function Patterns(text: string): (ps: seq<string>)
    ensures |ps| == |Split(text, ',')|
    ensures forall i :: 0 <= i < |ps| ==> ps[i] == Trim(Split(text, ',')[i])
  {
    var parts := Split(text, ',');
    seq(|parts|, i requires 0 <= i < |parts| => Trim(parts[i]))
  }

  /** `patterns.some(p => name.includes(p))`. */
  predicate SomeContained(name: string, ps: seq<string>)
  {
    exists i :: 0 <= i < |ps| && Contains(name, ps[i])
  }

  /** The ignore test as written: any trimmed pattern, the empty one included. */
  predicate IgnoredAsWritten(patterns: Option<string>, folderName: string)
  {
    Truthy(patterns) && SomeContained(folderName, Patterns(patterns.value))
  }

  /** A trailing comma yields an empty pattern, and every folder contains the empty string. */
  lemma {:induction false} TrailingCommaIgnoresAll(pattern: string, folderName: string)
    requires ',' !in pattern
    ensures IgnoredAsWritten(Some(pattern + ","), folderName)
  {
    TrailingCommaPatterns(pattern);
    ContainsEmpty(folderName);
    assert Contains(folderName, Patterns(pattern + ",")[1]);
  }

  /** So does a leading comma. */
  lemma {:induction false} LeadingCommaIgnoresAll(rest: string, folderName: string)
    ensures IgnoredAsWritten(Some("," + rest), folderName)
  {
    var text := "," + rest;
    assert text[1..] == rest;
    assert Split(text, ',')[0] == "";
    assert Patterns(text)[0] == "";
    ContainsEmpty(folderName);
  }

  /** "p," splits into the patterns `Trim(p)` and "". */
  lemma {:induction false} TrailingCommaPatterns(pattern: string)
    requires ',' !in pattern
    ensures Patterns(pattern + ",") == [Trim(pattern), ""]
  {
    SplitTrailing(pattern, ',');
    TrimEmpty();
  }

  /** Text without the separator followed by one separator splits into the text and "". */
  lemma {:induction false} SplitTrailing(s: string, sep: char)
    requires sep !in s
    ensures Split(s + [sep], sep) == [s, ""]
  {
    assert s + [sep] == s + [sep] + "";
    SplitAt(s, "", sep);
    assert Split("", sep) == [""];
  }

  lemma {:induction false} TrimEmpty()
    ensures Trim("") == ""
  {
  }

  /** The ignore test as intended: only a non-empty pattern can match. */
  predicate Ignored(patterns: Option<string>, folderName: string)
  {
    Truthy(patterns)
    && exists i :: 0 <= i < |Patterns(patterns.value)|
         && Patterns(patterns.value)[i] != "" && Contains(folderName, Patterns(patterns.value)[i])
  }

  /** Without empty patterns the intended test is the written one. */
  lemma {:induction false} IgnoredAgrees(patterns: string, folderName: string)
    requires forall i :: 0 <= i < |Patterns(patterns)| ==> Patterns(patterns)[i] != ""
    ensures Ignored(Some(patterns), folderName) == IgnoredAsWritten(Some(patterns), folderName)
  {
  }

  /** With the intended test a trailing comma changes nothing: "p," skips exactly the folders containing the trimmed p. */
  lemma {:induction false} TrailingCommaHarmless(pattern: string, folderName: string)
    requires ',' !in pattern && Trim(pattern) != ""
    ensures Ignored(Some(pattern + ","), folderName) <==> Contains(folderName, Trim(pattern))
  {
    TrailingCommaPatterns(pattern);
    assert Truthy(Some(pattern + ","));
    IgnoredPair(pattern + ",", folderName, Trim(pattern));
  }

  /** Patterns `a` and "": only `a` can match. */
  lemma {:induction false} IgnoredPair(patterns: string, folderName: string, a: string)
    requires Truthy(Some(patterns)) && Patterns(patterns) == [a, ""]
    ensures Ignored(Some(patterns), folderName) <==> a != "" && Contains(folderName, a)
  {
    var ps := Patterns(patterns);
    if a != "" && Contains(folderName, a) {
      assert ps[0] != "" && Contains(folderName, ps[0]);
    }
    if Ignored(Some(patterns), folderName) {
      var i :| 0 <= i < |ps| && ps[i] != "" && Contains(folderName, ps[i]);
      assert i == 0;
    }
  }

  /**
   * A folder the scanner skips, with the corrected ignore test: ignored by a
   * pattern, or a dot-folder. It never skips a folder the code as written keeps.
   */
  predicate SkipFolder(patterns: Option<string>, folderName: string): (r: bool)
    ensures StartsWith(folderName, ".") ==> r
    ensures r ==> IgnoredAsWritten(patterns, folderName) || StartsWith(folderName, ".")
  {
    Ignored(patterns, folderName) || StartsWith(folderName, ".")
  }

  // ---------------------------------------------------------------------
  // audio candidates

  const AudioExtensions: seq<string> := [".mp3", ".m4a", ".m4b", ".flac", ".ogg", ".wav", ".aac", ".wma", ".opus"]

  /** `AUDIO_EXTENSIONS.includes(path.extname(f).toLowerCase())`. */
  predicate IsAudioFile(f: string)
  {
    Lower(Extname(f)) in AudioExtensions
  }

  /** `files.filter(…)`: the audio files, in directory order. */
  function AudioCandidates(files: seq<string>): (r: seq<string>)
    ensures SubsequenceOf(r, files)
    ensures forall f :: f in r <==> f in files && IsAudioFile(f)
  {
    Filter(files, IsAudioFile)
  }

  /** The extension of a plain name "stem.ext" is ".ext". */
  lemma {:induction false} ExtnameOf(stem: string, ext: string)
    requires stem != "" && '/' !in stem && ExtensionBody(ext)
    ensures Extname(stem + "." + ext) == "." + ext
  {
    var name := stem + "." + ext;
    assert '/' !in name;
    assert name[0..] == name;
    assert Basename(name) == name;
    LastIndexOfSplit(stem, ext, '.');
    assert name[|stem|..] == "." + ext;
  }

  /** A plain "stem.ext" is an audio file exactly when ".ext", lower-cased, is a listed extension. */
  lemma {:induction false} AudioByExtension(stem: string, ext: string)
    requires stem != "" && '/' !in stem && ExtensionBody(ext)
    ensures IsAudioFile(stem + "." + ext) <==> Lower("." + ext) in AudioExtensions
  {
    ExtnameOf(stem, ext);
  }

  // ---------------------------------------------------------------------
  // NFO sidecar

  /** The sidecar file: the first name ending in ".nfo" or ".json". */
  function SidecarFile(files: seq<string>): (r: Option<string>)
    ensures r.Some? ==> r.value in files && (EndsWith(r.value, ".nfo") || EndsWith(r.value, ".json"))
    ensures r.None? <==> forall i :: 0 <= i < |files| ==> !EndsWith(files[i], ".nfo") && !EndsWith(files[i], ".json")
  {
    if |files| == 0 then None
    else if EndsWith(files[0], ".nfo") || EndsWith(files[0], ".json") then Some(files[0])
    else SidecarFile(files[1..])
  }

  function DotRun(s: string): (n: nat)
    ensures n <= |s|
    ensures forall i :: 0 <= i < n ==> s[i] == '.'
    ensures n < |s| ==> s[n] != '.'
  {
    if |s| > 0 && s[0] == '.' then 1 + DotRun(s[1..]) else 0
  }

  /** Length of `(.*)`: up to the first line terminator. */
  function LineEnd(s: string): (n: nat)
    ensures n <= |s|
    ensures forall i :: 0 <= i < n ==> !IsLineTerminator(s[i])
    ensures n < |s| ==> IsLineTerminator(s[n])
  {
    if |s| > 0 && !IsLineTerminator(s[0]) then 1 + LineEnd(s[1..]) else 0
  }

  /** The capture of `/Key\.*: (.*)/i` when a match starts at `i`; `key` is in lower case. */
  function MatchAt(s: string, i: nat, key: string): (r: Option<string>)
    requires i <= |s|
    ensures r.Some? ==> forall k :: 0 <= k < |r.value| ==> !IsLineTerminator(r.value[k])
  {
    if i + |key| <= |s| && Lower(s[i..i + |key|]) == key then
      var j := i + |key| + DotRun(s[i + |key|..]);
      if j + 1 < |s| && s[j] == ':' && s[j + 1] == ' ' then
        var rest := s[j + 2..];
        Some(rest[..LineEnd(rest)])
      else None
    else None
  }

  /** The leftmost match from position `i` on. */
  function FirstMatchFrom(s: string, i: nat, key: string): (r: Option<string>)
    requires i <= |s|
    ensures r.Some? ==> exists k :: i <= k <= |s| && MatchAt(s, k, key) == r
    ensures r.None? <==> forall k :: i <= k <= |s| ==> MatchAt(s, k, key).None?
    decreases |s| - i
  {
    var m := MatchAt(s, i, key);
    if m.Some? then m
    else if i == |s| then None
    else FirstMatchFrom(s, i + 1, key)
  }

  /** `content.match(/Key\.*: (.*)/i)` and the trimmed group, or null. */
  function NfoField(content: string, key: string): (r: Option<string>)
    ensures r.Some? ==> Trimmed(r.value)
    ensures r.None? <==> forall k :: 0 <= k <= |content| ==> MatchAt(content, k, key).None?
  {
    var m := FirstMatchFrom(content, 0, key);
    if m.Some? then Some(Trim(m.value)) else None
  }

  /** The capture stops at the end of `v` when `v` holds no line terminator and one (or the end) follows. */
  lemma {:induction false} LineEndOf(v: string, rest: string)
    requires forall k :: 0 <= k < |v| ==> !IsLineTerminator(v[k])
    requires rest == "" || IsLineTerminator(rest[0])
    ensures LineEnd(v + rest) == |v|
    decreases |v|
  {
    if |v| > 0 {
      assert (v + rest)[1..] == v[1..] + rest;
      LineEndOf(v[1..], rest);
    }
  }

  /** A first line "Title: v" gives the title v, trimmed. */
  lemma {:induction false} NfoReadsTitleLine(v: string, rest: string)
    requires forall k :: 0 <= k < |v| ==> !IsLineTerminator(v[k])
    ensures NfoField("Title: " + v + "\n" + rest, "title") == Some(Trim(v))
  {
    TitleLineMatches(v, rest);
  }

  /** The key matches at the very start of a "Title: v" line and captures v. */
  lemma {:induction false} TitleLineMatches(v: string, rest: string)
    requires forall k :: 0 <= k < |v| ==> !IsLineTerminator(v[k])
    ensures MatchAt("Title: " + v + "\n" + rest, 0, "title") == Some(v)
  {
    assert Lower("Title") == "title" by {
      assert "Title"[0] == 'T';
    }
    assert "" + "Title" + ": " + v + ("\n" + rest) == "Title: " + v + "\n" + rest;
    MatchAtField("", "Title", "title", v, "\n" + rest);
  }

  /**
   * A word `w` reading as `key` once lower-cased, followed by ": " and a value
   * without line terminators, matches where `w` starts and captures the value.
   */
  lemma {:induction false} MatchAtField(pre: string, w: string, key: string, v: string, rest: string)
    requires Lower(w) == key
    requires forall k :: 0 <= k < |v| ==> !IsLineTerminator(v[k])
    requires rest == "" || IsLineTerminator(rest[0])
    ensures MatchAt(pre + w + ": " + v + rest, |pre|, key) == Some(v)
  {
    var s := pre + w + ": " + v + rest;
    var i := |pre|;
    var j := i + |key|;
    assert s[i..j] == w;
    assert s[j..] == ": " + v + rest;
    assert DotRun(s[j..]) == 0;
    assert s[j] == ':' && s[j + 1] == ' ';
    assert s[j + 2..] == v + rest;
    LineEndOf(v, rest);
    assert (v + rest)[..|v|] == v;
  }

  /** The pattern is not anchored: a "Subtitle:" line also yields a title. */
  lemma {:induction false} NfoSubtitleQuirk(v: string)
    requires forall k :: 0 <= k < |v| ==> !IsLineTerminator(v[k])
    ensures NfoField("Subtitle: " + v, "title") == Some(Trim(v))
  {
    SubtitleMatches(v);
    NfoFieldLeftmost("Subtitle: " + v, "title", 3);
  }

  /** No match starts where the first letter already differs. */
  lemma {:induction false} NoMatchAt(s: string, i: nat, key: string)
    requires i < |s| && |key| > 0 && LowerChar(s[i]) != key[0]
    ensures MatchAt(s, i, key).None?
  {
    if i + |key| <= |s| {
      assert Lower(s[i..i + |key|])[0] == LowerChar(s[i]);
    }
  }

  /** In "Subtitle: v" the key "title" first matches at offset 3, capturing v. */
  lemma {:induction false} SubtitleMatches(v: string)
    requires forall k :: 0 <= k < |v| ==> !IsLineTerminator(v[k])
    ensures forall k :: 0 <= k < 3 ==> MatchAt("Subtitle: " + v, k, "title").None?
    ensures MatchAt("Subtitle: " + v, 3, "title") == Some(v)
  {
    assert ("Subtitle: " + v)[..3] == "Sub";
    SubtitleNoEarlyMatch("Subtitle: " + v);
    assert Lower("title") == "title" by {
      assert "title"[0] == 't';
    }
    assert "Sub" + "title" + ": " + v + "" == "Subtitle: " + v;
    MatchAtField("Sub", "title", "title", v, "");
  }

  /** Text starting "Sub" has no match of "title" at its first three positions. */
  lemma {:induction false} SubtitleNoEarlyMatch(s: string)
    requires |s| >= 3 && s[..3] == "Sub"
    ensures forall k :: 0 <= k < 3 ==> MatchAt(s, k, "title").None?
  {
    assert s[0] == 'S' && s[1] == 'u' && s[2] == 'b';
    assert "title"[0] == 't';
    forall k | 0 <= k < 3 ensures MatchAt(s, k, "title").None? {
      NoMatchAt(s, k, "title");
    }
  }

  /** The field is read from the leftmost position where the pattern matches. */
  lemma {:induction false} NfoFieldLeftmost(content: string, key: string, i: nat)
    requires i <= |content| && MatchAt(content, i, key).Some?
    requires forall k :: 0 <= k < i ==> MatchAt(content, k, key).None?
    ensures NfoField(content, key) == Some(Trim(MatchAt(content, i, key).value))
  {
    FirstMatchFromLeftmost(content, key, 0, i);
  }

  lemma {:induction false} FirstMatchFromLeftmost(s: string, key: string, j: nat, i: nat)
    requires j <= i <= |s| && MatchAt(s, i, key).Some?
    requires forall k :: j <= k < i ==> MatchAt(s, k, key).None?
    ensures FirstMatchFrom(s, j, key) == MatchAt(s, i, key)
    decreases i - j
  {
    if j < i {
      assert MatchAt(s, j, key).None?;
      assert FirstMatchFrom(s, j, key) == FirstMatchFrom(s, j + 1, key);
      FirstMatchFromLeftmost(s, key, j + 1, i);
    }
  }

  // ---------------------------------------------------------------------
  // title and author precedence

  datatype Sidecar = Sidecar(title: Option<string>, author: Option<string>)
  datatype Id3 = Id3(album: Option<string>, artist: Option<string>)
  datatype BookMeta = BookMeta(title: string, author: string)

  /**
   * Folder name and "Unknown" to start; a sidecar overrides them when NFO has
   * priority; the ID3 album then replaces a title still equal to the folder name
   * (or empty), and the ID3 artist an author still "Unknown".
   */
  function InitialMeta(folderName: string, priorityNfo: bool, sidecar: Option<Sidecar>, id3: Option<Id3>): (m: BookMeta)
    ensures m.title == folderName || (priorityNfo && sidecar.Some? && Some(m.title) == sidecar.value.title)
                                  || (id3.Some? && Some(m.title) == id3.value.album)
    ensures m.author == "Unknown" || (priorityNfo && sidecar.Some? && Some(m.author) == sidecar.value.author)
                                  || (id3.Some? && Some(m.author) == id3.value.artist)
  {
    var m := BookMeta(folderName, "Unknown");
    var m := if priorityNfo && sidecar.Some? then
               m.(title := if Truthy(sidecar.value.title) then sidecar.value.title.value else m.title,
                  author := if Truthy(sidecar.value.author) then sidecar.value.author.value else m.author)
             else m;
    if id3.None? then m
    else
      var title := if (m.title == "" || m.title == folderName) && Truthy(id3.value.album) then id3.value.album.value else m.title;
      var author := if m.author == "Unknown" && Truthy(id3.value.artist) then id3.value.artist.value else m.author;
      BookMeta(title, author)
  }

  /** A sidecar title other than the folder name beats the ID3 album; otherwise the album beats the folder name. */
  lemma {:induction false} TitlePrecedence(folderName: string, sidecar: Option<Sidecar>, id3: Option<Id3>)
    ensures sidecar.Some? && Truthy(sidecar.value.title) && sidecar.value.title.value != folderName ==>
      InitialMeta(folderName, true, sidecar, id3).title == sidecar.value.title.value
    ensures id3.Some? && Truthy(id3.value.album) ==>
      InitialMeta(folderName, false, sidecar, id3).title == id3.value.album.value
    ensures id3.None? || !Truthy(id3.value.album) ==>
      InitialMeta(folderName, false, sidecar, id3).title == folderName
  {
  }

  /** A sidecar author beats the ID3 artist unless the sidecar says "Unknown"; the artist beats the default. */
  lemma {:induction false} AuthorPrecedence(folderName: string, sidecar: Sidecar, id3: Id3)
    ensures Truthy(sidecar.author) && sidecar.author.value != "Unknown" ==>
      InitialMeta(folderName, true, Some(sidecar), Some(id3)).author == sidecar.author.value
    ensures !Truthy(sidecar.author) || sidecar.author == Some("Unknown") ==>
      InitialMeta(folderName, true, Some(sidecar), Some(id3)).author
        == (if Truthy(id3.artist) then id3.artist.value else "Unknown")
  {
  }

  // ---------------------------------------------------------------------
  // track numbers and the track list

  /** `tId3.common.track.no || 0`, then the leading digit run of the file name, else 0. */
  function TrackNumberFor(id3Track: Option<int>, filename: string): (n: int)
    ensures id3Track.Some? && id3Track.value != 0 ==> n == id3Track.value
    ensures (id3Track.None? || id3Track.value == 0) && DigitRunLength(filename) == 0 ==> n == 0
  {
    if id3Track.Some? && id3Track.value != 0 then id3Track.value
    else
      var d := DigitRunLength(filename);
      if d > 0 then ParseNat(filename[..d]) else 0
  }

  /** Without a tag, a file named after its number gets that number back. */
  lemma {:induction false} TrackNumberFromName(k: nat, rest: string)
    requires |rest| == 0 || !IsDigit(rest[0])
    ensures TrackNumberFor(None, NatToString(k) + rest) == k
  {
    var name := NatToString(k) + rest;
    DigitRunOfRendered(NatToString(k), rest);
    assert name[..|NatToString(k)|] == NatToString(k);
    ParseNatToString(k);
  }

  /** One candidate with its probe outcome: `None` when ffprobe or stat failed. */
  datatype Probed = Probed(filename: string, id3Track: Option<int>, duration: Option<real>)

  datatype ScannedTrack = ScannedTrack(filename: string, path: string, duration: real, format: string, trackNumber: int)

  function ScannedOf(relativePath: string, f: Probed): ScannedTrack
    requires f.duration.Some?
  {
    var ext := Extname(f.filename);
    ScannedTrack(f.filename, JoinPath(relativePath, f.filename), f.duration.value,
                 if |ext| > 0 then ext[1..] else "", TrackNumberFor(f.id3Track, f.filename))
  }

  /** The reference track list: the successfully probed files, in order. */
  function ValidTracks(relativePath: string, files: seq<Probed>): (r: seq<ScannedTrack>)
    ensures |r| <= |files|
    ensures |r| == 0 <==> forall i :: 0 <= i < |files| ==> files[i].duration.None?
  {
    if |files| == 0 then []
    else
      var init := ValidTracks(relativePath, files[..|files| - 1]);
      var last := files[|files| - 1];
      assert forall i :: 0 <= i < |files| - 1 ==> files[..|files| - 1][i] == files[i];
      if last.duration.Some? then init + [ScannedOf(relativePath, last)] else init
  }

  lemma {:induction false} ValidTracksSnoc(relativePath: string, files: seq<Probed>, f: Probed)
    ensures ValidTracks(relativePath, files + [f]) ==
      if f.duration.Some? then ValidTracks(relativePath, files) + [ScannedOf(relativePath, f)]
      else ValidTracks(relativePath, files)
  {
    assert (files + [f])[..|files|] == files;
  }

  function TrackDuration(t: ScannedTrack): real
  {
    t.duration
  }

  datatype ScanResult = ScanResult(tracks: seq<ScannedTrack>, totalDuration: real)

  /**
   * Step 5 of `scanFolder`: keep every file whose probe succeeded and add up the
   * durations; with no valid file the book is dropped (`None`).
   */
  method ProcessTracks(relativePath: string, files: seq<Probed>) returns (r: Option<ScanResult>)
    ensures r.None? <==> forall i :: 0 <= i < |files| ==> files[i].duration.None?
    ensures r.Some? ==> r.value.tracks == ValidTracks(relativePath, files)
    ensures r.Some? ==> r.value.totalDuration == SumOf(r.value.tracks, TrackDuration)
  {
    var valid: seq<ScannedTrack> := [];
    var total := 0.0;
    for i := 0 to |files|
      invariant valid == ValidTracks(relativePath, files[..i])
      invariant total == SumOf(valid, TrackDuration)
    {
      ProcessStep(relativePath, files, i, valid);
      if files[i].duration.Some? {
        var t := ScannedOf(relativePath, files[i]);
        valid := valid + [t];
        total := total + t.duration;
      }
    }
    assert files[..|files|] == files;
    if |valid| > 0 {
      r := Some(ScanResult(valid, total));
    } else {
      r := None;
    }
  }

  /** One file of the loop: a probed file adds its track and its duration, any other file nothing. */
  lemma {:induction false} ProcessStep(relativePath: string, files: seq<Probed>, i: nat, valid: seq<ScannedTrack>)
    requires i < |files| && valid == ValidTracks(relativePath, files[..i])
    ensures files[i].duration.None? ==> ValidTracks(relativePath, files[..i + 1]) == valid
    ensures files[i].duration.Some? ==>
      var t := ScannedOf(relativePath, files[i]);
      && ValidTracks(relativePath, files[..i + 1]) == valid + [t]
      && SumOf(valid + [t], TrackDuration) == SumOf(valid, TrackDuration) + t.duration
  {
    assert files[..i + 1] == files[..i] + [files[i]];
    ValidTracksSnoc(relativePath, files[..i], files[i]);
    if files[i].duration.Some? {
      var t := ScannedOf(relativePath, files[i]);
      assert SumOf(valid + [t], TrackDuration) == SumOf(valid, TrackDuration) + t.duration by {
        SumOfAppend(valid, [t], TrackDuration);
        SumOfSingleton(t, TrackDuration);
      }
    }
  }

  /** With non-negative probe durations the total is non-negative and bounds every track. */
  lemma {:induction false} TotalBoundsTracks(relativePath: string, files: seq<Probed>)
    requires forall i :: 0 <= i < |files| && files[i].duration.Some? ==> files[i].duration.value >= 0.0
    ensures var ts := ValidTracks(relativePath, files);
      forall k :: 0 <= k < |ts| ==> 0.0 <= ts[k].duration <= SumOf(ts, TrackDuration)
  {
    var ts := ValidTracks(relativePath, files);
    ValidTracksFrom(relativePath, files);
    assert forall t :: t in ts ==> TrackDuration(t) >= 0.0;
    forall k | 0 <= k < |ts|
      ensures 0.0 <= ts[k].duration <= SumOf(ts, TrackDuration)
    {
      SumOfBoundsElement(ts, TrackDuration, k);
    }
  }

  /** Every valid track comes from a file whose probe succeeded, with that duration. */
  lemma {:induction false} ValidTracksFrom(relativePath: string, files: seq<Probed>)
    ensures forall t :: t in ValidTracks(relativePath, files) ==>
      exists i :: 0 <= i < |files| && files[i].duration == Some(t.duration)
  {
    if |files| > 0 {
      var init := files[..|files| - 1];
      ValidTracksFrom(relativePath, init);
      forall t | t in ValidTracks(relativePath, files)
        ensures exists i :: 0 <= i < |files| && files[i].duration == Some(t.duration)
      {
        if t in ValidTracks(relativePath, init) {
          var i :| 0 <= i < |init| && init[i].duration == Some(t.duration);
          assert files[i] == init[i];
        } else {
          assert files[|files| - 1].duration == Some(t.duration);
        }
      }
    }
  }
}
