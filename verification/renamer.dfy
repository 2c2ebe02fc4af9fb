/**
 * The rename planner of server/services/renamer.js: a file-name sanitiser, the
 * `{Key}` template expander, the per-file rename plan with case-insensitive
 * conflict marking, and the choice of which plan items are carried out. The
 * filesystem calls (`mkdirSync`, `renameSync`) are left to the caller; the
 * model returns the pairs that would be renamed.
 */
module Renamer {
  import opened Wrappers
  import opened Text
  import opened FileNames
  import Seqs

  // ---------------------------------------------------------------------
  // sanitize

  /** The characters `/[<>:"/\\|?*]/g` removes. */
  const Unsafe: set<char> := {'<', '>', ':', '"', '/', '\\', '|', '?', '*'}

  /** Every white-space character is a plain ' ' and no two white-space characters are adjacent. */
  predicate Collapsed(s: string)
  {
    && (forall i :: 0 <= i < |s| && IsSpace(s[i]) ==> s[i] == ' ')
    && (forall i :: 0 <= i < |s| - 1 && IsSpace(s[i]) ==> !IsSpace(s[i + 1]))
  }

  /** `replace(/\s+/g, ' ')`: each maximal white-space run becomes one ' '. */
  function CollapseSpaces(s: string): (r: string)
    ensures Collapsed(r)
    ensures |s| > 0 <==> |r| > 0
    ensures |s| > 0 && !IsSpace(s[0]) ==> r[0] == s[0]
    ensures |s| > 0 && IsSpace(s[0]) ==> r[0] == ' '
    ensures forall c :: c in r ==> c in s || c == ' '
    decreases |s|
  {
    if |s| == 0 then ""
    else if IsSpace(s[0]) then
      var rest := TrimStart(s[1..]);
      var tail := CollapseSpaces(rest);
      assert forall c :: c in rest ==> c in s;
      CollapsedCons(' ', tail);
      " " + tail
    else
      var tail := CollapseSpaces(s[1..]);
      assert forall c :: c in s[1..] ==> c in s;
      CollapsedCons(s[0], tail);
      [s[0]] + tail
  }

  /** A plain ' ' or a non-space character in front of a collapsed string that starts with a non-space keeps it collapsed. */
  lemma {:induction false} CollapsedCons(c: char, tail: string)
    requires Collapsed(tail)
    requires c == ' ' || !IsSpace(c)
    requires IsSpace(c) ==> |tail| == 0 || !IsSpace(tail[0])
    ensures Collapsed([c] + tail)
  {
    var r := [c] + tail;
    forall i | 0 <= i < |r| && IsSpace(r[i])
      ensures r[i] == ' '
    {
      if i > 0 {
        assert r[i] == tail[i - 1];
      }
    }
    forall i | 0 <= i < |r| - 1 && IsSpace(r[i])
      ensures !IsSpace(r[i + 1])
    {
      assert r[i + 1] == tail[i];
      if i > 0 {
        assert r[i] == tail[i - 1];
      }
    }
  }

  /** On a string that is already collapsed, collapsing changes nothing. */
  lemma {:induction false} CollapseNoop(s: string)
    requires Collapsed(s)
    ensures CollapseSpaces(s) == s
    decreases |s|
  {
    if |s| > 0 {
      assert Collapsed(s[1..]);
      if IsSpace(s[0]) {
        assert |s| > 1 ==> !IsSpace(s[1]);
        assert TrimStart(s[1..]) == s[1..];
      }
      CollapseNoop(s[1..]);
    }
  }

  /** A piece of a collapsed string is collapsed. */
  lemma {:induction false} CollapsedSlice(s: string, a: nat, b: nat)
    requires Collapsed(s) && a <= b <= |s|
    ensures Collapsed(s[a..b])
  {
    var t := s[a..b];
    forall i | 0 <= i < |t| - 1 && IsSpace(t[i])
      ensures !IsSpace(t[i + 1])
    {
      assert t[i] == s[a + i] && t[i + 1] == s[a + i + 1];
    }
  }

  /** Trimming keeps a string collapsed. */
  lemma {:induction false} TrimKeepsCollapsed(s: string)
    requires Collapsed(s)
    ensures Collapsed(Trim(s))
  {
    var u := TrimStart(s);
    CollapsedSlice(s, |s| - |u|, |s|);
    var r := TrimEnd(u);
    CollapsedSlice(u, 0, |r|);
  }

  /** Both ends of the trimmed string are pieces of the input. */
  lemma {:induction false} TrimChars(s: string)
    ensures forall c :: c in Trim(s) ==> c in s
  {
    var u := TrimStart(s);
    assert forall c :: c in u ==> c in s;
    assert forall c :: c in TrimEnd(u) ==> c in u;
  }

  /** A sanitised name: no unsafe character, collapsed white space, nothing to trim. */
  predicate Sanitized(s: string)
  {
    (forall i :: 0 <= i < |s| ==> s[i] !in Unsafe) && Collapsed(s) && Trimmed(s)
  }

  /** `sanitize`: drop `<>:"/\|?*`, collapse white-space runs to ' ', trim. */
  function Sanitize(v: string): (r: string)
    ensures Sanitized(r)
    ensures |r| <= |v|
  {
    var kept := RemoveChars(v, Unsafe);
    CleanAfterRemoval(kept);
    Trim(CollapseSpaces(kept))
  }

  /** Collapsing and trimming a string free of unsafe characters yields a sanitised one, no longer. */
  lemma {:induction false} CleanAfterRemoval(kept: string)
    requires forall i :: 0 <= i < |kept| ==> kept[i] !in Unsafe
    ensures Sanitized(Trim(CollapseSpaces(kept)))
    ensures |Trim(CollapseSpaces(kept))| <= |kept|
  {
    var collapsed := CollapseSpaces(kept);
    var r := Trim(collapsed);
    assert |r| <= |kept| by { CollapseShrinks(kept); }
    assert Collapsed(r) by { TrimKeepsCollapsed(collapsed); }
    assert forall i :: 0 <= i < |r| ==> r[i] !in Unsafe by {
      assert ' ' !in Unsafe;
      CollapseAvoids(kept, Unsafe);
      TrimAvoids(collapsed, Unsafe);
    }
  }

  /** Collapsing introduces no character of `bad` when ' ' is not in `bad`. */
  lemma {:induction false} CollapseAvoids(s: string, bad: set<char>)
    requires ' ' !in bad
    requires forall i :: 0 <= i < |s| ==> s[i] !in bad
    ensures forall i :: 0 <= i < |CollapseSpaces(s)| ==> CollapseSpaces(s)[i] !in bad
  {
    var r := CollapseSpaces(s);
    forall i | 0 <= i < |r| ensures r[i] !in bad {
      assert r[i] in r;
      if r[i] != ' ' {
        var j :| 0 <= j < |s| && s[j] == r[i];
      }
    }
  }

  /** Trimming introduces no character of `bad`. */
  lemma {:induction false} TrimAvoids(s: string, bad: set<char>)
    requires forall i :: 0 <= i < |s| ==> s[i] !in bad
    ensures forall i :: 0 <= i < |Trim(s)| ==> Trim(s)[i] !in bad
  {
    var u := TrimStart(s);
    assert forall i :: 0 <= i < |u| ==> u[i] == s[|s| - |u| + i];
    var r := TrimEnd(u);
    assert forall i :: 0 <= i < |r| ==> r[i] == u[i];
  }

  /** Collapsing never lengthens a string. */
  lemma {:induction false} CollapseShrinks(s: string)
    ensures |CollapseSpaces(s)| <= |s|
    decreases |s|
  {
    if |s| > 0 {
      if IsSpace(s[0]) {
        CollapseShrinks(TrimStart(s[1..]));
      } else {
        CollapseShrinks(s[1..]);
      }
    }
  }

  /** A sanitised name is its own sanitisation. */
  lemma {:induction false} SanitizeFixpoint(s: string)
    requires Sanitized(s)
    ensures Sanitize(s) == s
  {
    RemoveCharsNoop(s, Unsafe);
    CollapseNoop(s);
  }

  lemma {:induction false} SanitizeKeeps(s: string)
    ensures Sanitized(s) ==> Sanitize(s) == s
  {
    if Sanitized(s) {
      SanitizeFixpoint(s);
    }
  }

  /** `sanitize` is idempotent. */
  lemma {:induction false} SanitizeIdempotent(v: string)
    ensures Sanitize(Sanitize(v)) == Sanitize(v)
  {
    SanitizeFixpoint(Sanitize(v));
  }

  // ---------------------------------------------------------------------
  // formatTemplate

  /** Length of the run of `\w` characters at the start of `s`. */
  function WordRunLength(s: string): (n: nat)
    ensures n <= |s|
    ensures forall i :: 0 <= i < n ==> IsWordChar(s[i])
    ensures n < |s| ==> !IsWordChar(s[n])
  {
    if |s| > 0 && IsWordChar(s[0]) then 1 + WordRunLength(s[1..]) else 0
  }

  predicate WordKey(k: string)
  {
    |k| > 0 && forall i :: 0 <= i < |k| ==> IsWordChar(k[i])
  }

  /** A payload: the keys whose value is neither undefined nor null. */
  type Payload = map<string, string>

  /** The replacement for `{key}`: the sanitised value, '' when the key is absent. */
  function Substitute(p: Payload, key: string): (r: string)
    ensures Sanitized(r)
    ensures key !in p ==> r == ""
    ensures key in p && Sanitized(p[key]) ==> r == p[key]
  {
    if key in p then
      SanitizeKeeps(p[key]);
      Sanitize(p[key])
    else ""
  }

  /** `template.replace(/\{(\w+)\}/g, …)`, scanning left to right. */
  function Expand(t: string, p: Payload): string
    decreases |t|
  {
    if |t| == 0 then ""
    else if t[0] == '{' then
      var n := WordRunLength(t[1..]);
      if n >= 1 && n + 1 < |t| && t[n + 1] == '}' then
        Substitute(p, t[1..n + 1]) + Expand(t[n + 2..], p)
      else "{" + Expand(t[1..], p)
    else [t[0]] + Expand(t[1..], p)
  }

  /** A character other than '{' is copied as is. */
  lemma {:induction false} ExpandHead(t: string, p: Payload)
    requires |t| > 0 && t[0] != '{'
    ensures Expand(t, p) == [t[0]] + Expand(t[1..], p)
  {
  }

  /** A well-formed `{key}` at the front is replaced by the key's value. */
  lemma {:induction false} ExpandAtPlaceholder(t: string, p: Payload, n: nat)
    requires |t| > 0 && t[0] == '{' && n == WordRunLength(t[1..])
    requires n >= 1 && n + 1 < |t| && t[n + 1] == '}'
    ensures Expand(t, p) == Substitute(p, t[1..n + 1]) + Expand(t[n + 2..], p)
  {
  }

  /** Text before the first '{' is copied unchanged. */
  lemma {:induction false} ExpandLiteral(a: string, rest: string, p: Payload)
    requires '{' !in a
    ensures Expand(a + rest, p) == a + Expand(rest, p)
    decreases |a|
  {
    if |a| > 0 {
      var t := a + rest;
      assert Expand(t, p) == [a[0]] + Expand(t[1..], p) by {
        assert a[0] in a;
        ExpandHead(t, p);
      }
      assert Expand(t[1..], p) == a[1..] + Expand(rest, p) by {
        assert t[1..] == a[1..] + rest;
        assert '{' !in a[1..] by { assert forall c :: c in a[1..] ==> c in a; }
        ExpandLiteral(a[1..], rest, p);
      }
      assert a == [a[0]] + a[1..];
    } else {
      assert a + rest == rest;
    }
  }

  /** A `{key}` placeholder becomes the key's sanitised value. */
  lemma {:induction false} ExpandPlaceholder(key: string, rest: string, p: Payload)
    requires WordKey(key)
    ensures Expand("{" + key + "}" + rest, p) == Substitute(p, key) + Expand(rest, p)
  {
    var t := "{" + key + "}" + rest;
    assert t[1..] == key + ("}" + rest);
    var n := WordRunLength(t[1..]);
    assert n == |key| by {
      WordRunOf(key, "}" + rest);
    }
    assert t[1..n + 1] == key;
    assert t[n + 2..] == rest;
  }

  lemma {:induction false} WordRunOf(k: string, rest: string)
    requires forall i :: 0 <= i < |k| ==> IsWordChar(k[i])
    requires |rest| > 0 && !IsWordChar(rest[0])
    ensures WordRunLength(k + rest) == |k|
    decreases |k|
  {
    if |k| > 0 {
      assert (k + rest)[1..] == k[1..] + rest;
      WordRunOf(k[1..], rest);
    } else {
      assert k + rest == rest;
    }
  }

  /**
   * Substituted values never contribute a '/': the expansion has exactly the
   * template's path separators, so directory structure comes from the template.
   */
  lemma {:induction false} ExpandSlashes(t: string, p: Payload)
    ensures CountChar(Expand(t, p), '/') == CountChar(t, '/')
    decreases |t|
  {
    if |t| > 0 {
      if t[0] == '{' {
        var n := WordRunLength(t[1..]);
        if n >= 1 && n + 1 < |t| && t[n + 1] == '}' {
          ExpandSlashes(t[n + 2..], p);
          PlaceholderSlashes(t, p, n);
        } else {
          CountCharAppend("{", Expand(t[1..], p), '/');
          ExpandSlashes(t[1..], p);
        }
      } else {
        CountCharAppend([t[0]], Expand(t[1..], p), '/');
        ExpandSlashes(t[1..], p);
      }
    }
  }

  /** One placeholder step of ExpandSlashes: neither the placeholder nor its value holds a '/'. */
  lemma {:induction false} PlaceholderSlashes(t: string, p: Payload, n: nat)
    requires |t| > 0 && t[0] == '{' && n == WordRunLength(t[1..])
    requires n >= 1 && n + 1 < |t| && t[n + 1] == '}'
    requires CountChar(Expand(t[n + 2..], p), '/') == CountChar(t[n + 2..], '/')
    ensures CountChar(Expand(t, p), '/') == CountChar(t, '/')
  {
    ExpandedPlaceholderSlashes(t, p, n);
    PlaceholderSlashCount(t, n);
  }

  /** Expanding a front placeholder adds no '/' to what the rest expands to. */
  lemma {:induction false} ExpandedPlaceholderSlashes(t: string, p: Payload, n: nat)
    requires |t| > 0 && t[0] == '{' && n == WordRunLength(t[1..])
    requires n >= 1 && n + 1 < |t| && t[n + 1] == '}'
    ensures CountChar(Expand(t, p), '/') == CountChar(Expand(t[n + 2..], p), '/')
  {
    var v := Substitute(p, t[1..n + 1]);
    ExpandAtPlaceholder(t, p, n);
    SubstituteNoSlash(p, t[1..n + 1]);
    CountCharAppend(v, Expand(t[n + 2..], p), '/');
  }

  /** A front placeholder holds no '/'. */
  lemma {:induction false} PlaceholderSlashCount(t: string, n: nat)
    requires |t| > 0 && t[0] == '{' && n == WordRunLength(t[1..])
    requires n + 1 < |t| && t[n + 1] == '}'
    ensures CountChar(t, '/') == CountChar(t[n + 2..], '/')
  {
    var head := t[..n + 2];
    var rest := t[n + 2..];
    PlaceholderNoSlash(t, n);
    assert t == head + rest;
    CountCharAppend(head, rest, '/');
  }

  lemma {:induction false} SubstituteNoSlash(p: Payload, key: string)
    ensures CountChar(Substitute(p, key), '/') == 0
  {
    var v := Substitute(p, key);
    assert '/' !in v by {
      forall i | 0 <= i < |v| ensures v[i] != '/' { assert v[i] !in Unsafe; }
    }
    CountCharAbsent(v, '/');
  }

  lemma {:induction false} PlaceholderNoSlash(t: string, n: nat)
    requires |t| > 0 && t[0] == '{' && n == WordRunLength(t[1..])
    requires n + 1 < |t| && t[n + 1] == '}'
    ensures CountChar(t[..n + 2], '/') == 0
  {
    var head := t[..n + 2];
    assert '/' !in head by {
      forall i | 0 <= i < |head| ensures head[i] != '/' {
        if 1 <= i <= n { assert head[i] == t[1..][i - 1]; }
      }
    }
    CountCharAbsent(head, '/');
  }

  // ---------------------------------------------------------------------
  // buildRenamePlan

  datatype RenameBook = RenameBook(
    title: Option<string>, author: Option<string>, narrator: Option<string>,
    series: Option<string>, seriesIndex: Option<string>, folderPath: string)

  /** `trackNumber` is `None` for a missing tag; 0 is falsy as well. */
  datatype AudioFile = AudioFile(id: int, filename: string, path: string, trackNumber: Option<int>)

  datatype PlanItem = PlanItem(fileId: int, from: string, to: string, conflict: bool)

  /** `file.trackNumber || idx + 1`. */
  function TrackNumberOf(f: AudioFile, idx: nat): (n: int)
    ensures f.trackNumber.Some? && f.trackNumber.value != 0 ==> n == f.trackNumber.value
    ensures f.trackNumber.None? || f.trackNumber.value == 0 ==> n == idx + 1
  {
    if f.trackNumber.Some? && f.trackNumber.value != 0 then f.trackNumber.value else idx + 1
  }

  /** `trackNumber.toString().padStart(2, '0')`. */
  function TrackLabel(n: int): (s: string)
    ensures |s| >= 2
    ensures n >= 0 ==> AllDigits(s) && ParseNat(s) == n
  {
    var raw := IntToString(n);
    if n >= 0 then
      ParseNatToString(n);
      ParseNatPadded(NatToString(n), 2);
      PadStart(raw, 2, '0')
    else PadStart(raw, 2, '0')
  }

  function AddField(m: Payload, key: string, v: Option<string>): Payload
  {
    if v.Some? then m[key := v.value] else m
  }

  /** The payload of one file; absent book fields are left out (undefined or null). */
  function MakePayload(book: RenameBook, track: string, safeName: string, ext: string): Payload
  {
    var m := map["TrackNumber" := track, "SafeName" := safeName, "Ext" := ext];
    var m := AddField(m, "Title", book.title);
    var m := AddField(m, "Author", book.author);
    var m := AddField(m, "Narrator", book.narrator);
    var m := AddField(m, "Series", book.series);
    AddField(m, "SeriesIndex", book.seriesIndex)
  }

  /** `ext.replace('.', '')` for an `extname` result: its first character is the dot. */
  function ExtBody(ext: string): (b: string)
    ensures ext != "" && ext[0] == '.' ==> ext == "." + b
  {
    if |ext| > 0 && ext[0] == '.' then ext[1..] else RemoveFirst(ext, '.')
  }

  function RemoveFirst(s: string, c: char): string
  {
    if |s| == 0 then "" else if s[0] == c then s[1..] else [s[0]] + RemoveFirst(s[1..], c)
  }

  /** Appends ".Ext" (".mp3" without an extension) unless the target already ends in ".Ext". */
  function Resolve(relative: string, ext: string): (r: string)
    ensures StartsWith(r, relative)
    ensures EndsWith(r, "." + ext) || EndsWith(r, ".mp3")
    ensures EndsWith(relative, "." + ext) ==> r == relative
  {
    if EndsWith(relative, "." + ext) then relative
    else
      var suffix := "." + (if ext == "" then "mp3" else ext);
      var r := relative + suffix;
      assert r[..|relative|] == relative;
      assert r[|r| - |suffix|..] == suffix;
      r
  }

  /** Where the `idx`-th file is to be moved. */
  function TargetFor(book: RenameBook, f: AudioFile, idx: nat, template: string, cleanNames: bool): string
  {
    var track := TrackLabel(TrackNumberOf(f, idx));
    var ext := Extname(f.filename);
    var stem := Stem(f.filename);
    var safeName := if cleanNames then Sanitize(stem) else stem;
    var extBody := ExtBody(ext);
    var expanded := Expand(template, MakePayload(book, track, safeName, extBody));
    var relative := if expanded == "" then track + "-" + safeName else expanded;
    JoinPath(book.folderPath, Resolve(relative, extBody))
  }

  /** Every target lies under the book folder and carries the file's extension (or ".mp3"). */
  lemma {:induction false} TargetShape(book: RenameBook, f: AudioFile, idx: nat, template: string, cleanNames: bool)
    ensures var to := TargetFor(book, f, idx, template, cleanNames);
      var extBody := ExtBody(Extname(f.filename));
      (EndsWith(to, "." + extBody) || EndsWith(to, ".mp3"))
      && (book.folderPath != "" ==> StartsWith(to, book.folderPath))
  {
    var track := TrackLabel(TrackNumberOf(f, idx));
    var ext := Extname(f.filename);
    var stem := Stem(f.filename);
    var safeName := if cleanNames then Sanitize(stem) else stem;
    var extBody := ExtBody(ext);
    var expanded := Expand(template, MakePayload(book, track, safeName, extBody));
    var relative := if expanded == "" then track + "-" + safeName else expanded;
    var res := Resolve(relative, extBody);
    var to := JoinPath(book.folderPath, res);
    EndsWithTrans(to, res, "." + extBody);
    EndsWithTrans(to, res, ".mp3");
    if book.folderPath != "" {
      assert to[..|book.folderPath|] == book.folderPath;
    }
  }

  /** The plan before intra-plan conflicts: one item per file, flagged when the target is the source. */
  function Draft(book: RenameBook, files: seq<AudioFile>, template: string, cleanNames: bool): (d: seq<PlanItem>)
    ensures |d| == |files|
    ensures forall i :: 0 <= i < |files| ==>
      var to := TargetFor(book, files[i], i, template, cleanNames);
      d[i] == PlanItem(files[i].id, files[i].path, to, files[i].path == to)
  {
    seq(|files|, i requires 0 <= i < |files| =>
      var to := TargetFor(book, files[i], i, template, cleanNames);
      PlanItem(files[i].id, files[i].path, to, files[i].path == to))
  }

  /** An earlier item has the same target up to ASCII case. */
  predicate Duplicate(items: seq<PlanItem>, i: nat)
    requires i < |items|
  {
    exists j :: 0 <= j < i && Lower(items[j].to) == Lower(items[i].to)
  }

  /** The reference outcome of the second pass: flagged when the target is the source or a duplicate. */
  function Marked(items: seq<PlanItem>): seq<PlanItem>
  {
    seq(|items|, i requires 0 <= i < |items| => items[i].(conflict := items[i].conflict || Duplicate(items, i)))
  }

  /** The second pass of `buildRenamePlan`: one sweep with a set of lower-cased targets seen so far. */
  method MarkConflicts(items: seq<PlanItem>) returns (r: seq<PlanItem>)
    ensures r == Marked(items)
  {
    var seen: set<string> := {};
    r := [];
    for i := 0 to |items|
      invariant |r| == i
      invariant seen == set j | 0 <= j < i :: Lower(items[j].to)
      invariant forall k :: 0 <= k < i ==> r[k] == items[k].(conflict := items[k].conflict || Duplicate(items, k))
    {
      var key := Lower(items[i].to);
      assert key in seen <==> Duplicate(items, i);
      r := r + [items[i].(conflict := items[i].conflict || key in seen)];
      seen := seen + {key};
    }
  }

  /** The plan `buildRenamePlan` returns. */
  function Plan(book: RenameBook, files: seq<AudioFile>, template: string, cleanNames: bool): (plan: seq<PlanItem>)
    ensures |plan| == |files|
    ensures forall i :: 0 <= i < |files| ==>
      && plan[i].fileId == files[i].id
      && plan[i].from == files[i].path
      && plan[i].to == TargetFor(book, files[i], i, template, cleanNames)
    ensures forall i :: 0 <= i < |plan| ==>
      (plan[i].conflict <==> plan[i].to == plan[i].from || Duplicate(plan, i))
  {
    var d := Draft(book, files, template, cleanNames);
    assert forall i :: 0 <= i < |d| ==> (Duplicate(Marked(d), i) <==> Duplicate(d, i)) by {
      forall i | 0 <= i < |d| ensures Duplicate(Marked(d), i) <==> Duplicate(d, i) {
        MarkedDuplicate(d, i);
      }
    }
    Marked(d)
  }

  /** `buildRenamePlan`. */
  method BuildRenamePlan(book: RenameBook, files: seq<AudioFile>, template: string, cleanNames: bool)
    returns (plan: seq<PlanItem>)
    ensures plan == Plan(book, files, template, cleanNames)
    ensures |plan| == |files|
    ensures forall i :: 0 <= i < |files| ==>
      && plan[i].fileId == files[i].id
      && plan[i].from == files[i].path
      && plan[i].to == TargetFor(book, files[i], i, template, cleanNames)
    ensures forall i :: 0 <= i < |plan| ==>
      (plan[i].conflict <==> plan[i].to == plan[i].from || Duplicate(plan, i))
  {
    plan := MarkConflicts(Draft(book, files, template, cleanNames));
  }

  /** Marking changes no target, so it keeps every duplicate and adds none. */
  lemma {:induction false} MarkedDuplicate(items: seq<PlanItem>, i: nat)
    requires i < |items|
    ensures Duplicate(Marked(items), i) <==> Duplicate(items, i)
  {
    var m := Marked(items);
    if Duplicate(items, i) {
      var j :| 0 <= j < i && Lower(items[j].to) == Lower(items[i].to);
      assert m[j].to == items[j].to;
    }
    if Duplicate(m, i) {
      var j :| 0 <= j < i && Lower(m[j].to) == Lower(m[i].to);
      assert m[j].to == items[j].to;
    }
  }

  /** Among items that were not flagged, no two share a target up to ASCII case. */
  predicate ConflictFree(plan: seq<PlanItem>)
  {
    forall i, j :: 0 <= j < i < |plan| && !plan[i].conflict ==> Lower(plan[j].to) != Lower(plan[i].to)
  }

  /** Marking leaves no unflagged item whose target an earlier item already has. */
  lemma {:induction false} MarkedConflictFree(items: seq<PlanItem>)
    ensures ConflictFree(Marked(items))
  {
    var m := Marked(items);
    forall i, j | 0 <= j < i < |m| && !m[i].conflict
      ensures Lower(m[j].to) != Lower(m[i].to)
    {
      assert !Duplicate(items, i);
      assert m[j].to == items[j].to;
    }
  }

  /** The first of two items with the same target is not flagged for the duplication. */
  lemma {:induction false} FirstOfDuplicateKept(book: RenameBook, files: seq<AudioFile>, template: string, cleanNames: bool)
    requires |files| == 2
    requires files[0].path != TargetFor(book, files[0], 0, template, cleanNames)
    requires TargetFor(book, files[0], 0, template, cleanNames) == TargetFor(book, files[1], 1, template, cleanNames)
    ensures var plan := Plan(book, files, template, cleanNames);
      !plan[0].conflict && plan[1].conflict
  {
    var d := Draft(book, files, template, cleanNames);
    assert !Duplicate(d, 0);
    assert Duplicate(d, 1) by { assert Lower(d[0].to) == Lower(d[1].to); }
  }

  // ---------------------------------------------------------------------
  // applyRenamePlan

  datatype Move = Move(from: string, to: string)

  /** The items `applyRenamePlan` carries out: those not flagged as conflicts. */
  predicate Carried(p: PlanItem)
  {
    !p.conflict
  }

  /** `applyRenamePlan`: the moves carried out, in plan order, skipping flagged items. */
  function ApplyRenamePlan(plan: seq<PlanItem>): (moves: seq<Move>)
    ensures |moves| <= |plan|
    ensures forall m :: m in moves <==> exists p :: p in plan && !p.conflict && m == Move(p.from, p.to)
    decreases |plan|
  {
    if |plan| == 0 then []
    else
      var rest := ApplyRenamePlan(plan[1..]);
      assert forall p :: p in plan[1..] ==> p in plan;
      assert forall p :: p in plan ==> p == plan[0] || p in plan[1..];
      if plan[0].conflict then rest else [Move(plan[0].from, plan[0].to)] + rest
  }

  /** `moves` renames `items` one for one, in order, each from its source to its target. */
  predicate MovesFollow(moves: seq<Move>, items: seq<PlanItem>)
  {
    |moves| == |items| && forall i :: 0 <= i < |items| ==> moves[i] == Move(items[i].from, items[i].to)
  }

  /** Prepending an item and its move keeps the correspondence. */
  lemma {:induction false} MovesFollowCons(h: PlanItem, items: seq<PlanItem>, moves: seq<Move>)
    requires MovesFollow(moves, items)
    ensures MovesFollow([Move(h.from, h.to)] + moves, [h] + items)
  {
    var m, f := [Move(h.from, h.to)] + moves, [h] + items;
    forall i | 1 <= i < |f|
      ensures m[i] == Move(f[i].from, f[i].to)
    {
      assert f[i] == items[i - 1] && m[i] == moves[i - 1];
    }
  }

  /**
   * Order and multiplicity: one move per unflagged item, in plan order, each
   * from the item's source to its target.
   */
  lemma {:induction false} AppliedInPlanOrder(plan: seq<PlanItem>)
    ensures MovesFollow(ApplyRenamePlan(plan), Seqs.Filter(plan, Carried))
    decreases |plan|
  {
    if |plan| > 0 {
      AppliedInPlanOrder(plan[1..]);
      Seqs.FilterUnfold(plan, Carried);
      if !plan[0].conflict {
        MovesFollowCons(plan[0], Seqs.Filter(plan[1..], Carried), ApplyRenamePlan(plan[1..]));
      } else {
        assert Seqs.Filter(plan, Carried) == Seqs.Filter(plan[1..], Carried);
      }
    }
  }

  /** No two moves share a target up to ASCII case. */
  predicate DistinctTargets(moves: seq<Move>)
  {
    forall i, j :: 0 <= i < j < |moves| ==> Lower(moves[i].to) != Lower(moves[j].to)
  }

  /** Of a conflict-free plan, the applied moves have pairwise distinct targets up to ASCII case. */
  lemma {:induction false} AppliedTargetsDistinct(plan: seq<PlanItem>)
    requires ConflictFree(plan)
    ensures DistinctTargets(ApplyRenamePlan(plan))
    decreases |plan|
  {
    if |plan| > 0 {
      var rest := ApplyRenamePlan(plan[1..]);
      assert ConflictFree(plan[1..]) by {
        forall i, j | 0 <= j < i < |plan[1..]| && !plan[1..][i].conflict
          ensures Lower(plan[1..][j].to) != Lower(plan[1..][i].to)
        {
          assert plan[1..][i] == plan[i + 1] && plan[1..][j] == plan[j + 1];
        }
      }
      AppliedTargetsDistinct(plan[1..]);
      if !plan[0].conflict {
        var moves := [Move(plan[0].from, plan[0].to)] + rest;
        assert ApplyRenamePlan(plan) == moves;
        forall i, j | 1 <= i < j < |moves|
          ensures Lower(moves[i].to) != Lower(moves[j].to)
        {
          assert moves[i] == rest[i - 1] && moves[j] == rest[j - 1];
        }
        forall j | 1 <= j < |moves|
          ensures Lower(moves[0].to) != Lower(moves[j].to)
        {
          assert moves[j] in rest;
          var p :| p in plan[1..] && !p.conflict && moves[j] == Move(p.from, p.to);
          var k :| 0 <= k < |plan[1..]| && plan[1..][k] == p;
          assert plan[k + 1] == p;
        }
      }
    }
  }

  /** The whole pipeline: a built plan never moves two files onto one target, nor a file onto itself. */
  lemma {:induction false} AppliedMovesDistinct(book: RenameBook, files: seq<AudioFile>, template: string, cleanNames: bool)
    ensures DistinctTargets(ApplyRenamePlan(Plan(book, files, template, cleanNames)))
    ensures forall m :: m in ApplyRenamePlan(Plan(book, files, template, cleanNames)) ==> m.from != m.to
  {
    var d := Draft(book, files, template, cleanNames);
    MarkedConflictFree(d);
    AppliedTargetsDistinct(Marked(d));
  }

  /**
   * Conflict marking compares targets only with each other: a target that is a
   * later item's source is not flagged, so the moves of such a chain are both
   * carried out, the first onto the file the second then moves.
   */
  lemma {:induction false} ChainedMovesNotFlagged()
    ensures var items := [PlanItem(1, "01.mp3", "02.mp3", false), PlanItem(2, "02.mp3", "03.mp3", false)];
      ApplyRenamePlan(Marked(items)) == [Move("01.mp3", "02.mp3"), Move("02.mp3", "03.mp3")]
  {
    var items := [PlanItem(1, "01.mp3", "02.mp3", false), PlanItem(2, "02.mp3", "03.mp3", false)];
    assert Lower("02.mp3") != Lower("03.mp3") by {
      assert Lower("02.mp3")[1] == '2' && Lower("03.mp3")[1] == '3';
    }
    assert !Duplicate(items, 0) && !Duplicate(items, 1);
    assert Marked(items) == items;
  }
}
