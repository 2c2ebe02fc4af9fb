/**
 * File-name string logic shared by the player, the browser-side importer and the
 * server: `path.basename` / `path.extname` on '/'-separated paths, and the three
 * regular-expression rewrites used to turn a file name into a title:
 * `/\.[^/.]+$/` (drop the extension), `/^\d+[\s.-]+/` (drop a track-number
 * prefix) and `/\[.*?\]/g` (drop bracketed segments).
 */
module FileNames {
  import opened Text

  /** Index of the last occurrence of `c` (`lastIndexOf`), or -1. */
  function LastIndexOf(s: string, c: char): (k: int)
    ensures -1 <= k < |s|
    ensures k >= 0 ==> s[k] == c && c !in s[k + 1..]
    ensures k == -1 ==> c !in s
  {
    if |s| == 0 then -1
    else if s[|s| - 1] == c then |s| - 1
    else
      var k := LastIndexOf(s[..|s| - 1], c);
      LastIndexOfStep(s, c, k);
      k
  }

  /** An occurrence-free tail stays occurrence-free when a different character is appended. */
  lemma {:induction false} LastIndexOfStep(s: string, c: char, k: int)
    requires |s| > 0 && s[|s| - 1] != c && -1 <= k < |s| - 1
    requires k >= 0 ==> c !in s[..|s| - 1][k + 1..]
    requires k == -1 ==> c !in s[..|s| - 1]
    ensures k >= 0 ==> c !in s[k + 1..]
    ensures k == -1 ==> c !in s
  {
    var init := s[..|s| - 1];
    assert s == init + [s[|s| - 1]];
    if k >= 0 {
      assert s[k + 1..] == init[k + 1..] + [s[|s| - 1]];
    }
  }

  /** The last occurrence of `c` in `a + [c] + b` is the one after `a` when `b` has none. */
  lemma {:induction false} LastIndexOfSplit(a: string, b: string, c: char)
    requires c !in b
    ensures LastIndexOf(a + [c] + b, c) == |a|
    decreases |b|
  {
    var s := a + [c] + b;
    if |b| > 0 {
      assert b[|b| - 1] in b;
      assert s[..|s| - 1] == a + [c] + b[..|b| - 1];
      assert forall x :: x in b[..|b| - 1] ==> x in b;
      LastIndexOfSplit(a, b[..|b| - 1], c);
    }
  }

  /** `s.split(c).pop()`: the text after the last `c`, or all of `s` when it has none. */
  function AfterLast(s: string, c: char): (r: string)
    ensures c !in r
    ensures EndsWith(s, r)
  {
    var k := LastIndexOf(s, c);
    s[k + 1..]
  }

  /** The last '/'-separated segment of a path (`path.basename`, trailing slashes not stripped). */
  function Basename(path: string): (r: string)
    ensures '/' !in r
    ensures EndsWith(path, r)
  {
    AfterLast(path, '/')
  }

  /** A non-empty extension body: no '.' and no '/'. */
  predicate ExtensionBody(e: string)
  {
    |e| > 0 && '.' !in e && '/' !in e
  }

  /**
   * `name.replace(/\.[^/.]+$/, "")`: removes the final ".ext" when the text after
   * the last dot is non-empty and holds no '/'.
   */
  function StripExtension(name: string): (r: string)
    ensures StartsWith(name, r)
    ensures r != name ==> |r| < |name| && name[|r|] == '.' && ExtensionBody(name[|r| + 1..])
  {
    var k := LastIndexOf(name, '.');
    if 0 <= k < |name| - 1 && '/' !in name[k + 1..] then name[..k] else name
  }

  /** Both directions: a name of the form stem + "." + body loses exactly ".body". */
  lemma {:induction false} StripExtensionOf(stem: string, body: string)
    requires ExtensionBody(body)
    ensures StripExtension(stem + "." + body) == stem
  {
    LastIndexOfSplit(stem, body, '.');
    var s := stem + "." + body;
    assert s[|stem| + 1..] == body;
    assert s[..|stem|] == stem;
  }

  /** `path.extname` of a path: the final ".ext" of its last segment, "" for dot-files, ".." or no dot. */
  function Extname(path: string): (e: string)
    ensures e == "" || (e[0] == '.' && EndsWith(path, e) && '.' !in e[1..] && '/' !in e)
  {
    var base := Basename(path);
    var k := LastIndexOf(base, '.');
    if k <= 0 || base == ".." then ""
    else
      var e := base[k..];
      assert e[1..] == base[k + 1..];
      assert EndsWith(base, e);
      EndsWithTrans(path, base, e);
      e
  }

  /** `path.basename(name, path.extname(name))`: the last segment without its extension. */
  function Stem(name: string): (r: string)
    ensures '/' !in r
  {
    var base := Basename(name);
    var e := Extname(name);
    if e != "" && EndsWith(base, e) && e != base then base[..|base| - |e|] else base
  }

  /** `path.join(folder, name)` without normalisation. */
  function JoinPath(folder: string, name: string): (r: string)
    ensures EndsWith(r, name)
    ensures StartsWith(r, folder)
  {
    if folder == "" then name
    else
      var sep := if folder[|folder| - 1] == '/' then "" else "/";
      var r := folder + sep + name;
      assert r[|r| - |name|..] == name;
      assert r[..|folder|] == folder;
      r
  }

  /** Joining a plain name under a folder gives a path whose basename is that name. */
  lemma {:induction false} JoinPathBasename(folder: string, name: string)
    requires folder != "" && '/' !in name
    ensures Basename(JoinPath(folder, name)) == name
  {
    var sep := if folder[|folder| - 1] == '/' then "" else "/";
    var head := (folder + sep)[..|folder + sep| - 1];
    assert JoinPath(folder, name) == head + ['/'] + name;
    LastIndexOfSplit(head, name, '/');
  }

  /** A separator allowed after a leading track number: white space, '.' or '-'. */
  predicate IsTrackSeparator(c: char)
  {
    IsSpace(c) || c == '.' || c == '-'
  }

  function SeparatorRunLength(s: string): (n: nat)
    ensures n <= |s|
    ensures n < |s| ==> !IsTrackSeparator(s[n])
    ensures forall i :: 0 <= i < n ==> IsTrackSeparator(s[i])
  {
    if |s| > 0 && IsTrackSeparator(s[0]) then 1 + SeparatorRunLength(s[1..]) else 0
  }

  /** `s.replace(/^\d+[\s.-]+/, "")`: drops a leading number that is followed by separators. */
  function StripTrackPrefix(s: string): (r: string)
    ensures EndsWith(s, r)
  {
    var d := DigitRunLength(s);
    if d == 0 then s
    else
      var n := SeparatorRunLength(s[d..]);
      if n == 0 then s else s[d + n..]
  }

  /** "07 - Title" becomes "Title": the number and every separator after it go. */
  lemma {:induction false} StripTrackPrefixOf(digits: string, seps: string, title: string)
    requires |digits| > 0 && AllDigits(digits)
    requires |seps| > 0 && forall i :: 0 <= i < |seps| ==> IsTrackSeparator(seps[i])
    requires |title| == 0 || !IsTrackSeparator(title[0])
    ensures StripTrackPrefix(digits + seps + title) == title
  {
    var s := digits + seps + title;
    assert !IsDigit(seps[0]);
    DigitRunOfRendered(digits, seps + title);
    assert s == digits + (seps + title);
    assert s[|digits|..] == seps + title;
    SeparatorRunOf(seps, title);
    assert s[|digits| + |seps|..] == title;
  }

  lemma {:induction false} SeparatorRunOf(seps: string, rest: string)
    requires forall i :: 0 <= i < |seps| ==> IsTrackSeparator(seps[i])
    requires |rest| == 0 || !IsTrackSeparator(rest[0])
    ensures SeparatorRunLength(seps + rest) == |seps|
    decreases |seps|
  {
    if |seps| > 0 {
      assert (seps + rest)[1..] == seps[1..] + rest;
      SeparatorRunOf(seps[1..], rest);
    } else {
      assert seps + rest == rest;
    }
  }

  /** A name that does not start with a digit keeps its prefix. */
  lemma {:induction false} StripTrackPrefixNoDigit(s: string)
    requires |s| == 0 || !IsDigit(s[0])
    ensures StripTrackPrefix(s) == s
  {
  }

  // ---------------------------------------------------------------------
  // `/\[.*?\]/g`

  /**
   * Index in `t` of the ']' that closes a '[' standing just before `t`: the first
   * ']' with no line terminator before it, or -1 when a line terminator or the
   * end comes first (`.` does not match line terminators).
   */
  function CloseBracket(t: string): (k: int)
    ensures -1 <= k < |t|
    ensures k >= 0 ==> t[k] == ']'
  {
    if |t| == 0 then -1
    else if t[0] == ']' then 0
    else if IsLineTerminator(t[0]) then -1
    else
      var k := CloseBracket(t[1..]);
      if k == -1 then -1 else k + 1
  }

  /** `s.replace(/\[.*?\]/g, "")`, scanning left to right as the global replace does. */
  function RemoveBracketed(s: string): (r: string)
    ensures |r| <= |s|
    decreases |s|
  {
    if |s| == 0 then s
    else if s[0] == '[' && CloseBracket(s[1..]) >= 0 then
      RemoveBracketed(s[1..][CloseBracket(s[1..]) + 1..])
    else [s[0]] + RemoveBracketed(s[1..])
  }

  /** No '[' of `r` is closed by a later ']' on the same line. */
  predicate NoBracketPair(r: string)
    decreases |r|
  {
    |r| == 0 || ((r[0] == '[' ==> CloseBracket(r[1..]) == -1) && NoBracketPair(r[1..]))
  }

  /** Removing segments never closes a bracket that was unclosed before. */
  lemma {:induction false} UnclosedStaysUnclosed(t: string)
    requires CloseBracket(t) == -1
    ensures CloseBracket(RemoveBracketed(t)) == -1
    decreases |t|
  {
    if |t| > 0 && !IsLineTerminator(t[0]) {
      assert t[0] != ']';
      assert CloseBracket(t[1..]) == -1;
      UnclosedStaysUnclosed(t[1..]);
      var r := [t[0]] + RemoveBracketed(t[1..]);
      assert r[1..] == RemoveBracketed(t[1..]);
    } else if |t| > 0 {
      var r := [t[0]] + RemoveBracketed(t[1..]);
      assert RemoveBracketed(t) == r;
    }
  }

  /** After the global replace no bracketed segment is left. */
  lemma {:induction false} RemoveBracketedLeavesNone(s: string)
    ensures NoBracketPair(RemoveBracketed(s))
    decreases |s|
  {
    if |s| > 0 {
      if s[0] == '[' && CloseBracket(s[1..]) >= 0 {
        RemoveBracketedLeavesNone(s[1..][CloseBracket(s[1..]) + 1..]);
      } else {
        RemoveBracketedLeavesNone(s[1..]);
        var r := [s[0]] + RemoveBracketed(s[1..]);
        assert r[1..] == RemoveBracketed(s[1..]);
        if s[0] == '[' {
          UnclosedStaysUnclosed(s[1..]);
        }
      }
    }
  }

  /** A string without bracketed segments is left alone. */
  lemma {:induction false} RemoveBracketedNoop(s: string)
    requires NoBracketPair(s)
    ensures RemoveBracketed(s) == s
    decreases |s|
  {
    if |s| > 0 {
      RemoveBracketedNoop(s[1..]);
    }
  }

  /** The bracket removal is idempotent. */
  lemma {:induction false} RemoveBracketedIdempotent(s: string)
    ensures RemoveBracketed(RemoveBracketed(s)) == RemoveBracketed(s)
  {
    RemoveBracketedLeavesNone(s);
    RemoveBracketedNoop(RemoveBracketed(s));
  }
}
