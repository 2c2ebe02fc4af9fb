/**
 * The streaming route (server/routes/stream.js): whether a file is transcoded,
 * how a `Range` header is read, and the status and headers of the response.
 * Byte ranges follow the `bytes=first-last` form of section 2.1 of RFC 7233 and
 * the reply carries `Content-Range: bytes first-last/size` as in section 4.2;
 * the route itself does not validate the range, and bounds the file stream
 * refuses end in a 500. The database lookup, `stat`,
 * the file stream and ffmpeg are outside the model: their results are inputs.
 */
module Stream {
  import opened Wrappers
  import opened Text
  import opened FileNames
  import Scanner
  import Types

  /** Extensions the browser cannot play directly. */
  const TranscodedExtensions: seq<string> := [".m4b", ".flac", ".ogg", ".wma"]

  /** `transcode === '1' || [...].includes(ext)` with `ext` the lower-cased extension. */
  predicate NeedsTranscode(transcode: Option<string>, filePath: string)
  {
    transcode == Some("1") || Lower(Extname(filePath)) in TranscodedExtensions
  }

  /** A plain "stem.ext" is transcoded without the query flag exactly when its extension is one of the four. */
  lemma {:induction false} TranscodeByExtension(stem: string, ext: string)
    requires stem != "" && '/' !in stem && ExtensionBody(ext)
    ensures NeedsTranscode(None, stem + "." + ext) <==> Lower("." + ext) in TranscodedExtensions
    ensures NeedsTranscode(Some("1"), stem + "." + ext)
  {
    Scanner.ExtnameOf(stem, ext);
  }

  /** Everything the route transcodes by extension is an extension the scanner imports. */
  lemma {:induction false} TranscodedAreAudio(e: string)
    requires e in TranscodedExtensions
    ensures e in Scanner.AudioExtensions
  {
  }

  // ---------------------------------------------------------------------
  // reading the Range header

  /** `s.replace(/bytes=/, "")`: the first occurrence, wherever it is, is removed. */
  function ReplaceFirst(s: string, pat: string): (r: string)
    ensures |r| <= |s|
    ensures StartsWith(s, pat) ==> r == s[|pat|..]
    decreases |s|
  {
    if StartsWith(s, pat) then s[|pat|..]
    else if |s| == 0 then s
    else [s[0]] + ReplaceFirst(s[1..], pat)
  }

  /** `parseInt(s, 10)`: leading white space, an optional sign, then the longest digit run; `None` for NaN. */
  function ParseInt(s: string): (r: Option<int>)
    ensures r.None? <==>
      var t := TrimStart(s);
      var body := if |t| > 0 && (t[0] == '-' || t[0] == '+') then t[1..] else t;
      |body| == 0 || !IsDigit(body[0])
  {
    var t := TrimStart(s);
    var signed := |t| > 0 && (t[0] == '-' || t[0] == '+');
    var body := if signed then t[1..] else t;
    var d := DigitRunLength(body);
    if d == 0 then None
    else
      var n: int := ParseNat(body[..d]);
      Some(if |t| > 0 && t[0] == '-' then -n else n)
  }

  /** A digit is neither white space nor a sign. */
  lemma {:induction false} DigitIsPlain(c: char)
    requires IsDigit(c)
    ensures !IsSpace(c) && c != '-' && c != '+'
  {
  }

  /** Text that starts with a digit has no leading white space to trim. */
  lemma {:induction false} TrimStartDigits(s: string)
    requires |s| > 0 && IsDigit(s[0])
    ensures TrimStart(s) == s
  {
    DigitIsPlain(s[0]);
  }

  /** An unsigned digit run at the start of `s` reads as its value. */
  lemma {:induction false} ParseIntUnsigned(s: string, n: nat)
    requires 0 < n <= |s| && AllDigits(s[..n]) && DigitRunLength(s) == n
    ensures ParseInt(s) == Some(ParseNat(s[..n]))
  {
    TrimStartDigits(s);
  }

  /** A digit string reads as its value, whatever non-digit text follows it. */
  lemma {:induction false} ParseIntDigits(d: string, rest: string, v: nat)
    requires |d| > 0 && AllDigits(d) && ParseNat(d) == v
    requires |rest| == 0 || !IsDigit(rest[0])
    ensures ParseInt(d + rest) == Some(v)
  {
    var s := d + rest;
    DigitRunOfRendered(d, rest);
    assert s[..|d|] == d;
    ParseIntUnsigned(s, |d|);
  }

  /** Text that starts with a minus sign has no leading white space to trim. */
  lemma {:induction false} TrimStartMinus(s: string)
    requires |s| > 0 && s[0] == '-'
    ensures TrimStart(s) == s
  {
  }

  /** A minus sign followed by nothing but digits reads as the negated value of the digits. */
  lemma {:induction false} ParseIntMinus(d: string)
    requires |d| > 0 && AllDigits(d) && DigitRunLength(d) == |d|
    ensures ParseInt("-" + d) == Some(-(ParseNat(d) as int))
  {
    var s := "-" + d;
    TrimStartMinus(s);
    assert s[1..] == d;
    assert d[..|d|] == d;
  }

  /** A minus sign in front of a digit string negates its value. */
  lemma {:induction false} ParseIntNegativeDigits(d: string, v: nat)
    requires |d| > 0 && AllDigits(d) && ParseNat(d) == v
    ensures ParseInt("-" + d) == Some(-(v as int))
  {
    assert DigitRunLength(d) == |d| by {
      DigitRunOfRendered(d, "");
      assert d + "" == d;
    }
    ParseIntMinus(d);
  }

  /** A rendered number reads back, whatever non-digit text follows it. */
  lemma {:induction false} ParseIntRendered(n: nat, rest: string)
    requires |rest| == 0 || !IsDigit(rest[0])
    ensures ParseInt(NatToString(n) + rest) == Some(n)
  {
    ParseNatToString(n);
    ParseIntDigits(NatToString(n), rest, n);
  }

  /** `parseInt(String(n)) == n`. */
  lemma {:induction false} ParseIntOf(n: nat)
    ensures ParseInt(NatToString(n)) == Some(n)
  {
    assert NatToString(n) + "" == NatToString(n);
    ParseIntRendered(n, "");
  }

  /** A minus sign negates. */
  lemma {:induction false} ParseIntNegative(n: nat)
    ensures ParseInt("-" + NatToString(n)) == Some(-(n as int))
  {
    ParseNatToString(n);
    ParseIntNegativeDigits(NatToString(n), n);
  }

  /** The bounds of a ranged request, both inclusive. */
  datatype ByteRange = ByteRange(first: int, last: int)

  /**
   * Bounds of a `Range` header: the text before the first '-' is the first byte;
   * the text after it is the last byte, or `fileSize - 1` when it is empty or
   * missing. `None` when a bound does not read as a number (`NaN` in the source).
   */
  function ParseRange(header: string, fileSize: int): (r: Option<ByteRange>)
    ensures r.Some? ==> Some(r.value.first) == ParseInt(Split(ReplaceFirst(header, "bytes="), '-')[0])
  {
    var parts := Split(ReplaceFirst(header, "bytes="), '-');
    var first := ParseInt(parts[0]);
    var last := if |parts| > 1 && parts[1] != "" then ParseInt(parts[1]) else Some(fileSize - 1);
    if first.None? || last.None? then None else Some(ByteRange(first.value, last.value))
  }

  lemma {:induction false} DigitsHaveNoDash(n: nat)
    ensures '-' !in NatToString(n)
  {
    var s := NatToString(n);
    assert forall i :: 0 <= i < |s| ==> s[i] != '-' by {
      assert AllDigits(s);
    }
  }

  lemma {:induction false} StripBytes(x: string)
    ensures ReplaceFirst("bytes=" + x, "bytes=") == x
  {
    assert ("bytes=" + x)[..6] == "bytes=";
    assert ("bytes=" + x)[6..] == x;
  }

  lemma {:induction false} SplitRendered(a: nat, b: nat)
    ensures Split(NatToString(a) + ['-'] + NatToString(b), '-') == [NatToString(a), NatToString(b)]
  {
    DigitsHaveNoDash(a);
    DigitsHaveNoDash(b);
    SplitAt(NatToString(a), NatToString(b), '-');
    SplitNoSep(NatToString(b), '-');
  }

  lemma {:induction false} StripBytes3(x: string, y: string, z: string)
    ensures ReplaceFirst("bytes=" + x + y + z, "bytes=") == x + y + z
  {
    assert "bytes=" + x + y + z == "bytes=" + (x + y + z);
    StripBytes(x + y + z);
  }

  /** "bytes=a-b" reads back as the range a..b. */
  lemma {:induction false} ParseRangeClosed(a: nat, b: nat, fileSize: int)
    ensures ParseRange("bytes=" + NatToString(a) + "-" + NatToString(b), fileSize) == Some(ByteRange(a, b))
  {
    var sa, sb := NatToString(a), NatToString(b);
    var h := "bytes=" + sa + "-" + sb;
    StripBytes3(sa, "-", sb);
    var parts := Split(ReplaceFirst(h, "bytes="), '-');
    SplitRendered(a, b);
    ParseIntOf(a);
    ParseIntOf(b);
    assert parts[1] != "";
  }

  /** "bytes=a-" runs to the end of the file. */
  lemma {:induction false} ParseRangeOpen(a: nat, fileSize: int)
    ensures ParseRange("bytes=" + NatToString(a) + "-", fileSize) == Some(ByteRange(a, fileSize - 1))
  {
    var d := NatToString(a);
    var h := "bytes=" + d + "-";
    assert Split(ReplaceFirst(h, "bytes="), '-') == [d, ""] by {
      assert ReplaceFirst(h, "bytes=") == d + ['-'] + "" by {
        assert h[..6] == "bytes=";
      }
      DigitsHaveNoDash(a);
      SplitAt(d, "", '-');
      assert Split("", '-') == [""];
    }
    assert ParseInt(d) == Some(a) by { ParseIntOf(a); }
  }

  /** A suffix range "bytes=-n" (RFC 7233 section 2.1) is not understood: it starts at NaN. */
  lemma {:induction false} SuffixRangeUnread(n: nat, fileSize: int)
    ensures ParseRange("bytes=-" + NatToString(n), fileSize).None?
  {
    var h := "bytes=-" + NatToString(n);
    assert ReplaceFirst(h, "bytes=") == "" + ['-'] + NatToString(n) by {
      assert h[..6] == "bytes=";
    }
    DigitsHaveNoDash(n);
    SplitAt("", NatToString(n), '-');
    assert ParseInt("").None?;
  }

  // ---------------------------------------------------------------------
  // the response

  /** `audio/<ext without the dot>`, with "mpeg" for mp3. */
  function ContentType(ext: string): (t: string)
    ensures StartsWith(t, "audio/")
  {
    var bare := if |ext| > 0 then ext[1..] else "";
    var t := "audio/" + (if bare == "mp3" then "mpeg" else bare);
    assert t[..6] == "audio/";
    t
  }

  /** Other extensions name their own type. */
  lemma {:induction false} ContentTypeOf(bare: string)
    ensures ContentType("." + bare) == "audio/" + (if bare == "mp3" then "mpeg" else bare)
  {
    assert ("." + bare)[1..] == bare;
  }

  /** The content type of a directly streamed file, from its lower-cased extension. */
  function FileType(path: string): (t: string)
    ensures StartsWith(t, "audio/")
  {
    ContentType(Lower(Extname(path)))
  }

  /** `bytes first-last/size`. */
  function ContentRange(r: ByteRange, fileSize: int): string
  {
    "bytes " + IntToString(r.first) + "-" + IntToString(r.last) + "/" + IntToString(fileSize)
  }

  datatype Response =
    | NotFound(message: string)
    | Transcoded(contentType: string)
    | Partial(contentRange: string, contentLength: int, contentType: string)
    | Full(contentLength: int, contentType: string)
    | Failed(message: string)

  function Status(r: Response): int
  {
    match r
    case NotFound(_) => 404
    case Transcoded(_) => 200
    case Partial(_, _, _) => 206
    case Full(_, _) => 200
    case Failed(_) => 500
  }

  /**
   * The bounds the file stream accepts: both whole numbers, neither negative,
   * the start not after the end. Any other bounds make `createReadStream`
   * throw before the head is written, and the route's catch answers 500.
   * An end past the file is accepted; the stream stops at the end of the file.
   */
  predicate StreamAccepts(b: ByteRange)
  {
    0 <= b.first <= b.last
  }

  /**
   * The route. `record` is the stored path of the requested file, `onDisk`
   * whether it is on disk, `fileSize` its size, `range` the `Range` header.
   */
  function Respond(record: Option<string>, onDisk: bool, transcode: Option<string>,
                   fileSize: int, range: Option<string>): (r: Response)
    ensures record.None? ==> r == NotFound("File not found")
    ensures record.Some? && !onDisk ==> r == NotFound("Physical file missing")
    ensures r.Transcoded? ==> r.contentType == "audio/mpeg"
    ensures r.Full? ==> r.contentLength == fileSize && !Types.Truthy(range)
    ensures r.Partial? ==> r.contentLength >= 1 && Types.Truthy(range)
    ensures r.Failed? <==>
      && record.Some? && onDisk && !NeedsTranscode(transcode, record.value) && Types.Truthy(range)
      && !(ParseRange(range.value, fileSize).Some? && StreamAccepts(ParseRange(range.value, fileSize).value))
    ensures r.Failed? ==> r.message == "Stream Error"
  {
    if record.None? then NotFound("File not found")
    else if !onDisk then NotFound("Physical file missing")
    else
      if NeedsTranscode(transcode, record.value) then Transcoded("audio/mpeg")
      else if range.Some? && range.value != "" then
        match ParseRange(range.value, fileSize)
        case None => Failed("Stream Error")
        case Some(b) =>
          if StreamAccepts(b) then Partial(ContentRange(b, fileSize), b.last - b.first + 1, FileType(record.value))
          else Failed("Stream Error")
      else Full(fileSize, FileType(record.value))
  }

  /** A Range header whose bounds the file stream accepts, on a directly streamed file, gets 206. */
  lemma {:induction false} PartialResponse(path: string, fileSize: int, header: string, br: ByteRange)
    requires !NeedsTranscode(None, path)
    requires header != "" && ParseRange(header, fileSize) == Some(br) && StreamAccepts(br)
    ensures var r := Respond(Some(path), true, None, fileSize, Some(header));
      && r.Partial?
      && r.contentRange == ContentRange(br, fileSize)
      && r.contentLength == br.last - br.first + 1
      && r.contentType == FileType(path)
  {
  }

  /** A range whose end lies before its start makes the file stream throw: the reply is 500. */
  lemma {:induction false} ReversedRangeFails(path: string, fileSize: int, a: nat, b: nat)
    requires !NeedsTranscode(None, path)
    requires b < a
    ensures var r := Respond(Some(path), true, None, fileSize, Some("bytes=" + NatToString(a) + "-" + NatToString(b)));
      r == Failed("Stream Error") && Status(r) == 500
  {
    var header := "bytes=" + NatToString(a) + "-" + NatToString(b);
    ParseRangeClosed(a, b, fileSize);
    assert header[0] == 'b';
  }

  /** An open range starting at or after the end of the file, an empty file's "bytes=0-" included, is refused the same way. */
  lemma {:induction false} OpenRangePastEndFails(path: string, a: nat, fileSize: int)
    requires !NeedsTranscode(None, path)
    requires fileSize <= a
    ensures Respond(Some(path), true, None, fileSize, Some("bytes=" + NatToString(a) + "-")) == Failed("Stream Error")
  {
    var h := "bytes=" + NatToString(a) + "-";
    ParseRangeOpen(a, fileSize);
    assert h[0] == 'b';
  }

  /** A suffix range starts at NaN, which the file stream refuses. */
  lemma {:induction false} SuffixRangeFails(path: string, n: nat, fileSize: int)
    requires !NeedsTranscode(None, path)
    ensures Respond(Some(path), true, None, fileSize, Some("bytes=-" + NatToString(n))) == Failed("Stream Error")
  {
    var h := "bytes=-" + NatToString(n);
    SuffixRangeUnread(n, fileSize);
    assert h[0] == 'b';
  }

  /**
   * An end past the file is not checked: the reply is 206 and its
   * `Content-Length` is the header's count, more than the bytes that remain.
   */
  lemma {:induction false} OversizeRangeOverstates(path: string, a: nat, b: nat, fileSize: int)
    requires !NeedsTranscode(None, path)
    requires a <= b && fileSize <= b
    ensures var r := Respond(Some(path), true, None, fileSize, Some("bytes=" + NatToString(a) + "-" + NatToString(b)));
      && r.Partial? && Status(r) == 206
      && r.contentLength == b - a + 1
      && r.contentLength > fileSize - a
  {
    var h := "bytes=" + NatToString(a) + "-" + NatToString(b);
    ParseRangeClosed(a, b, fileSize);
    assert |h| > 0;
    PartialResponse(path, fileSize, h, ByteRange(a, b));
  }

  /**
   * A well-formed request "bytes=a-b" with a <= b < size on a directly streamed
   * file gets 206 with the exact byte count, which lies between 1 and the size.
   */
  lemma {:induction false} RangedResponse(path: string, a: nat, b: nat, fileSize: int)
    requires !NeedsTranscode(None, path)
    requires a <= b < fileSize
    ensures var r := Respond(Some(path), true, None, fileSize, Some("bytes=" + NatToString(a) + "-" + NatToString(b)));
      && Status(r) == 206
      && r.contentRange == ContentRange(ByteRange(a, b), fileSize)
      && r.contentLength == b - a + 1
      && 1 <= r.contentLength <= fileSize
  {
    var h := "bytes=" + NatToString(a) + "-" + NatToString(b);
    ParseRangeClosed(a, b, fileSize);
    assert |h| > 0;
    PartialResponse(path, fileSize, h, ByteRange(a, b));
  }

  /** An open range "bytes=a-" covers the rest of the file. */
  lemma {:induction false} OpenRangedResponse(path: string, a: nat, fileSize: int)
    requires !NeedsTranscode(None, path)
    requires a < fileSize
    ensures var r := Respond(Some(path), true, None, fileSize, Some("bytes=" + NatToString(a) + "-"));
      && Status(r) == 206
      && r.contentLength == fileSize - a
  {
    var h := "bytes=" + NatToString(a) + "-";
    ParseRangeOpen(a, fileSize);
    assert |h| > 0;
    PartialResponse(path, fileSize, h, ByteRange(a, fileSize - 1));
  }

  /** Without a Range header the whole file goes out with 200. */
  lemma {:induction false} FullResponse(path: string, fileSize: int)
    requires !NeedsTranscode(None, path)
    ensures var r := Respond(Some(path), true, None, fileSize, None);
      Status(r) == 200 && r.Full? && r.contentLength == fileSize
  {
  }

  /** The query flag wins over any Range header: the reply is a transcoded mp3 stream. */
  lemma {:induction false} TranscodeIgnoresRange(path: string, fileSize: int, range: Option<string>)
    ensures Respond(Some(path), true, Some("1"), fileSize, range) == Transcoded("audio/mpeg")
  {
  }
}
