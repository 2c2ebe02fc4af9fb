/**
 * The metadata merge of server/services/scraper.js: which catalogue sources a
 * scrape consults, how the custom source's URL is built, and the priority merge
 * of the answers into the local record. The HTTP fetches are outside the model:
 * their outcomes are an input, `None` standing for a failed or empty answer.
 */
module Scraper {
  import opened Wrappers
  import opened Text
  import opened Types

  datatype SourceKind = ITunes | Ximalaya | GoogleBooks | OpenLibrary | Custom

  /** One source's answer; a field is `None` when the source did not supply it. */
  datatype SourceResult = SourceResult(
    source: SourceKind,
    title: Option<string>,
    author: Option<string>,
    description: Option<string>,
    coverUrl: Option<string>)

  /** The local record: the four merged fields and everything else, which the merge copies. */
  datatype Metadata = Metadata(
    title: Option<string>,
    author: Option<string>,
    description: Option<string>,
    coverUrl: Option<string>,
    other: map<string, string>)

  /** `sources.filter(s => s !== null)`. */
  function ValidSources(sources: seq<Option<SourceResult>>): (r: seq<SourceResult>)
    ensures |r| <= |sources|
    ensures forall x :: x in r <==> Some(x) in sources
  {
    if |sources| == 0 then []
    else
      var rest := ValidSources(sources[1..]);
      assert forall o :: o in sources <==> o == sources[0] || o in sources[1..];
      if sources[0].Some? then [sources[0].value] + rest else rest
  }

  /** `valid.find(s => s.source === kind)`. */
  function FindKind(valid: seq<SourceResult>, kind: SourceKind): (r: Option<SourceResult>)
    ensures r.Some? <==> exists i :: 0 <= i < |valid| && valid[i].source == kind
    ensures r.Some? ==> r.value in valid && r.value.source == kind
  {
    if |valid| == 0 then None
    else if valid[0].source == kind then Some(valid[0])
    else FindKind(valid[1..], kind)
  }

  /** Index of the first kind, in the given order, that answered at all; -1 when none did. */
  function FirstPresentIndex(valid: seq<SourceResult>, kinds: seq<SourceKind>): (k: int)
    ensures -1 <= k < |kinds|
    ensures k >= 0 ==> FindKind(valid, kinds[k]).Some?
    ensures k >= 0 ==> forall j :: 0 <= j < k ==> FindKind(valid, kinds[j]).None?
    ensures k == -1 <==> forall j :: 0 <= j < |kinds| ==> FindKind(valid, kinds[j]).None?
  {
    if |kinds| == 0 then -1
    else if FindKind(valid, kinds[0]).Some? then 0
    else
      var k := FirstPresentIndex(valid, kinds[1..]);
      if k == -1 then -1 else k + 1
  }

  /** `find(a) || find(b) || find(c)`: the answer of the first kind that answered at all. */
  function FirstPresent(valid: seq<SourceResult>, kinds: seq<SourceKind>): (r: Option<SourceResult>)
    ensures r.None? <==> forall j :: 0 <= j < |kinds| ==> FindKind(valid, kinds[j]).None?
    ensures r.Some? ==> exists k :: 0 <= k < |kinds| && r == FindKind(valid, kinds[k])
                                    && forall j :: 0 <= j < k ==> FindKind(valid, kinds[j]).None?
  {
    var k := FirstPresentIndex(valid, kinds);
    if k == -1 then None else FindKind(valid, kinds[k])
  }

  /** `valid.find(s => s.author)`: the first answer with a non-empty author. */
  function FirstWithAuthor(valid: seq<SourceResult>): (r: Option<SourceResult>)
    ensures r.Some? ==> r.value in valid && Truthy(r.value.author)
    ensures r.None? <==> forall i :: 0 <= i < |valid| ==> !Truthy(valid[i].author)
  {
    if |valid| == 0 then None
    else if Truthy(valid[0].author) then Some(valid[0])
    else FirstWithAuthor(valid[1..])
  }

  /** `if (v) field = v`. */
  function Prefer(field: Option<string>, v: Option<string>): Option<string>
  {
    if Truthy(v) then v else field
  }

  /** The record still needs a cover: none, empty, or a placeholder image. */
  predicate NeedsCover(cover: Option<string>)
  {
    !Truthy(cover) || Contains(cover.value, "placehold")
  }

  const CoverOrder: seq<SourceKind> := [ITunes, Ximalaya, GoogleBooks]
  const DescriptionOrder: seq<SourceKind> := [Ximalaya, ITunes, GoogleBooks]

  /** Priority 1: a custom answer's non-empty fields overwrite the local ones. */
  function ApplyCustom(m: Metadata, valid: seq<SourceResult>): Metadata
  {
    var custom := FindKind(valid, Custom);
    if custom.None? then m
    else
      var c := custom.value;
      m.(title := Prefer(m.title, c.title), author := Prefer(m.author, c.author),
         description := Prefer(m.description, c.description), coverUrl := Prefer(m.coverUrl, c.coverUrl))
  }

  /** Priority 2: a missing or placeholder cover comes from the first of iTunes, Ximalaya, Google Books that answered. */
  function ApplyCover(m: Metadata, valid: seq<SourceResult>): Metadata
  {
    if NeedsCover(m.coverUrl) then
      var src := FirstPresent(valid, CoverOrder);
      if src.Some? then m.(coverUrl := Prefer(m.coverUrl, src.value.coverUrl)) else m
    else m
  }

  /** Priority 3: a missing description comes from the first of Ximalaya, iTunes, Google Books that answered. */
  function ApplyDescription(m: Metadata, valid: seq<SourceResult>): Metadata
  {
    if !Truthy(m.description) then
      var src := FirstPresent(valid, DescriptionOrder);
      if src.Some? then m.(description := Prefer(m.description, src.value.description)) else m
    else m
  }

  /** The local author is missing or the placeholder "Unknown". */
  predicate UnknownAuthor(local: Metadata)
  {
    local.author == Some("Unknown") || !Truthy(local.author)
  }

  /** Priority 4: judged on the LOCAL author, the first answer with an author replaces it. */
  function ApplyAuthor(m: Metadata, local: Metadata, valid: seq<SourceResult>): Metadata
  {
    if UnknownAuthor(local) then
      var src := FirstWithAuthor(valid);
      if src.Some? then m.(author := src.value.author) else m
    else m
  }

  /** `mergeMetadata(local, ...sources)`. */
  function MergeMetadata(local: Metadata, sources: seq<Option<SourceResult>>): (r: Metadata)
    ensures r.other == local.other
    ensures ValidSources(sources) == [] ==> r == local
  {
    var valid := ValidSources(sources);
    if |valid| == 0 then local
    else
      var m := ApplyCustom(local, valid);
      var m := ApplyCover(m, valid);
      var m := ApplyDescription(m, valid);
      ApplyAuthor(m, local, valid)
  }

  /** When no source answered, the local record comes back unchanged. */
  lemma {:induction false} NoAnswersKeepLocal(local: Metadata, sources: seq<Option<SourceResult>>)
    requires forall i :: 0 <= i < |sources| ==> sources[i].None?
    ensures MergeMetadata(local, sources) == local
  {
    NoValidSources(sources);
  }

  lemma {:induction false} NoValidSources(sources: seq<Option<SourceResult>>)
    requires forall i :: 0 <= i < |sources| ==> sources[i].None?
    ensures ValidSources(sources) == []
    decreases |sources|
  {
    if |sources| > 0 {
      NoValidSources(sources[1..]);
    }
  }

  /** A custom title always wins; a custom description is never replaced afterwards. */
  lemma {:induction false} CustomTitleAndDescriptionWin(local: Metadata, sources: seq<Option<SourceResult>>, c: SourceResult)
    requires c.source == Custom
    requires FindKind(ValidSources(sources), Custom) == Some(c)
    ensures Truthy(c.title) ==> MergeMetadata(local, sources).title == c.title
    ensures Truthy(c.description) ==> MergeMetadata(local, sources).description == c.description
    ensures !Truthy(c.title) ==> MergeMetadata(local, sources).title == local.title
  {
  }

  /** A real custom cover is kept; a custom cover that is a placeholder can still be replaced. */
  lemma {:induction false} CustomCoverWins(local: Metadata, sources: seq<Option<SourceResult>>, c: SourceResult)
    requires FindKind(ValidSources(sources), Custom) == Some(c)
    requires Truthy(c.coverUrl) && !Contains(c.coverUrl.value, "placehold")
    ensures MergeMetadata(local, sources).coverUrl == c.coverUrl
  {
  }

  /** When the local author is unknown, the first answering source with an author decides, even over a custom author. */
  lemma {:induction false} UnknownAuthorFromFirstSource(local: Metadata, sources: seq<Option<SourceResult>>)
    requires UnknownAuthor(local)
    ensures var valid := ValidSources(sources);
      var a := FirstWithAuthor(valid);
      a.Some? ==> MergeMetadata(local, sources).author == a.value.author
  {
  }

  /** A known local author is kept unless a custom source supplies one. */
  lemma {:induction false} KnownAuthorKept(local: Metadata, sources: seq<Option<SourceResult>>)
    requires !UnknownAuthor(local)
    requires FindKind(ValidSources(sources), Custom).None?
    ensures MergeMetadata(local, sources).author == local.author
  {
  }

  /**
   * The cover comes from the first PRESENT source of iTunes, Ximalaya, Google
   * Books: when iTunes answered without a cover, a Ximalaya cover is not used.
   */
  lemma {:induction false} CoverFromFirstPresentOnly(local: Metadata, it: SourceResult, xm: SourceResult)
    requires it.source == ITunes && it.coverUrl.None?
    requires xm.source == Ximalaya && Truthy(xm.coverUrl)
    requires local.coverUrl.None?
    ensures MergeMetadata(local, [Some(it), Some(xm)]).coverUrl == None
  {
    var valid := ValidSources([Some(it), Some(xm)]);
    assert valid == [it, xm];
    assert FindKind(valid, ITunes) == Some(it);
  }

  /** The field as the custom answer, if any, left it: a non-empty custom value overwrites the local one. */
  function AfterCustom(local: Option<string>, custom: Option<SourceResult>, pick: SourceResult -> Option<string>): (r: Option<string>)
    ensures custom.Some? && Truthy(pick(custom.value)) ==> r == pick(custom.value)
    ensures custom.None? || !Truthy(pick(custom.value)) ==> r == local
  {
    if custom.Some? then Prefer(local, pick(custom.value)) else local
  }

  function Description(a: SourceResult): Option<string> { a.description }
  function Cover(a: SourceResult): Option<string> { a.coverUrl }

  /**
   * The description: when it is still empty after the custom answer, it comes
   * from the first of Ximalaya, iTunes, Google Books that answered, provided
   * that answer has one; otherwise it stays as it was.
   */
  lemma {:induction false} DescriptionFill(local: Metadata, sources: seq<Option<SourceResult>>)
    ensures var valid := ValidSources(sources);
      var d := AfterCustom(local.description, FindKind(valid, Custom), Description);
      var src := FirstPresent(valid, DescriptionOrder);
      MergeMetadata(local, sources).description ==
        if !Truthy(d) && src.Some? && Truthy(src.value.description) then src.value.description else d
  {
    var valid := ValidSources(sources);
    if |valid| == 0 {
      assert FindKind(valid, Custom).None?;
      assert FindKind(valid, DescriptionOrder[0]).None?;
      assert FindKind(valid, DescriptionOrder[1]).None?;
      assert FindKind(valid, DescriptionOrder[2]).None?;
    }
  }

  /**
   * The cover: when the one left by the custom answer is missing or a
   * placeholder, the first of iTunes, Ximalaya, Google Books that answered
   * supplies its cover, provided it has one; otherwise the cover stays.
   */
  lemma {:induction false} CoverFill(local: Metadata, sources: seq<Option<SourceResult>>)
    ensures var valid := ValidSources(sources);
      var c := AfterCustom(local.coverUrl, FindKind(valid, Custom), Cover);
      var src := FirstPresent(valid, CoverOrder);
      MergeMetadata(local, sources).coverUrl ==
        if NeedsCover(c) && src.Some? && Truthy(src.value.coverUrl) then src.value.coverUrl else c
  {
    var valid := ValidSources(sources);
    if |valid| == 0 {
      assert FindKind(valid, Custom).None?;
      assert FindKind(valid, CoverOrder[0]).None?;
      assert FindKind(valid, CoverOrder[1]).None?;
      assert FindKind(valid, CoverOrder[2]).None?;
    }
  }

  /** The merge changes nothing but the four merged fields. */
  lemma {:induction false} MergeKeepsOtherFields(local: Metadata, sources: seq<Option<SourceResult>>)
    ensures MergeMetadata(local, sources).(title := local.title, author := local.author,
                                           description := local.description, coverUrl := local.coverUrl) == local
  {
  }

  // ---------------------------------------------------------------------
  // scrape

  datatype Config = Config(
    useItunes: bool, useXimalaya: bool, useGoogleBooks: bool, useOpenLibrary: bool,
    customSourceUrl: Option<string>)

  function When(b: bool, k: SourceKind): seq<SourceKind>
  {
    if b then [k] else []
  }

  /** The sources a scrape consults, in this fixed order; iTunes and Ximalaya when none is enabled. */
  function EnabledSources(config: Config): (r: seq<SourceKind>)
    ensures |r| > 0
    ensures ITunes in r <==> config.useItunes || r == [ITunes, Ximalaya]
    ensures Custom in r <==> Truthy(config.customSourceUrl)
    ensures OpenLibrary in r <==> config.useOpenLibrary
  {
    var picked := Picked(config);
    if |picked| == 0 then [ITunes, Ximalaya] else picked
  }

  /** The enabled kinds, pushed one by one in the fixed order. */
  function Picked(config: Config): seq<SourceKind>
  {
    When(config.useItunes, ITunes) + When(config.useXimalaya, Ximalaya)
      + When(config.useGoogleBooks, GoogleBooks) + When(config.useOpenLibrary, OpenLibrary)
      + When(Truthy(config.customSourceUrl), Custom)
  }

  /** The sources are consulted strictly in the fixed order, each at most once. */
  lemma {:induction false} EnabledSourcesOrdered(config: Config)
    ensures RankOrdered(EnabledSources(config))
  {
    var p1 := When(config.useItunes, ITunes);
    var p2 := p1 + When(config.useXimalaya, Ximalaya);
    var p3 := p2 + When(config.useGoogleBooks, GoogleBooks);
    var p4 := p3 + When(config.useOpenLibrary, OpenLibrary);
    var p5 := p4 + When(Truthy(config.customSourceUrl), Custom);
    assert RankOrdered(p5) by {
      WhenAfter([], config.useItunes, ITunes, p1);
      WhenAfter(p1, config.useXimalaya, Ximalaya, p2);
      WhenAfter(p2, config.useGoogleBooks, GoogleBooks, p3);
      WhenAfter(p3, config.useOpenLibrary, OpenLibrary, p4);
      WhenAfter(p4, Truthy(config.customSourceUrl), Custom, p5);
    }
    assert Picked(config) == p5;
    assert RankOrdered([ITunes, Ximalaya]);
  }

  /** Kinds strictly in consultation order. */
  predicate RankOrdered(r: seq<SourceKind>)
  {
    forall i, j :: 0 <= i < j < |r| ==> Rank(r[i]) < Rank(r[j])
  }

  /** Every kind in `r` ranks below `n`. */
  predicate RanksBelow(r: seq<SourceKind>, n: nat)
  {
    forall i :: 0 <= i < |r| ==> Rank(r[i]) < n
  }

  /** Appending a kind ranked after everything already picked keeps the order. */
  lemma {:induction false} WhenAfter(x: seq<SourceKind>, b: bool, k: SourceKind, y: seq<SourceKind>)
    requires y == x + When(b, k)
    requires RankOrdered(x) && RanksBelow(x, Rank(k))
    ensures RankOrdered(y) && RanksBelow(y, Rank(k) + 1)
  {
  }

  /** Position of a kind in the fixed consultation order. */
  function Rank(k: SourceKind): nat
  {
    match k
    case ITunes => 0
    case Ximalaya => 1
    case GoogleBooks => 2
    case OpenLibrary => 3
    case Custom => 4
  }

  /** A fetcher's answer carries its own kind as `source`, whatever else it holds. */
  function Labelled(k: SourceKind, o: Option<SourceResult>): (r: Option<SourceResult>)
    ensures r.Some? <==> o.Some?
    ensures r.Some? ==> r.value.source == k && r.value.(source := o.value.source) == o.value
  {
    if o.Some? then Some(o.value.(source := k)) else None
  }

  /** The settled outcomes of the enabled sources, in consultation order. */
  function Answers(kinds: seq<SourceKind>, fetch: SourceKind -> Option<SourceResult>): (r: seq<Option<SourceResult>>)
    ensures |r| == |kinds|
    ensures forall i :: 0 <= i < |kinds| ==> r[i] == Labelled(kinds[i], fetch(kinds[i]))
  {
    seq(|kinds|, i requires 0 <= i < |kinds| => Labelled(kinds[i], fetch(kinds[i])))
  }

  /**
   * `scrape`: ask every enabled source (outcomes given by `fetch`, each
   * labelled with the kind that produced it) and merge the answers.
   */
  function Scrape(local: Metadata, config: Config, fetch: SourceKind -> Option<SourceResult>): (r: Metadata)
    ensures r.other == local.other
  {
    MergeMetadata(local, Answers(EnabledSources(config), fetch))
  }

  /** When every enabled source fails, the local record comes back unchanged. */
  lemma {:induction false} ScrapeAllFail(local: Metadata, config: Config, fetch: SourceKind -> Option<SourceResult>)
    requires forall k :: k in EnabledSources(config) ==> fetch(k).None?
    ensures Scrape(local, config, fetch) == local
  {
    var kinds := EnabledSources(config);
    var answers := Answers(kinds, fetch);
    forall i | 0 <= i < |answers|
      ensures answers[i].None?
    {
      assert kinds[i] in kinds;
    }
    NoValidSources(answers);
  }

  /** Every answer labelled Custom comes from asking the custom source. */
  lemma {:induction false} CustomAnswersLabelled(kinds: seq<SourceKind>, fetch: SourceKind -> Option<SourceResult>)
    ensures var valid := ValidSources(Answers(kinds, fetch));
      forall i :: 0 <= i < |valid| && valid[i].source == Custom ==>
        Custom in kinds && Some(valid[i]) == Labelled(Custom, fetch(Custom))
  {
    var answers := Answers(kinds, fetch);
    var valid := ValidSources(answers);
    forall i | 0 <= i < |valid| && valid[i].source == Custom
      ensures Custom in kinds && Some(valid[i]) == Labelled(Custom, fetch(Custom))
    {
      assert Some(valid[i]) in answers;
      var j :| 0 <= j < |answers| && answers[j] == Some(valid[i]);
      assert kinds[j] == Custom;
    }
  }

  /** A custom answer in a scrape is the one the custom fetch produced, never another source's. */
  lemma {:induction false} ScrapeCustomAnswer(config: Config, fetch: SourceKind -> Option<SourceResult>)
    ensures var valid := ValidSources(Answers(EnabledSources(config), fetch));
      FindKind(valid, Custom) == if Truthy(config.customSourceUrl) then Labelled(Custom, fetch(Custom)) else None
  {
    var kinds := EnabledSources(config);
    var answers := Answers(kinds, fetch);
    var valid := ValidSources(answers);
    CustomAnswersLabelled(kinds, fetch);
    if Truthy(config.customSourceUrl) && fetch(Custom).Some? {
      assert Custom in kinds;
      var j :| 0 <= j < |kinds| && kinds[j] == Custom;
      assert answers[j].value in valid;
    }
  }

  /** With nothing enabled and both default sources failing, the local record comes back unchanged. */
  lemma {:induction false} ScrapeDefaultsFail(local: Metadata, fetch: SourceKind -> Option<SourceResult>)
    requires fetch(ITunes).None? && fetch(Ximalaya).None?
    ensures Scrape(local, Config(false, false, false, false, None), fetch) == local
  {
    var kinds := EnabledSources(Config(false, false, false, false, None));
    assert kinds == [ITunes, Ximalaya];
  }

  // ---------------------------------------------------------------------
  // fetchCustomSource

  /** The custom request URL: "&q=" when the URL already has a query string, otherwise "?q=". */
  function CustomTarget(url: string, encodedQuery: string): (r: string)
    ensures StartsWith(r, url)
    ensures EndsWith(r, "q=" + encodedQuery)
    ensures '?' in url ==> r == url + "&q=" + encodedQuery
    ensures '?' !in url ==> |r| > |url| && r[|url|] == '?'
  {
    var sep := if '?' in url then "&" else "?";
    var r := url + sep + "q=" + encodedQuery;
    assert r[..|url|] == url;
    assert r[|r| - |"q=" + encodedQuery|..] == "q=" + encodedQuery;
    r
  }

  /** Every custom request carries exactly one more '?' than a URL without one, and never two. */
  lemma {:induction false} CustomTargetOneQuery(url: string, q: string)
    requires '?' !in q
    ensures CountChar(CustomTarget(url, q), '?') == if '?' in url then CountChar(url, '?') else 1
  {
    var sep := if '?' in url then "&" else "?";
    assert CustomTarget(url, q) == url + (sep + "q=" + q);
    CountCharAppend(url, sep + "q=" + q, '?');
    CountCharAppend(sep, "q=" + q, '?');
    CountCharAppend("q=", q, '?');
    CountCharAbsent(q, '?');
    if '?' !in url {
      CountCharAbsent(url, '?');
    }
  }
}
