/**
 * The metrics scraper of the Taal monitoring app (Webscraper.kt):
 * `parseMetricsFromDocument`, which reads the bulletin page's labelled
 * table cells into a `VolcanicMetrics` record, and the block splitting
 * and link classification of `fetchVolcanoData`.
 *
 * The page is abstracted to what the selectors find, in document order:
 * the titles of the alert circles, the texts of the earthquake-count
 * paragraphs, the table cells with their bold labels and the value
 * paragraphs of the cell after them, the article-body blocks with their
 * anchors and iframes, and the whole page's anchors and iframes. Fetching
 * the page and the time stamp of each entry are not modelled.
 */
module Metrics {
  import opened Wrappers
  import opened Text
  import opened Numbers

  /** The parsed record (VolcanicMetrics.kt): every field may be absent. */
  datatype VolcanicMetrics = VolcanicMetrics(
    alertLevel: Option<int>,
    eruptionChance: Option<string>,
    seismicityDescription: Option<string>,
    so2Flux: Option<string>,
    plumeDescription: Option<string>,
    groundDeformation: Option<string>,
    mainCraterLakeTemp: Option<string>,
    mainCraterLakeAcidity: Option<string>,
    earthquakeForecast: Option<string>,
    ashfallForecast: Option<string>,
    smogForecast: Option<string>,
    warningMessage: Option<string>)

  /** A `<b>` element of a table cell: its text and whether its parent is a `<p>`. */
  datatype Bold = Bold(text: string, inParagraph: bool)

  /**
   * A table cell: its bold elements, and the texts of the value paragraphs
   * (`p.bold.txtleft.newfont`) of the element right after it, `None` when
   * the cell is the last of its row.
   */
  datatype Cell = Cell(bolds: seq<Bold>, nextValues: Option<seq<string>>)

  /** An anchor: its text and its absolute href. */
  datatype Anchor = Anchor(text: string, absHref: string)

  /** An iframe: its title attribute and its absolute src. */
  datatype Frame = Frame(title: string, absSrc: string)

  /** An article-body block of the content category. */
  datatype Block = Block(text: string, anchors: seq<Anchor>, frames: seq<Frame>)

  datatype Page = Page(
    title: string,
    bodyText: string,
    anchors: seq<Anchor>,
    frames: seq<Frame>,
    circleTitles: seq<string>,
    seismicityTexts: seq<string>,
    cells: seq<Cell>,
    blocks: seq<Block>)

  datatype LinkData = LinkData(text: string, url: string, isExternal: bool)

  datatype IframeContent = IframeContent(title: string, src: string)

  /** One scraped entry (its time stamp is not modelled). */
  datatype ScrapedData = ScrapedData(
    title: string,
    rawContent: string,
    links: seq<LinkData>,
    iframes: seq<IframeContent>,
    parsedMetrics: Option<VolcanicMetrics>)

  /** The bulletin page the scraper always fetches. */
  const PageUrl: string := "https://phivolcs.dost.gov.ph/index.php/volcano-hazard/volcano-bulletin2/taal-volcano/32486-bulkang-taal-buod-ng-24-oras-na-pagmamanman-22-hulyo-2025-alas-12-ng-umaga"

  const So2Label: string := "Sulfur Dioxide Flux"
  const PlumeLabel: string := "Plume"
  const DeformationLabel: string := "Ground Deformation"
  const TemperatureLabel: string := "Temperatura"
  const AcidityLabel: string := "Acidity"
  const EarthquakeSuffix: string := " volcanic earthquakes occurred today"

  // --------------------------------------------------------------- selection

  /** `firstOrNull` of a selection: the index of the first element satisfying `p`. */
  function FirstWhere<T>(xs: seq<T>, p: T -> bool): (r: Option<nat>)
    ensures r.Some? ==> r.value < |xs| && p(xs[r.value])
    ensures r.Some? ==> forall j :: 0 <= j < r.value ==> !p(xs[j])
    ensures r.None? <==> forall j :: 0 <= j < |xs| ==> !p(xs[j])
  {
    if xs == [] then None
    else if p(xs[0]) then Some(0)
    else match FirstWhere(xs[1..], p)
      case None => None
      case Some(k) => Some(k + 1)
  }

  /** Elements after the first match do not change which one is selected. */
  lemma {:induction false} FirstWhereAppend<T>(xs: seq<T>, ys: seq<T>, p: T -> bool)
    requires FirstWhere(xs, p).Some?
    ensures FirstWhere(xs + ys, p) == FirstWhere(xs, p)
  {
    if !p(xs[0]) {
      assert (xs + ys)[1..] == xs[1..] + ys;
      FirstWhereAppend(xs[1..], ys, p);
    }
  }

  // -------------------------------------------------------------- the fields

  /** The title of the first alert circle read with `toIntOrNull`: no blanks, a sign, digits, an `Int`. */
  function AlertLevel(circleTitles: seq<string>): (r: Option<int>)
    ensures r.Some? ==> circleTitles != [] && InIntRange(r.value)
    ensures r.Some? ==> SignedDigits(circleTitles[0]) == r
  {
    if circleTitles == [] then None else KotlinToIntOrNull(circleTitles[0])
  }

  /** A printed integer in the first circle is the alert level; later circles are ignored. */
  lemma AlertLevelOfTitle(n: int, rest: seq<string>)
    requires InIntRange(n)
    ensures AlertLevel([IntToString(n)] + rest) == Some(n)
  {
    IntToStringRoundTrip(n);
  }

  /** A title with a leading blank is not a number: `toIntOrNull` does not trim. */
  lemma AlertLevelUntrimmed(title: string, rest: seq<string>)
    requires |title| > 0 && IsSpace(title[0])
    ensures AlertLevel([title] + rest).None?
  {
    assert !AllDigits(title) by { assert !IsDigit(title[0]); }
  }

  /**
   * The first earthquake-count paragraph, trimmed and without `"`: an
   * integer becomes a sentence about that many earthquakes, anything else
   * is kept as it is.
   */
  function SeismicityDescription(texts: seq<string>): (r: Option<string>)
    ensures r.None? <==> texts == []
    ensures r.Some? ==> NoQuote(r.value)
  {
    if texts == [] then None
    else
      var countText := CountText(texts[0]);
      match KotlinToIntOrNull(countText)
      case Some(n) =>
        NoQuoteInSentence(n);
        Some(IntToString(n) + EarthquakeSuffix)
      case None => Some(countText)
  }

  /** No `"` in `s`. */
  predicate NoQuote(s: string)
  {
    forall k :: 0 <= k < |s| ==> s[k] != '"'
  }

  /** The paragraph's text trimmed and with every `"` removed. */
  function CountText(text: string): (r: string)
    ensures NoQuote(r)
  {
    RemoveChar(Strip(text), '"')
  }

  /** The earthquake sentence holds no `"`. */
  lemma NoQuoteInSentence(n: int)
    ensures NoQuote(IntToString(n) + EarthquakeSuffix)
  {
    NoQuoteInNumber(n);
    var s := IntToString(n) + EarthquakeSuffix;
    forall k | 0 <= k < |s|
      ensures s[k] != '"'
    {
      if k >= |IntToString(n)| {
        assert s[k] == EarthquakeSuffix[k - |IntToString(n)|];
      }
    }
  }

  lemma NoQuoteInNumber(n: int)
    ensures NoQuote(IntToString(n))
  {
    var d := NatToString(if n < 0 then -n else n);
    assert forall k :: 0 <= k < |d| ==> IsDigit(d[k]);
    if n < 0 {
      assert IntToString(n) == "-" + d;
    }
  }

  /** A count, even quoted, becomes "<count> volcanic earthquakes occurred today". */
  lemma SeismicityOfCount(n: nat, rest: seq<string>)
    requires n <= IntMax
    ensures SeismicityDescription(["\"" + IntToString(n) + "\""] + rest)
         == Some(IntToString(n) + EarthquakeSuffix)
  {
    UnquoteNumber(n);
    IntToStringRoundTrip(n);
  }

  lemma UnquoteNumber(n: nat)
    ensures CountText("\"" + IntToString(n) + "\"") == IntToString(n)
  {
    var s := IntToString(n);
    var q := "\"";
    StripUnchanged(q + s + q);
    NoQuoteInNumber(n);
    RemoveCharAppend(q + s, q, '"');
    RemoveCharAppend(q, s, '"');
    assert RemoveChar(q, '"') == [];
  }

  /** Whether a cell has a bold label containing `name`, ignoring case (Jsoup's `:contains`). */
  predicate HasLabel(c: Cell, name: string, inParagraph: bool)
  {
    exists k :: 0 <= k < |c.bolds| &&
      (inParagraph ==> c.bolds[k].inParagraph) && Contains(Lower(c.bolds[k].text), Lower(name))
  }

  /** The trimmed first value paragraph after a cell, if there is one. */
  function CellValue(c: Cell): (r: Option<string>)
    ensures r.Some? <==> c.nextValues.Some? && c.nextValues.value != []
    ensures r.Some? ==> r.value == Strip(c.nextValues.value[0])
  {
    match c.nextValues
    case None => None
    case Some(vs) => if vs == [] then None else Some(Strip(vs[0]))
  }

  /**
   * The value of the first cell labelled `name`: absent when no cell has
   * the label, and absent too when that first cell has no value, even if a
   * later labelled cell has one.
   */
  function LabelledValue(cells: seq<Cell>, name: string, inParagraph: bool): (r: Option<string>)
    ensures (forall j :: 0 <= j < |cells| ==> !HasLabel(cells[j], name, inParagraph)) ==> r.None?
    ensures r.Some? ==> exists k: nat :: FirstLabelled(cells, name, inParagraph, k) && r == CellValue(cells[k])
    ensures r.Some? ==> |r.value| > 0 ==> !IsSpace(r.value[0]) && !IsSpace(r.value[|r.value| - 1])
  {
    match FirstWhere(cells, c => HasLabel(c, name, inParagraph))
    case None => None
    case Some(k) =>
      assert FirstLabelled(cells, name, inParagraph, k);
      CellValue(cells[k])
  }

  /** Cell `k` is the first cell labelled `name`. */
  predicate FirstLabelled(cells: seq<Cell>, name: string, inParagraph: bool, k: nat)
  {
    k < |cells| && HasLabel(cells[k], name, inParagraph)
    && forall j :: 0 <= j < k ==> !HasLabel(cells[j], name, inParagraph)
  }

  /** Once a labelled cell is found, later cells play no part. */
  lemma LabelledValueFirst(cells: seq<Cell>, more: seq<Cell>, name: string, inParagraph: bool)
    requires exists j :: 0 <= j < |cells| && HasLabel(cells[j], name, inParagraph)
    ensures LabelledValue(cells + more, name, inParagraph) == LabelledValue(cells, name, inParagraph)
  {
    var p := (c: Cell) => HasLabel(c, name, inParagraph);
    FirstWhereAppend(cells, more, p);
  }

  /** The text of the first article body that contains "WARNING:" in any case. */
  function WarningMessage(blocks: seq<Block>): (r: Option<string>)
    ensures r.None? <==> forall j :: 0 <= j < |blocks| ==> !Contains(Lower(blocks[j].text), "warning:")
    ensures r.Some? ==> exists k :: (0 <= k < |blocks| && r.value == blocks[k].text &&
      Contains(Lower(blocks[k].text), "warning:") &&
      forall j :: 0 <= j < k ==> !Contains(Lower(blocks[j].text), "warning:"))
  {
    match FirstWhere(blocks, (b: Block) => Contains(Lower(b.text), "warning:"))
    case None => None
    case Some(k) => Some(blocks[k].text)
  }

  /** What `parseMetricsFromDocument` returns for a page. */
  function Metrics(page: Page): VolcanicMetrics
  {
    VolcanicMetrics(
      AlertLevel(page.circleTitles), None, SeismicityDescription(page.seismicityTexts),
      LabelledValue(page.cells, So2Label, true), LabelledValue(page.cells, PlumeLabel, false),
      LabelledValue(page.cells, DeformationLabel, false), LabelledValue(page.cells, TemperatureLabel, false),
      LabelledValue(page.cells, AcidityLabel, false), None, None, None, WarningMessage(page.blocks))
  }

  /**
   * `parseMetricsFromDocument`: the twelve fields assigned one after the
   * other; the eruption chance and the three forecasts are never set.
   */
  method ParseMetricsFromDocument(page: Page) returns (m: VolcanicMetrics)
    ensures m == Metrics(page)
    ensures m.eruptionChance.None? && m.earthquakeForecast.None?
    ensures m.ashfallForecast.None? && m.smogForecast.None?
  {
    var alertLevel: Option<int> := None;
    var eruptionChance: Option<string> := None;
    var seismicityDescription: Option<string> := None;
    var so2Flux: Option<string> := None;
    var plumeDescription: Option<string> := None;
    var groundDeformation: Option<string> := None;
    var mainCraterLakeTemp: Option<string> := None;
    var mainCraterLakeAcidity: Option<string> := None;
    var earthquakeForecast: Option<string> := None;
    var ashfallForecast: Option<string> := None;
    var smogForecast: Option<string> := None;
    var warningMessage: Option<string> := None;

    alertLevel := AlertLevel(page.circleTitles);

    if page.seismicityTexts != [] {
      var countText := RemoveChar(Strip(page.seismicityTexts[0]), '"');
      var count := KotlinToIntOrNull(countText);
      if count.Some? {
        seismicityDescription := Some(IntToString(count.value) + EarthquakeSuffix);
      } else {
        seismicityDescription := Some(countText);
      }
    }

    so2Flux := LabelledValue(page.cells, So2Label, true);
    plumeDescription := LabelledValue(page.cells, PlumeLabel, false);
    groundDeformation := LabelledValue(page.cells, DeformationLabel, false);
    mainCraterLakeTemp := LabelledValue(page.cells, TemperatureLabel, false);
    mainCraterLakeAcidity := LabelledValue(page.cells, AcidityLabel, false);

    var warning := FirstWhere(page.blocks, (b: Block) => Contains(Lower(b.text), "warning:"));
    if warning.Some? {
      warningMessage := Some(page.blocks[warning.value].text);
    }

    m := VolcanicMetrics(alertLevel, eruptionChance, seismicityDescription, so2Flux,
                         plumeDescription, groundDeformation, mainCraterLakeTemp,
                         mainCraterLakeAcidity, earthquakeForecast, ashfallForecast,
                         smogForecast, warningMessage);
  }

  // ----------------------------------------------------------------- entries

  /** A link leaves the bulletin page unless its absolute url starts with the page's url. */
  predicate IsExternal(absHref: string)
  {
    !StartsWith(absHref, PageUrl)
  }

  /** Every other page of the site, the home page included, counts as external. */
  lemma ShorterUrlIsExternal(absHref: string)
    requires |absHref| < |PageUrl|
    ensures IsExternal(absHref)
  {
  }

  /** Fragments and query strings of the bulletin page itself stay internal. */
  lemma PageSuffixIsInternal(suffix: string)
    ensures !IsExternal(PageUrl + suffix)
  {
    assert (PageUrl + suffix)[..|PageUrl|] == PageUrl;
  }

  /** The anchors as links, in order. */
  function LinksOf(anchors: seq<Anchor>): (r: seq<LinkData>)
    ensures |r| == |anchors|
    ensures forall i :: 0 <= i < |r| ==> r[i].text == anchors[i].text && r[i].url == anchors[i].absHref
    ensures forall i :: 0 <= i < |r| ==> (r[i].isExternal <==> IsExternal(anchors[i].absHref))
  {
    if anchors == [] then []
    else [LinkData(anchors[0].text, anchors[0].absHref, IsExternal(anchors[0].absHref))] + LinksOf(anchors[1..])
  }

  /** The iframes with their titles and absolute srcs, in order. */
  function FramesOf(frames: seq<Frame>): (r: seq<IframeContent>)
    ensures |r| == |frames|
    ensures forall i :: 0 <= i < |r| ==> r[i] == IframeContent(frames[i].title, frames[i].absSrc)
  {
    if frames == [] then []
    else [IframeContent(frames[0].title, frames[0].absSrc)] + FramesOf(frames[1..])
  }

  /** The entry made for one article-body block. */
  function BlockEntry(page: Page, b: Block, metrics: VolcanicMetrics): ScrapedData
  {
    ScrapedData(page.title, b.text, LinksOf(b.anchors), FramesOf(b.frames), Some(metrics))
  }

  /**
   * `fetchVolcanoData` after the fetch: one entry per article-body block,
   * or, when there is none, one entry for the whole page. Every entry
   * carries the page title and the same metrics.
   */
  method FetchVolcanoData(page: Page) returns (entries: seq<ScrapedData>)
    ensures |entries| == if page.blocks == [] then 1 else |page.blocks|
    ensures page.blocks == [] ==> entries[0] == ScrapedData(page.title, page.bodyText,
      LinksOf(page.anchors), FramesOf(page.frames), Some(Metrics(page)))
    ensures forall i :: 0 <= i < |page.blocks| ==> entries[i] == BlockEntry(page, page.blocks[i], Metrics(page))
    ensures forall i :: 0 <= i < |entries| ==> entries[i].title == page.title && entries[i].parsedMetrics == Some(Metrics(page))
  {
    entries := [];
    var parsedMetrics := ParseMetricsFromDocument(page);
    if page.blocks == [] {
      entries := entries + [ScrapedData(page.title, page.bodyText, LinksOf(page.anchors),
                                        FramesOf(page.frames), Some(parsedMetrics))];
    } else {
      entries := BlockEntries(page, parsedMetrics);
    }
  }

  /** The loop over the article-body blocks: one entry per block, in order. */
  method BlockEntries(page: Page, parsedMetrics: VolcanicMetrics) returns (entries: seq<ScrapedData>)
    ensures |entries| == |page.blocks|
    ensures forall j :: 0 <= j < |page.blocks| ==> entries[j] == BlockEntry(page, page.blocks[j], parsedMetrics)
  {
    entries := [];
    var i := 0;
    while i < |page.blocks|
      invariant 0 <= i <= |page.blocks|
      invariant |entries| == i
      invariant forall j :: 0 <= j < i ==> entries[j] == BlockEntry(page, page.blocks[j], parsedMetrics)
    {
      var block := page.blocks[i];
      var scrapedData := ScrapedData(page.title, block.text, LinksOf(block.anchors),
                                     FramesOf(block.frames), Some(parsedMetrics));
      entries := entries + [scrapedData];
      i := i + 1;
    }
  }
}
