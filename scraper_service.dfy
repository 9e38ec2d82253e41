/**
 * The Android scraper of the mobile web-scraper app
 * (VolcanoScraperService.kt): field extraction from the page text, the
 * bulletin-link filter, the iframe decision and the success/failure
 * wrapping of a scrape.
 *
 * A page is abstracted to what the service reads from it: its title, its
 * whole text, the text of its bulletin content blocks, its anchors and its
 * first iframe. Fetching is a parameter (the page, or the message of the
 * exception raised), and so is the host that `java.net.URL` finds in a url.
 */
module ScraperService {
  import opened Wrappers
  import opened Text
  import opened Numbers
  import opened Scan

  /** The extracted fields (Models.kt): all absent and no observations by default. */
  datatype VolcanicData = VolcanicData(
    alertLevel: Option<int>,
    volcanicEarthquakes: Option<int>,
    gasEmissions: Option<real>,
    plumeActivity: Option<string>,
    observations: seq<string>)

  /** A bulletin link: its trimmed text, its absolute url and whether it leaves the site. */
  datatype LinkData = LinkData(text: string, url: string, isExternal: bool)

  /** What was fetched from the iframe: its data and images, or the error. */
  datatype IframeContent = IframeContent(
    url: string,
    error: Option<string>,
    volcanicData: Option<VolcanicData>,
    images: seq<string>)

  /** The outcome of a scrape (title, time stamp and metadata are not modelled). */
  datatype ScrapedData = ScrapedData(
    isSuccess: bool,
    errorMessage: Option<string>,
    title: string,
    volcanicData: VolcanicData,
    links: seq<LinkData>,
    iframeContent: Option<IframeContent>)

  /** An anchor: its text, its `abs:href` and the host `URL(href)` parses (None when it throws). */
  datatype Anchor = Anchor(text: string, absHref: string, host: Option<string>)

  /** An iframe: its `abs:src`. */
  datatype Frame = Frame(absSrc: string)

  /** What the service reads from a document. */
  datatype Document = Document(
    title: string,
    text: string,
    bulletinContent: string,
    anchors: seq<Anchor>,
    baseHost: Option<string>,
    iframes: seq<Frame>,
    imageSrcs: seq<string>)

  /** `VolcanicData()`: every field absent. */
  const NoData := VolcanicData(None, None, None, None, [])

  // ----------------------------------------------------------------- alert level

  /** `Alert Level ([0-5])` at `i`, case-sensitive: the end and the digit. */
  function AlertAt(t: string, i: nat): (r: Option<(nat, int)>)
    ensures r.Some? ==> OccursAt(t, "Alert Level ", i) && 0 <= r.value.1 <= 5
  {
    if OccursAt(t, "Alert Level ", i) && i + 12 < |t| && '0' <= t[i + 12] <= '5'
    then Some((i + 13, DigitValue(t[i + 12])))
    else None
  }

  /** The alert level: the digit after the leftmost "Alert Level ", written exactly so. */
  function AlertLevel(t: string): (r: Option<int>)
    ensures r.Some? ==> 0 <= r.value <= 5
    ensures r.Some? ==> exists i :: 0 <= i <= |t| && AlertAt(t, i).Some? && AlertAt(t, i).value.1 == r.value
                                  && forall j :: 0 <= j < i ==> AlertAt(t, j).None?
    ensures r.None? <==> forall i :: 0 <= i <= |t| ==> AlertAt(t, i).None?
  {
    First(t, AlertAt)
  }

  /** "Alert Level d" after a text without a capital A reads as `d`, whatever follows. */
  lemma AlertLevelOfPhrase(p: string, d: char, q: string)
    requires '0' <= d <= '5' && forall k :: 0 <= k < |p| ==> p[k] != 'A'
    ensures AlertLevel(p + "Alert Level " + [d] + q) == Some(DigitValue(d))
  {
    var t := p + "Alert Level " + [d] + q;
    forall j | 0 <= j < |p|
      ensures AlertAt(t, j).None?
    {
      if j + 12 <= |t| {
        assert t[j..j + 12][0] == t[j] == p[j];
      }
    }
    assert t[|p|..|p| + 12] == "Alert Level ";
    assert t[|p| + 12] == d;
    FirstAt(t, AlertAt, |p|);
  }

  /** Lower-case text never yields an alert level: the pattern is case-sensitive. */
  lemma AlertLevelCaseSensitive(t: string)
    requires forall k :: 0 <= k < |t| ==> !IsUpper(t[k])
    ensures AlertLevel(t) == None
  {
    forall i | 0 <= i <= |t|
      ensures AlertAt(t, i).None?
    {
      if i + 12 <= |t| {
        assert t[i..i + 12][0] == t[i];
      }
    }
  }

  // ------------------------------------------------------------- earthquakes

  /**
   * `(\d+)\s+volcanic\s+earthquake` at `i` on the lower-cased text: the end
   * and the digits. A digit is never whitespace, so the run is taken whole.
   */
  function EarthquakeAt(t: string, i: nat): (r: Option<(nat, string)>)
    ensures r.Some? ==> |r.value.1| > 0 && AllDigits(r.value.1)
  {
    if i >= |t| then None
    else
      var d := SkipDigits(t, i);
      var a := SkipSpaces(t, d);
      if d == i || a == d || !OccursAt(t, "volcanic", a) then None
      else
        var b := SkipSpaces(t, a + 8);
        if b == a + 8 || !OccursAt(t, "earthquake", b) then None
        else
          assert forall k :: 0 <= k < d - i ==> t[i..d][k] == t[i + k];
          Some((b + 10, t[i..d]))
  }

  /** The earthquake count, case-insensitive; absent when the digits exceed the `Int` range. */
  function VolcanicEarthquakes(text: string): (r: Option<int>)
    ensures r.Some? ==> 0 <= r.value <= IntMax
    ensures r.Some? ==> First(Lower(text), EarthquakeAt).Some?
                        && r.value == DigitsValue(First(Lower(text), EarthquakeAt).value)
    ensures First(Lower(text), EarthquakeAt).Some? && DigitsValue(First(Lower(text), EarthquakeAt).value) <= IntMax
            ==> r.Some?
  {
    match First(Lower(text), EarthquakeAt)
    case None => None
    case Some(digits) =>
      DigitsInRange(digits);
      KotlinToIntOrNull(digits)
  }

  /** A run of digits within the `Int` range reads as its value, and only such a run reads at all. */
  lemma DigitsInRange(s: string)
    requires |s| > 0 && AllDigits(s)
    ensures KotlinToIntOrNull(s).Some? <==> DigitsValue(s) <= IntMax
    ensures KotlinToIntOrNull(s).Some? ==> KotlinToIntOrNull(s).value == DigitsValue(s)
  {
    DigitsAreSigned(s);
  }

  /** "<n> volcanic earthquake" after a text without digits reads as `n`, within the `Int` range. */
  lemma EarthquakesOfPhrase(p: string, n: nat, q: string)
    requires n <= IntMax && NoDigits(p)
    ensures VolcanicEarthquakes(p + NatToString(n) + " volcanic earthquake" + q) == Some(n)
  {
    var d := NatToString(n);
    var m := d + " volcanic earthquake";
    LowerPhrase(p, d, q);
    EarthquakeAfterWords(Lower(p), d, Lower(q));
    DigitsInRange(d);
  }

  /** Lowering a digit-free text around digits and " volcanic earthquake" keeps the middle and no digits appear. */
  lemma LowerPhrase(p: string, d: string, q: string)
    requires NoDigits(p) && AllDigits(d)
    ensures NoDigits(Lower(p))
    ensures Lower(p + d + " volcanic earthquake" + q) == Lower(p) + d + " volcanic earthquake" + Lower(q)
  {
    var lp := Lower(p);
    forall j | 0 <= j < |lp|
      ensures !IsDigit(lp[j])
    {
      assert lp[j] == LowerChar(p[j]);
    }
    LowerNoUpper(d);
    LowerNoUpper(" volcanic earthquake");
    LowerAppend(p + d + " volcanic earthquake", q);
    LowerAppend(p + d, " volcanic earthquake");
    LowerAppend(p, d);
  }

  /** Digits then " volcanic earthquake", after words without digits: the first earthquake match is those digits. */
  lemma EarthquakeAfterWords(w: string, d: string, q: string)
    requires NoDigits(w) && |d| > 0 && AllDigits(d)
    ensures First(w + d + " volcanic earthquake" + q, EarthquakeAt) == Some(d)
  {
    var t := w + d + " volcanic earthquake" + q;
    var i := |w|;
    forall j | 0 <= j < i
      ensures EarthquakeAt(t, j).None?
    {
      assert t[j] == w[j];
    }
    EarthquakeAtPhrase(t, i, d);
    FirstAt(t, EarthquakeAt, i);
  }

  /** Where digits and " volcanic earthquake" stand at `i`, the earthquake match at `i` reads those digits. */
  lemma EarthquakeAtPhrase(t: string, i: nat, d: string)
    requires |d| > 0 && AllDigits(d) && OccursAt(t, d + " volcanic earthquake", i)
    ensures EarthquakeAt(t, i) == Some((i + |d| + 20, d))
  {
    var e := i + |d|;
    OccursAtSplit(t, d, " volcanic earthquake", i);
    assert t[i..e] == d;
    forall k | i <= k < e
      ensures IsDigit(t[k])
    {
      assert t[k] == t[i..e][k - i];
    }
    assert t[e] == ' ' by {
      assert t[e] == t[e..e + 20][0];
    }
    SkipDigitsFrom(t, i, e);
    assert " volcanic earthquake" == " " + "volcanic" + " " + "earthquake";
    OccursAtSplit(t, " " + "volcanic" + " ", "earthquake", e);
    OccursAtSplit(t, " " + "volcanic", " ", e);
    OccursAtSplit(t, " ", "volcanic", e);
    WordsSpaced(t, e);
    EarthquakeAtParts(t, i, e);
  }

  /** One space, "volcanic", one space, "earthquake" at `e`: each space is skipped alone. */
  lemma WordsSpaced(t: string, e: nat)
    requires OccursAt(t, " ", e) && OccursAt(t, "volcanic", e + 1) && OccursAt(t, " ", e + 9) && OccursAt(t, "earthquake", e + 10)
    ensures SkipSpaces(t, e) == e + 1 && SkipSpaces(t, e + 9) == e + 10
  {
    assert t[e] == t[e..e + 1][0];
    assert t[e + 1] == t[e + 1..e + 9][0];
    assert t[e + 9] == t[e + 9..e + 10][0];
    assert t[e + 10] == t[e + 10..e + 20][0];
    OneSpace(t, e);
    OneSpace(t, e + 9);
  }

  /** The earthquake match at `i` from its parts: the digit run ending at `e` and the spaced words after it. */
  lemma EarthquakeAtParts(t: string, i: nat, e: nat)
    requires i < e && e + 20 <= |t| && SkipDigits(t, i) == e
    requires SkipSpaces(t, e) == e + 1 && OccursAt(t, "volcanic", e + 1)
    requires SkipSpaces(t, e + 9) == e + 10 && OccursAt(t, "earthquake", e + 10)
    ensures EarthquakeAt(t, i) == Some((e + 20, t[i..e]))
  {
  }

  /** A single space before a non-space is skipped alone. */
  lemma OneSpace(s: string, i: nat)
    requires i + 1 < |s| && s[i] == ' ' && !IsSpace(s[i + 1])
    ensures SkipSpaces(s, i) == i + 1
  {
    assert SkipSpaces(s, i) == SkipSpaces(s, i + 1);
  }

  /** A run of digits reads, as a signed number, as its value. */
  lemma DigitsAreSigned(s: string)
    requires |s| > 0 && AllDigits(s)
    ensures SignedDigits(s) == Some(DigitsValue(s) as int)
  {
  }

  // ------------------------------------------------------------------- SO2 flux

  /**
   * `(\d+(?:\.\d+)?)[\s]*tons/day` at `i`, case-sensitive: the end and the
   * number text. The fraction is taken whenever a dot and a digit follow,
   * since neither a dot nor a digit can start `\s*tons`.
   */
  function So2At(t: string, i: nat): (r: Option<(nat, string)>)
    ensures r.Some? ==> i < |t| && IsDigit(t[i])
  {
    if i >= |t| then None
    else
      var a := SkipDigits(t, i);
      var b := if a + 1 < |t| && t[a] == '.' && IsDigit(t[a + 1]) then SkipDigits(t, a + 1) else a;
      var c := SkipSpaces(t, b);
      if a == i || !OccursAt(t, "tons/day", c) then None
      else Some((c + 8, t[i..b]))
  }

  /** The SO2 flux in tons per day: the leftmost number before "tons/day", read as a double. */
  function GasEmissions(text: string): (r: Option<real>)
    ensures r.Some? ==> First(text, So2At).Some? && r == KotlinToDouble(First(text, So2At).value)
    ensures First(text, So2At).None? ==> r.None?
  {
    match First(text, So2At)
    case None => None
    case Some(figure) => KotlinToDouble(figure)
  }

  /**
   * Commas are not thousands separators here: in "<digits>,<digits> tons/day"
   * only the digits after the comma are read.
   */
  lemma GroupedFluxReadsLastGroup(a: string, b: string)
    requires |a| >= 1 && AllDigits(a) && |b| >= 1 && AllDigits(b)
    ensures GasEmissions(a + "," + b + " tons/day") == Some(DigitsValue(b) as real)
  {
    FirstFluxAfterComma(a, b);
    ParseDecimalDigits(b);
  }

  /** The first flux match is the one after the comma. */
  lemma FirstFluxAfterComma(a: string, b: string)
    requires |a| >= 1 && AllDigits(a) && |b| >= 1 && AllDigits(b)
    ensures First(a + "," + b + " tons/day", So2At) == Some(b)
  {
    var t := a + "," + b + " tons/day";
    var k := |a| + 1;
    NoFluxBeforeComma(a, b);
    FluxAfterComma(a, b);
    assert So2At(t, k).Some? && forall j :: 0 <= j < k ==> So2At(t, j).None?;
    FirstAt(t, So2At, k);
  }

  /** No flux match starts in the digits before the comma, nor at the comma. */
  lemma NoFluxBeforeComma(a: string, b: string)
    requires |a| >= 1 && AllDigits(a) && |b| >= 1 && AllDigits(b)
    ensures forall j :: 0 <= j < |a| + 1 ==> So2At(a + "," + b + " tons/day", j).None?
  {
    var t := a + "," + b + " tons/day";
    assert t[|a|] == ',';
    forall j | 0 <= j < |a|
      ensures So2At(t, j).None?
    {
      assert t[j] == a[j];
      SkipDigitsFrom(t, j, |a|);
      assert !OccursAt(t, "tons/day", |a|) by { assert t[|a|..|a| + 8][0] == ','; }
    }
  }

  /** The flux pattern matches at the digits after the comma and captures them. */
  lemma FluxAfterComma(a: string, b: string)
    requires |a| >= 1 && AllDigits(a) && |b| >= 1 && AllDigits(b)
    ensures So2At(a + "," + b + " tons/day", |a| + 1) == Some((|a| + |b| + 10, b))
  {
    var t := a + "," + b + " tons/day";
    var start := |a| + 1;
    var e := start + |b|;
    assert t[start..e] == b;
    assert t[e] == ' ';
    forall k | start <= k < e ensures IsDigit(t[k]) {
      assert t[k] == b[k - start];
    }
    SkipDigitsFrom(t, start, e);
    assert t[e + 1..e + 9] == "tons/day";
    assert SkipSpaces(t, e + 1) == e + 1;
    assert SkipSpaces(t, e) == e + 1;
  }

  // ---------------------------------------------------------------- plume

  /**
   * `plume(?:s)?\s+(?:that\s+)?reach(?:ed|ing)?\s+([\d,]+)\s*meters` at `i`
   * on the lower-cased text: the end and the figure. Each optional part is
   * taken exactly when it is there, since the part after it cannot start
   * with its first letter.
   */
  function PlumeAt(t: string, i: nat): (r: Option<(nat, string)>)
    ensures r.Some? ==> IsReachFigure(r.value.1)
  {
    if !OccursAt(t, "plume", i) then None
    else
      var p := if OccursAt(t, "s", i + 5) then i + 6 else i + 5;
      var q := SkipSpaces(t, p);
      var q' := if OccursAt(t, "that", q) && SkipSpaces(t, q + 4) > q + 4 then SkipSpaces(t, q + 4) else q;
      if q == p || !OccursAt(t, "reach", q') then None
      else
        var u := if OccursAt(t, "ed", q' + 5) then q' + 7 else if OccursAt(t, "ing", q' + 5) then q' + 8 else q' + 5;
        var v := if u <= |t| then SkipSpaces(t, u) else u;
        if v == u || v > |t| then None
        else
          var w := SkipWhile(t, v, IsReachChar);
          if w == v || !OccursAt(t, "meters", SkipSpaces(t, w)) then None
          else
            ReachFigureRun(t, v, w);
            Some((SkipSpaces(t, w) + 6, t[v..w]))
  }

  /** `[0-9,]`. */
  predicate IsReachChar(c: char) { IsDigit(c) || c == ',' }

  /** A non-empty run of digits and commas. */
  predicate IsReachFigure(f: string)
  {
    |f| > 0 && forall k :: 0 <= k < |f| ==> IsReachChar(f[k])
  }

  /** A run of digits and commas in the text, taken out, is such a figure. */
  lemma ReachFigureRun(t: string, v: nat, w: nat)
    requires v < w <= |t| && forall k :: v <= k < w ==> IsReachChar(t[k])
    ensures IsReachFigure(t[v..w])
  {
    assert forall k :: 0 <= k < w - v ==> t[v..w][k] == t[v + k];
  }

  /** The plume text: the figure of the leftmost reach phrase, then " meters high". */
  function PlumeActivity(text: string): (r: Option<string>)
    ensures r.Some? <==> First(Lower(text), PlumeAt).Some?
    ensures r.Some? ==> r.value == First(Lower(text), PlumeAt).value + " meters high"
  {
    match First(Lower(text), PlumeAt)
    case None => None
    case Some(figure) => Some(figure + " meters high")
  }

  // --------------------------------------------------------------- observations

  const ServiceKeywords: seq<string> := ["seismic", "volcanic", "tremor", "earthquake", "emission", "activity"]

  /** The sentence names seismic / volcanic / tremor / earthquake / emission / activity, in any case. */
  predicate IsServiceObservation(s: string)
  {
    exists k :: 0 <= k < |ServiceKeywords| && Contains(Lower(s), ServiceKeywords[k])
  }

  /** The kept sentences, trimmed and ended with a full stop, in order. */
  function KeptSentences(pieces: seq<string>): (r: seq<string>)
    ensures |r| <= |pieces|
    ensures forall k :: 0 <= k < |r| ==> |r[k]| > 0 && r[k][|r[k]| - 1] == '.'
  {
    if pieces == [] then []
    else
      var init := pieces[..|pieces| - 1];
      var last := pieces[|pieces| - 1];
      var r := KeptSentences(init);
      if IsServiceObservation(last) then r + [Strip(last) + "."] else r
  }

  /** Exactly the sentences that name a keyword are kept. */
  lemma {:induction false} KeptSentencesExactly(pieces: seq<string>)
    ensures forall x :: x in KeptSentences(pieces) ==>
              exists p :: p in pieces && IsServiceObservation(p) && x == Strip(p) + "."
    ensures forall p :: p in pieces && IsServiceObservation(p) ==> Strip(p) + "." in KeptSentences(pieces)
  {
    if pieces != [] {
      var init := pieces[..|pieces| - 1];
      assert pieces == init + [pieces[|pieces| - 1]];
      KeptSentencesExactly(init);
    }
  }

  /** The first `n` elements, or all of them when there are fewer (Kotlin's `take`). */
  function Take<T>(xs: seq<T>, n: nat): (r: seq<T>)
    ensures |r| == if |xs| < n then |xs| else n
    ensures r == xs[..|r|]
  {
    if |xs| <= n then xs else xs[..n]
  }

  /** Whether a keyword occurs in the sentence, in any case (the regex `contains`). */
  method NamesKeyword(s: string) returns (b: bool)
    ensures b <==> IsServiceObservation(s)
  {
    var lower := Lower(s);
    b := false;
    var k := 0;
    while k < |ServiceKeywords| && !b
      invariant 0 <= k <= |ServiceKeywords|
      invariant b <==> exists m :: 0 <= m < k && Contains(lower, ServiceKeywords[m])
    {
      b := Contains(lower, ServiceKeywords[k]);
      k := k + 1;
    }
  }

  /** The `forEach` over the ". "-separated sentences of the bulletin content, then `take(5)`. */
  method CollectObservations(content: string) returns (obs: seq<string>)
    ensures obs == Take(KeptSentences(Split(content, ". ")), 5)
    ensures |obs| <= 5
  {
    var pieces := Split(content, ". ");
    var kept: seq<string> := [];
    var i := 0;
    while i < |pieces|
      invariant 0 <= i <= |pieces|
      invariant kept == KeptSentences(pieces[..i])
    {
      var sentence := pieces[i];
      assert pieces[..i + 1][..i] == pieces[..i];
      var keep := NamesKeyword(sentence);
      if keep {
        kept := kept + [Strip(sentence) + "."];
      }
      i := i + 1;
    }
    assert pieces[..|pieces|] == pieces;
    obs := Take(kept, 5);
  }

  /** The record read from a page: every field from its text, the first five kept sentences of its content blocks. */
  function PageData(doc: Document): VolcanicData
  {
    VolcanicData(AlertLevel(doc.text), VolcanicEarthquakes(doc.text), GasEmissions(doc.text),
                 PlumeActivity(doc.text), Take(KeptSentences(Split(doc.bulletinContent, ". ")), 5))
  }

  /** `extractVolcanicData(doc)`: every field from the page text, observations from the content blocks. */
  method ExtractVolcanicData(doc: Document) returns (data: VolcanicData)
    ensures data == VolcanicData(AlertLevel(doc.text), VolcanicEarthquakes(doc.text),
                                 GasEmissions(doc.text), PlumeActivity(doc.text),
                                 Take(KeptSentences(Split(doc.bulletinContent, ". ")), 5))
  {
    var observations := CollectObservations(doc.bulletinContent);
    data := VolcanicData(AlertLevel(doc.text), VolcanicEarthquakes(doc.text),
                         GasEmissions(doc.text), PlumeActivity(doc.text), observations);
  }

  // -------------------------------------------------------------------- links

  /** A Java line terminator, which `.` does not match. */
  predicate IsLineTerminator(c: char)
  {
    c == '\n' || c == '\r' || c == '\U{85}' || c == '\U{2028}' || c == '\U{2029}'
  }

  predicate NoLineTerminator(s: string)
  {
    forall k :: 0 <= k < |s| ==> !IsLineTerminator(s[k])
  }

  /** `\s+` at `i`: the end of a non-empty run of whitespace. */
  function SpacesAt(t: string, i: nat): (r: Option<nat>)
    ensures r.Some? ==> i < r.value <= |t|
  {
    if i > |t| then None
    else
      var j := SkipSpaces(t, i);
      if j == i then None else Some(j)
  }

  /**
   * `taal\s+volcano\s+(?:summary\s+of\s+)?24[-\s]?h(?:ou)?r\s+observation`
   * at `i` on the lower-cased text: the end of the phrase.
   */
  function TitleAt(t: string, i: nat): (r: Option<nat>)
    ensures r.Some? ==> i < r.value <= |t| && 11 <= r.value
    ensures r.Some? ==> OccursAt(t, "taal", i) && OccursAt(t, "observation", r.value - 11)
  {
    if !OccursAt(t, "taal", i) then None
    else match SpacesAt(t, i + 4)
      case None => None
      case Some(a) =>
        if !OccursAt(t, "volcano", a) then None
        else match SpacesAt(t, a + 7)
          case None => None
          case Some(b) => HoursAt(t, SummaryOfEnd(t, b))
  }

  /** `24[-\s]?h(?:ou)?r\s+observation` at `c`: the end of the phrase. */
  function HoursAt(t: string, c: nat): (r: Option<nat>)
    ensures r.Some? ==> c < r.value <= |t| && 11 <= r.value && OccursAt(t, "observation", r.value - 11)
  {
    if !OccursAt(t, "24", c) then None
    else
      var d := if c + 2 < |t| && (t[c + 2] == '-' || IsSpace(t[c + 2])) then c + 3 else c + 2;
      if !OccursAt(t, "h", d) then None
      else
        var e := if OccursAt(t, "ou", d + 1) then d + 3 else d + 1;
        if !OccursAt(t, "r", e) then None
        else match SpacesAt(t, e + 1)
          case None => None
          case Some(f) =>
            if OccursAt(t, "observation", f) then Some(f + 11) else None
  }

  /** `(?:summary\s+of\s+)?` at `b`: past the phrase when it is there, else `b`. */
  function SummaryOfEnd(t: string, b: nat): (r: nat)
    requires b <= |t|
    ensures b <= r <= |t|
  {
    if !OccursAt(t, "summary", b) then b
    else match SpacesAt(t, b + 7)
      case None => b
      case Some(p) =>
        if !OccursAt(t, "of", p) then b
        else match SpacesAt(t, p + 2)
          case None => b
          case Some(q) => q
  }

  /**
   * `linkText.matches(".*Taal\s+Volcano...Observation.*", IGNORE_CASE)`:
   * the phrase occurs, and the text before and after it holds no line
   * terminator.
   */
  predicate IsBulletinTitle(text: string)
  {
    var t := Lower(text);
    exists i :: 0 <= i <= |t| && TitleAt(t, i).Some?
                && NoLineTerminator(t[..i]) && NoLineTerminator(t[TitleAt(t, i).value..])
  }

  /** A bulletin title names Taal and an observation. */
  lemma BulletinTitleNames(text: string)
    requires IsBulletinTitle(text)
    ensures Contains(Lower(text), "taal") && Contains(Lower(text), "observation")
  {
    var t := Lower(text);
    var i :| 0 <= i <= |t| && TitleAt(t, i).Some?
             && NoLineTerminator(t[..i]) && NoLineTerminator(t[TitleAt(t, i).value..]);
    TitleNames(t, i);
  }

  /** A title match holds both words it is built around. */
  lemma TitleNames(t: string, i: nat)
    requires TitleAt(t, i).Some?
    ensures Contains(t, "taal") && Contains(t, "observation")
  {
    ContainsSlice(t, "taal", i);
    ContainsSlice(t, "observation", TitleAt(t, i).value - 11);
  }

  /** `isExternal`: the hosts differ; false when either url cannot be parsed. */
  function IsExternal(a: Anchor, baseHost: Option<string>): (r: bool)
    ensures r <==> a.host.Some? && baseHost.Some? && a.host.value != baseHost.value
  {
    match (a.host, baseHost)
    case (Some(h), Some(b)) => h != b
    case _ => false
  }

  /** The link an anchor gives, when its href is not blank and its trimmed text is a bulletin title. */
  function LinkOf(a: Anchor, baseHost: Option<string>): (r: Option<LinkData>)
    ensures r.Some? <==> !IsBlank(a.absHref) && IsBulletinTitle(Strip(a.text))
    ensures r.Some? ==> r.value.url == a.absHref && r.value.text == Strip(a.text)
  {
    var text := Strip(a.text);
    if !IsBlank(a.absHref) && IsBulletinTitle(text)
    then Some(LinkData(text, a.absHref, IsExternal(a, baseHost)))
    else None
  }

  /** `extractLinks`: the `mapNotNull` over the anchors, in document order. */
  function ExtractLinks(doc: Document): (r: seq<LinkData>)
    ensures |r| <= |doc.anchors|
    ensures forall l :: l in r <==> exists a :: a in doc.anchors && LinkOf(a, doc.baseHost) == Some(l)
  {
    var f := (a: Anchor) => LinkOf(a, doc.baseHost);
    MapNotNullExactly(doc.anchors, f);
    MapNotNull(doc.anchors, f)
  }

  /** Kotlin's `mapNotNull`: the present results of `f`, in order. */
  function MapNotNull<A, B>(xs: seq<A>, f: A -> Option<B>): (r: seq<B>)
    ensures |r| <= |xs|
  {
    if xs == [] then []
    else
      var rest := MapNotNull(xs[1..], f);
      match f(xs[0])
      case Some(y) => [y] + rest
      case None => rest
  }

  /** The results kept are exactly those some element yields. */
  lemma {:induction false} MapNotNullExactly<A, B>(xs: seq<A>, f: A -> Option<B>)
    ensures forall y :: y in MapNotNull(xs, f) <==> exists x :: x in xs && f(x) == Some(y)
  {
    if xs != [] {
      var tail := xs[1..];
      MapNotNullExactly(tail, f);
      forall y
        ensures y in MapNotNull(xs, f) <==> exists x :: x in xs && f(x) == Some(y)
      {
        if exists x :: x in xs && f(x) == Some(y) {
          var x :| x in xs && f(x) == Some(y);
          if x != xs[0] {
            assert x in tail;
          }
        }
      }
    }
  }

  // ------------------------------------------------------- iframe and scrape

  /** The non-blank image srcs of the iframe page. */
  function NonBlank(srcs: seq<string>): (r: seq<string>)
    ensures |r| <= |srcs|
    ensures forall s :: s in r <==> s in srcs && !IsBlank(s)
  {
    if srcs == [] then []
    else (if IsBlank(srcs[0]) then [] else [srcs[0]]) + NonBlank(srcs[1..])
  }

  /** The iframe entry: the first iframe's url, with the fetched page's record and images, or the error. */
  function IframeOf(doc: Document, fetch: Result<Document, Option<string>>): Option<IframeContent>
  {
    if doc.iframes == [] then None
    else match fetch
      case Failure(msg) => Some(IframeContent(doc.iframes[0].absSrc, Some("Failed to load iframe content: " + msg.GetOr("null")), None, []))
      case Success(frameDoc) => Some(IframeContent(doc.iframes[0].absSrc, None, Some(PageData(frameDoc)), NonBlank(frameDoc.imageSrcs)))
  }

  /**
   * `extractIframeContent`: none without an iframe; otherwise the first
   * iframe's url with either the fetched page's data and images or the
   * error. `fetch` is the fetch of that url: the page, or the exception's
   * message (`None` for a null message).
   */
  method ExtractIframeContent(doc: Document, fetch: Result<Document, Option<string>>)
    returns (r: Option<IframeContent>)
    ensures doc.iframes == [] <==> r.None?
    ensures r.Some? ==> r.value.url == doc.iframes[0].absSrc
    ensures r.Some? && fetch.Failure? ==>
              r.value.error == Some("Failed to load iframe content: " + fetch.error.GetOr("null"))
              && r.value.volcanicData.None? && r.value.images == []
    ensures r.Some? && fetch.Success? ==>
              r.value.error.None? && r.value.images == NonBlank(fetch.value.imageSrcs)
              && r.value.volcanicData == Some(PageData(fetch.value))
    ensures r == IframeOf(doc, fetch)
  {
    if doc.iframes == [] {
      return None;
    }
    var url := doc.iframes[0].absSrc;
    match fetch
    case Failure(msg) =>
      r := Some(IframeContent(url, Some("Failed to load iframe content: " + msg.GetOr("null")), None, []));
    case Success(frameDoc) =>
      var data := ExtractVolcanicData(frameDoc);
      r := Some(IframeContent(url, None, Some(data), NonBlank(frameDoc.imageSrcs)));
  }

  /**
   * `scrapeVolcanoData`: the scraped page, or `isSuccess = false` with
   * "Error: <message>" when fetching it raised.
   */
  method ScrapeVolcanoData(page: Result<Document, Option<string>>, deepScrape: bool,
                           frameFetch: Result<Document, Option<string>>)
    returns (r: ScrapedData)
    ensures r.isSuccess <==> page.Success?
    ensures page.Failure? ==> r == ScrapedData(false, Some("Error: " + page.error.GetOr("null")), "", NoData, [], None)
    ensures page.Success? ==> r.errorMessage.None? && r.title == page.value.title
                              && r.links == ExtractLinks(page.value)
                              && r.volcanicData == PageData(page.value)
    ensures page.Success? ==> r.iframeContent == if deepScrape then IframeOf(page.value, frameFetch) else None
  {
    match page
    case Failure(msg) =>
      r := ScrapedData(false, Some("Error: " + msg.GetOr("null")), "", NoData, [], None);
    case Success(doc) =>
      var data := ExtractVolcanicData(doc);
      var links := ExtractLinks(doc);
      var frame: Option<IframeContent> := None;
      if deepScrape {
        frame := ExtractIframeContent(doc, frameFetch);
      }
      r := ScrapedData(true, None, doc.title, data, links, frame);
  }
}
