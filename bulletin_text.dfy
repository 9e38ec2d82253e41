/**
 * Free-text extraction of a Taal bulletin page (`parse_volcanic_data` in
 * webscraper.py and its copy in webscraper/app.py) and the alert-level
 * colour used to display it (`get_alert_level_color`).
 *
 * Every pattern runs on the lower-cased text. Each regular expression is a
 * matcher anchored at a position (see module Scan); the comments say why
 * the backtracking of the original pattern cannot change the outcome.
 */
module BulletinText {
  import opened Wrappers
  import opened Text
  import opened Numbers
  import opened Scan

  /** The dictionary built for a non-empty text: seven keys, `None`/`[]` when not found. */
  datatype VolcanicData = VolcanicData(
    alertLevel: Option<nat>,
    volcanicEarthquakes: Option<nat>,
    gasEmissions: Option<real>,
    plumeActivity: Option<string>,
    groundDeformation: Option<string>,
    seismicActivity: Option<string>,
    observations: seq<string>)

  /**
   * What `parse_volcanic_data` does: `{}` for an empty text, the seven-key
   * dictionary, or the `ValueError` that `float()` raises on a malformed
   * gas figure (nothing catches it, so no dictionary is returned).
   */
  datatype ParseOutcome = NoText | Parsed(data: VolcanicData) | FloatError(figure: string)

  /** `[0-9,.]`: the characters of a number as the gas and plume patterns read it. */
  predicate IsFigureChar(c: char) { IsDigit(c) || c == ',' || c == '.' }

  /** A non-empty run of figure characters. */
  predicate IsFigure(f: string) { |f| > 0 && forall k :: 0 <= k < |f| ==> IsFigureChar(f[k]) }

  /** A run of figure characters in the text, taken out, is a figure. */
  lemma FigureRun(t: string, c: nat, d: nat)
    requires c < d <= |t| && forall k :: c <= k < d ==> IsFigureChar(t[k])
    ensures IsFigure(t[c..d])
  {
    assert forall k :: 0 <= k < d - c ==> t[c..d][k] == t[c + k];
  }

  // ---------------------------------------------------------------- alert level

  /**
   * `alert\s*level\s*[:\-]?\s*([0-5])` at `i`: the end of the match and the
   * digit. A space or a letter can never stand where `[:\-]` or `[0-5]` is
   * needed, so giving back whitespace never helps and the match is unique.
   */
  function AlertAt(t: string, i: nat): (r: Option<(nat, nat)>)
    ensures r.Some? ==> i < r.value.0 <= |t| && r.value.1 <= 5
    ensures r.Some? ==> OccursAt(t, "alert", i) && '0' <= t[r.value.0 - 1] <= '5'
  {
    if !OccursAt(t, "alert", i) then None
    else
      var a := SkipSpaces(t, i + 5);
      if !OccursAt(t, "level", a) then None
      else
        var b := SkipSpaces(t, a + 5);
        var c := if b < |t| && (t[b] == ':' || t[b] == '-') then SkipSpaces(t, b + 1) else b;
        if c < |t| && '0' <= t[c] <= '5' then Some((c + 1, DigitValue(t[c]))) else None
  }

  /** `result['alert_level']`: the digit of the leftmost alert-level phrase, an integer 0..5. */
  function AlertLevel(t: string): (r: Option<nat>)
    ensures r.Some? ==> r.value <= 5
    ensures r.Some? ==> exists i :: 0 <= i <= |t| && AlertAt(t, i).Some? && AlertAt(t, i).value.1 == r.value
                                  && forall j :: 0 <= j < i ==> AlertAt(t, j).None?
    ensures r.None? <==> forall i :: 0 <= i <= |t| ==> AlertAt(t, i).None?
  {
    First(t, AlertAt)
  }

  // ----------------------------------------------------------- earthquake count

  /**
   * `([0-9]+)\s*volcanic\s*earthquakes` at `i`: the end and the number. The
   * digit run is taken whole: a digit is neither whitespace nor `v`.
   */
  function EarthquakesAt(t: string, i: nat): (r: Option<(nat, nat)>)
    ensures r.Some? ==> i < r.value.0 <= |t| && IsDigit(t[i])
  {
    if i >= |t| then None
    else
      var d := SkipDigits(t, i);
      if d == i then None
      else
        var a := SkipSpaces(t, d);
        if !OccursAt(t, "volcanic", a) then None
        else
          var b := SkipSpaces(t, a + 8);
          if !OccursAt(t, "earthquakes", b) then None
          else
            assert AllDigits(t[i..d]) by { assert forall k :: 0 <= k < d - i ==> t[i..d][k] == t[i + k]; }
            Some((b + 11, DigitsValue(t[i..d])))
  }

  /** `result['volcanic_earthquakes']`: the number before the leftmost "volcanic earthquakes". */
  function VolcanicEarthquakes(t: string): (r: Option<nat>)
    ensures r.Some? ==> exists i :: 0 <= i <= |t| && EarthquakesAt(t, i).Some? && EarthquakesAt(t, i).value.1 == r.value
                                  && forall j :: 0 <= j < i ==> EarthquakesAt(t, j).None?
    ensures r.None? <==> forall i :: 0 <= i <= |t| ==> EarthquakesAt(t, i).None?
  {
    First(t, EarthquakesAt)
  }

  // ------------------------------------------------------------------ gas flux

  /**
   * `([0-9,.]+)\s*(?:tonnes|tons)(?:/|\s+per\s+)day` at `i`: the end and the
   * figure. Where "tonnes" occurs "tons" cannot, and a figure character is
   * neither whitespace nor `t`, so there is at most one way to match.
   */
  function GasAt(t: string, i: nat): (r: Option<(nat, string)>)
    ensures r.Some? ==> i < r.value.0 <= |t| && IsFigure(r.value.1)
  {
    if i >= |t| then None
    else
      var d := SkipWhile(t, i, IsFigureChar);
      if d == i then None
      else match GasUnitEnd(t, SkipSpaces(t, d))
        case None => None
        case Some(e) =>
          FigureRun(t, i, d);
          Some((e, t[i..d]))
  }

  /** `(?:tonnes|tons)(?:/|\s+per\s+)day` at `a`: the end of the unit. */
  function GasUnitEnd(t: string, a: nat): (r: Option<nat>)
    ensures r.Some? ==> a < r.value <= |t|
  {
    var u := if OccursAt(t, "tonnes", a) then a + 6 else if OccursAt(t, "tons", a) then a + 4 else 0;
    if u == 0 then None
    else if OccursAt(t, "/day", u) then Some(u + 4)
    else
      var p := SkipSpaces(t, u);
      if p == u || !OccursAt(t, "per", p) then None
      else
        var q := SkipSpaces(t, p + 3);
        if q == p + 3 || !OccursAt(t, "day", q) then None else Some(q + 3)
  }

  /**
   * `float(figure.replace(',', ''))`: the gas flux in tonnes per day, or
   * the figure that `float()` rejects.
   */
  function GasValue(figure: string): (r: Result<real, string>)
    ensures r.Success? <==> PyFloat(RemoveChar(figure, ',')).Some?
    ensures r.Success? ==> r.value == PyFloat(RemoveChar(figure, ',')).value
  {
    match PyFloat(RemoveChar(figure, ','))
    case Some(x) => Success(x)
    case None => Failure(figure)
  }

  /** Thousands separators are ignored: a figure of digits and commas reads as those digits. */
  lemma GasDigitsWithCommas(figure: string)
    requires forall k :: 0 <= k < |figure| ==> IsDigit(figure[k]) || figure[k] == ','
    requires exists k :: 0 <= k < |figure| && IsDigit(figure[k])
    ensures AllDigits(RemoveChar(figure, ',')) && |RemoveChar(figure, ',')| >= 1
    ensures GasValue(figure) == Success(DigitsValue(RemoveChar(figure, ',')) as real)
  {
    RemoveCommasKeepsDigits(figure);
    ParseDecimalDigits(RemoveChar(figure, ','));
  }

  lemma {:induction false} RemoveCommasKeepsDigits(s: string)
    requires forall k :: 0 <= k < |s| ==> IsDigit(s[k]) || s[k] == ','
    ensures AllDigits(RemoveChar(s, ','))
    ensures (exists k :: 0 <= k < |s| && IsDigit(s[k])) ==> |RemoveChar(s, ',')| >= 1
  {
    if s != [] {
      RemoveCommasKeepsDigits(s[1..]);
      if exists k :: 0 <= k < |s| && IsDigit(s[k]) {
        var k :| 0 <= k < |s| && IsDigit(s[k]);
        if k > 0 {
          assert s[1..][k - 1] == s[k];
        }
      }
    }
  }

  /** A thousands-grouped figure with a decimal part ("1,234.5") reads as integer part + fraction. */
  lemma GasGroupedDecimal(whole: string, frac: string)
    requires |whole| >= 1 && forall k :: 0 <= k < |whole| ==> IsDigit(whole[k]) || whole[k] == ','
    requires IsDigit(whole[0]) && AllDigits(frac)
    ensures AllDigits(RemoveChar(whole, ','))
    ensures GasValue(whole + "." + frac) == Success(DecimalValue(RemoveChar(whole, ','), frac))
  {
    var w := RemoveChar(whole, ',');
    assert AllDigits(w) && |w| >= 1 by {
      RemoveCommasKeepsDigits(whole);
      assert IsDigit(whole[0]);
    }
    assert RemoveChar(whole + "." + frac, ',') == w + "." + frac by {
      RemoveCommasFraction(whole, frac);
    }
    PyFloatFraction(w, frac);
  }

  lemma RemoveCommasFraction(whole: string, frac: string)
    requires AllDigits(frac)
    ensures RemoveChar(whole + "." + frac, ',') == RemoveChar(whole, ',') + "." + frac
  {
    RemoveCharAppend(whole + ".", frac, ',');
    RemoveCharAppend(whole, ".", ',');
    assert RemoveChar(".", ',') == ".";
    assert RemoveChar(frac, ',') == frac;
  }

  /** A figure without any digit ("." or ",") makes `float()` raise. */
  lemma GasNoDigitsRaises(figure: string)
    requires forall k :: 0 <= k < |figure| ==> figure[k] == ',' || figure[k] == '.'
    ensures GasValue(figure).Failure?
  {
    var s := RemoveChar(figure, ',');
    assert forall k :: 0 <= k < |s| ==> s[k] == '.' by {
      RemoveCharOnly(figure);
    }
    NoDigitsNotDecimal(Strip(s));
  }

  lemma {:induction false} RemoveCharOnly(s: string)
    requires forall k :: 0 <= k < |s| ==> s[k] == ',' || s[k] == '.'
    ensures forall k :: 0 <= k < |RemoveChar(s, ',')| ==> RemoveChar(s, ',')[k] == '.'
  {
    if s != [] {
      RemoveCharOnly(s[1..]);
    }
  }

  lemma NoDigitsNotDecimal(s: string)
    requires forall k :: 0 <= k < |s| ==> s[k] == '.'
    ensures ParseDecimal(s) == None
  {
    if |s| > 0 {
      assert SkipDigits(s, 0) == 0;
      if |s| > 1 {
        assert !IsDigit(s[1..][0]);
      }
    }
  }

  // --------------------------------------------------------------- plume height

  /**
   * `plume(?:s)?\s*(?:of\s*)?([0-9,.]+)\s*(?:to\s*[0-9,.]+\s*)?(?:meter|m)\s*(?:high|tall|in height)`
   * at `i`: the end and the first figure. Each optional part starts with a
   * character its alternative cannot start with, so taking it whenever it
   * is there is the only way to match. After "meter" the unit may not be
   * followed by an `s`: "500 meters high" does not match.
   */
  function PlumeAt(t: string, i: nat): (r: Option<(nat, string)>)
    ensures r.Some? ==> PlumeFigureAt(t, i, r.value.0, r.value.1)
  {
    match FigureStart(t, i)
    case None => None
    case Some(c) =>
      var d := SkipWhile(t, c, IsFigureChar);
      if d == c then None
      else match RangeEnd(t, d)
        case None => None
        case Some(h) =>
          match HeightUnitEnd(t, h)
          case None => None
          case Some(e) =>
            FigureRun(t, c, d);
            Some((e, t[c..d]))
  }

  /** A plume phrase from `i` to `e` whose figure is `f`. */
  predicate PlumeFigureAt(t: string, i: nat, e: nat, f: string)
  {
    i < e <= |t| && OccursAt(t, "plume", i) && IsFigure(f)
  }

  /** `plume(?:s)?\s*(?:of\s*)?` at `i`: where the figure must start. */
  function FigureStart(t: string, i: nat): (r: Option<nat>)
    ensures r.Some? ==> OccursAt(t, "plume", i) && i + 5 <= r.value <= |t|
  {
    if !OccursAt(t, "plume", i) then None
    else
      var a := if i + 5 < |t| && t[i + 5] == 's' then i + 6 else i + 5;
      var b := SkipSpaces(t, a);
      Some(if OccursAt(t, "of", b) then SkipSpaces(t, b + 2) else b)
  }

  /** `\s*(?:to\s*[0-9,.]+\s*)?` at `d`: where the unit must start. */
  function RangeEnd(t: string, d: nat): (r: Option<nat>)
    requires d <= |t|
    ensures r.Some? ==> d <= r.value <= |t|
  {
    var e := SkipSpaces(t, d);
    if OccursAt(t, "to", e) then
      var f := SkipSpaces(t, e + 2);
      var g := SkipWhile(t, f, IsFigureChar);
      if g == f then None else Some(SkipSpaces(t, g))
    else Some(e)
  }

  /**
   * `(?:meter|m)\s*(?:high|tall|in height)` at `h`: the end of the match.
   * Where "meter" occurs the bare `m` is followed by `e`, which can start
   * neither whitespace nor any of the three words.
   */
  function HeightUnitEnd(t: string, h: nat): (r: Option<nat>)
    requires h <= |t|
    ensures r.Some? ==> h < r.value <= |t|
  {
    var k := if OccursAt(t, "meter", h) then h + 5 else if h < |t| && t[h] == 'm' then h + 1 else 0;
    if k == 0 then None
    else
      var l := SkipSpaces(t, k);
      if OccursAt(t, "high", l) || OccursAt(t, "tall", l) then Some(l + 4)
      else if OccursAt(t, "in height", l) then Some(l + 9)
      else None
  }

  /** `result['plume_activity']`: the leftmost plume figure followed by " meters". */
  function PlumeActivity(t: string): (r: Option<string>)
    ensures r.Some? ==> exists i :: 0 <= i <= |t| && PlumeAt(t, i).Some? && r.value == PlumeAt(t, i).value.1 + " meters"
                                  && forall j :: 0 <= j < i ==> PlumeAt(t, j).None?
    ensures r.None? <==> forall i :: 0 <= i <= |t| ==> PlumeAt(t, i).None?
  {
    match First(t, PlumeAt)
    case Some(figure) => Some(figure + " meters")
    case None => None
  }

  /**
   * The plural unit is refused: where "meters" stands, neither "meter" nor
   * "m" can be followed by the height word, so "500 meters high" gives no
   * plume figure.
   */
  lemma PluralMetersRejected(t: string, h: nat)
    requires OccursAt(t, "meters", h)
    ensures HeightUnitEnd(t, h).None?
  {
    assert t[h..h + 5] == t[h..h + 6][..5] == "meter";
    assert t[h + 5] == t[h..h + 6][5] == 's';
    assert SkipSpaces(t, h + 5) == h + 5;
  }

  // ------------------------------------------------------- deformation, seismic

  const DeformationWords: seq<string> := ["inflation", "deflation", "uplift", "subsidence", "bulging"]
  const StructureWords: seq<string> := ["main crater", "edifice", "volcanic edifice"]
  const LeadingStructureWords: seq<string> := ["main crater", "volcanic edifice"]
  const TrendWords: seq<string> := ["increased", "decreased", "remained", "stable", "unstable"]

  /**
   * A group of alternatives `(w1|w2|...)` at `i`: the end of the first
   * word, in list order, that occurs there. In every group used here the
   * words start with different letters, so at most one of them occurs.
   */
  function WordAt(t: string, i: nat, words: seq<string>): (r: Option<nat>)
    ensures r.Some? ==> exists k :: 0 <= k < |words| && OccursAt(t, words[k], i) && r.value == i + |words[k]|
    ensures r.None? ==> forall k :: 0 <= k < |words| ==> !OccursAt(t, words[k], i)
    ensures r.Some? && LowerInitials(words) ==> i < r.value <= |t| && IsLower(t[i])
  {
    if words == [] then None
    else if OccursAt(t, words[0], i) then Some(i + |words[0]|)
    else
      var r := WordAt(t, i, words[1..]);
      assert forall k :: 1 <= k < |words| ==> words[k] == words[1..][k - 1];
      r
  }

  /** Every word is non-empty and starts with a lower-case letter. */
  predicate LowerInitials(words: seq<string>)
  {
    forall k :: 0 <= k < |words| ==> |words[k]| > 0 && IsLower(words[k][0])
  }

  /** `seismic\s*activity` at `i`: the end of the phrase. */
  function SeismicPhraseAt(t: string, i: nat): (r: Option<nat>)
    ensures r.Some? ==> i < r.value <= |t| && IsLower(t[i])
    ensures r.Some? ==> OccursAt(t, "seismic", i) && i + 7 < r.value
  {
    if !OccursAt(t, "seismic", i) then None
    else
      assert t[i] == t[i..i + 7][0];
      var a := SkipSpaces(t, i + 7);
      if OccursAt(t, "activity", a) then Some(a + 8) else None
  }

  /** `.` of a Python pattern: any character except a line feed. */
  predicate NotNewline(c: char) { c != '\n' }

  /**
   * `.{1,n}` followed by `next`, at `a`: greedy, so the longest gap of
   * 1..n characters (none of them a line feed) after which `next` matches.
   * The result is that gap's length.
   */
  function LongestGap(t: string, a: nat, n: nat, next: (string, nat) -> Option<nat>): (r: Option<nat>)
    requires a <= |t|
    ensures r.Some? ==> 1 <= r.value <= n && a + r.value <= |t| && next(t, a + r.value).Some?
    ensures r.Some? ==> forall k :: a <= k < a + r.value ==> NotNewline(t[k])
    ensures forall l :: (if r.Some? then r.value else 0) < l <= n && Gap(t, a, l) ==> next(t, a + l).None?
  {
    var run := SkipWhile(t, a, NotNewline) - a;
    var limit := if run < n then run else n;
    var fits := (l: nat) => a + l <= |t| && next(t, a + l).Some?;
    var r := Greatest(1, limit, fits);
    forall l | (if r.Some? then r.value else 0) < l <= n && Gap(t, a, l)
      ensures next(t, a + l).None?
    {
      SkipWhileCovers(t, a, l, NotNewline);
      assert l <= limit;
      assert !fits(l);
    }
    r
  }

  /** `t[a..a+l]` exists and holds no line feed: what `.{l}` can match at `a`. */
  predicate Gap(t: string, a: nat, l: nat)
  {
    a + l <= |t| && forall k :: a <= k < a + l ==> NotNewline(t[k])
  }

  /**
   * `(first).{1,n}(second)` at `i`, where `first` and `second` are matchers
   * giving the end of what they match (always past where they start).
   */
  function PairAt(t: string, i: nat, first: (string, nat) -> Option<nat>, n: nat,
                  second: (string, nat) -> Option<nat>): (r: Option<(nat, ())>)
    ensures r.Some? ==> first(t, i).Some? && i < first(t, i).value < r.value.0 <= |t|
    ensures r.Some? ==> exists j: nat :: first(t, i).value < j < r.value.0 && second(t, j) == Some(r.value.0)
  {
    if i > |t| then None
    else match first(t, i)
      case None => None
      case Some(a) =>
        if a <= i || a > |t| then None
        else match LongestGap(t, a, n, second)
          case None => None
          case Some(l) =>
            var e := second(t, a + l).value;
            if a + l < e <= |t| then Some((e, ())) else None
  }

  /** `(inflation|...|bulging).{1,50}(main crater|edifice|volcanic edifice)` at `i`. */
  function DeformationFirst(t: string, i: nat): (r: Option<(nat, ())>)
    ensures r.Some? ==> i < r.value.0 <= |t| && IsLower(t[i])
    ensures r.Some? ==> WordAt(t, i, DeformationWords).Some? && WordAt(t, i, DeformationWords).value < r.value.0
    ensures r.Some? ==> exists j: nat :: i < j < r.value.0 && WordAt(t, j, StructureWords) == Some(r.value.0)
  {
    assert LowerInitials(DeformationWords);
    PairAt(t, i, (s, p) => WordAt(s, p, DeformationWords), 50, (s, p) => WordAt(s, p, StructureWords))
  }

  /** `(main crater|volcanic edifice).{1,50}(inflation|...|bulging)` at `i`. */
  function DeformationSecond(t: string, i: nat): (r: Option<(nat, ())>)
    ensures r.Some? ==> i < r.value.0 <= |t| && IsLower(t[i])
    ensures r.Some? ==> WordAt(t, i, LeadingStructureWords).Some? && WordAt(t, i, LeadingStructureWords).value < r.value.0
    ensures r.Some? ==> exists j: nat :: i < j < r.value.0 && WordAt(t, j, DeformationWords) == Some(r.value.0)
  {
    assert LowerInitials(LeadingStructureWords);
    PairAt(t, i, (s, p) => WordAt(s, p, LeadingStructureWords), 50, (s, p) => WordAt(s, p, DeformationWords))
  }

  /** `(seismic\s*activity).{1,100}(increased|...|unstable)` at `i`. */
  function SeismicFirst(t: string, i: nat): (r: Option<(nat, ())>)
    ensures r.Some? ==> i < r.value.0 <= |t| && IsLower(t[i])
    ensures r.Some? ==> SeismicPhraseAt(t, i).Some? && SeismicPhraseAt(t, i).value < r.value.0
    ensures r.Some? ==> exists j: nat :: i < j < r.value.0 && WordAt(t, j, TrendWords) == Some(r.value.0)
  {
    PairAt(t, i, SeismicPhraseAt, 100, (s, p) => WordAt(s, p, TrendWords))
  }

  /** `(increased|...|unstable).{1,100}(seismic\s*activity)` at `i`. */
  function SeismicSecond(t: string, i: nat): (r: Option<(nat, ())>)
    ensures r.Some? ==> i < r.value.0 <= |t| && IsLower(t[i])
    ensures r.Some? ==> WordAt(t, i, TrendWords).Some? && WordAt(t, i, TrendWords).value < r.value.0
    ensures r.Some? ==> exists j: nat :: i < j < r.value.0 && SeismicPhraseAt(t, j) == Some(r.value.0)
  {
    assert LowerInitials(TrendWords);
    PairAt(t, i, (s, p) => WordAt(s, p, TrendWords), 100, SeismicPhraseAt)
  }

  /** `[^.!?]*[.!?]` at `q`: the end just past the next terminator, if there is one. */
  function TailAt(t: string, q: nat): (r: Option<nat>)
    ensures r.Some? ==> q < r.value <= |t| && IsTerminator(t[r.value - 1])
    ensures r.Some? ==> forall k :: q <= k < r.value - 1 ==> !IsTerminator(t[k])
    ensures r.None? ==> forall k :: q <= k < |t| ==> !IsTerminator(t[k])
  {
    if q > |t| then None
    else
      var e := SkipWhile(t, q, c => !IsTerminator(c));
      if e < |t| then Some(e + 1) else None
  }

  /**
   * `[^.!?]*` + escape(g) + `[^.!?]*[.!?]` at `st`: the leading run of
   * non-terminators is greedy, so `g` is placed at the last position in
   * that run from which the rest still matches.
   */
  function SentenceAt(t: string, g: string, st: nat): (r: Option<(nat, nat)>)
    ensures r.Some? ==> st < r.value.0 <= |t| && IsTerminator(t[r.value.0 - 1])
    ensures r.Some? ==> var p := r.value.1;
                        st <= p && p + |g| < r.value.0 && OccursAt(t, g, p)
                        && (forall k :: st <= k < p ==> !IsTerminator(t[k]))
                        && (forall k :: p + |g| <= k < r.value.0 - 1 ==> !IsTerminator(t[k]))
  {
    if st > |t| then None
    else
      var run := SkipWhile(t, st, c => !IsTerminator(c));
      match Greatest(st, run, (p: nat) => OccursAt(t, g, p) && TailAt(t, p + |g|).Some?)
      case None => None
      case Some(p) => Some((TailAt(t, p + |g|).value, p))
  }

  /** The stripped, capitalised sentence keeps its terminator and the phrase it was found by. */
  lemma SentenceText(t: string, g: string, st: nat, e: nat, p: nat)
    requires forall k :: 0 <= k < |t| ==> !IsUpper(t[k])
    requires |g| > 0 && !IsSpace(g[0])
    requires st <= p && p + |g| < e <= |t| && OccursAt(t, g, p) && IsTerminator(t[e - 1])
    ensures |Tidy(t[st..e])| > 0 && IsTerminator(Tidy(t[st..e])[|Tidy(t[st..e])| - 1])
    ensures Contains(Lower(Tidy(t[st..e])), g)
  {
    var x := t[st..e];
    var o: nat := p - st;
    assert OccursAt(x, g, o) by {
      assert x[o..o + |g|] == t[p..p + |g|];
    }
    assert IsTerminator(x[|x| - 1]) by {
      assert x[|x| - 1] == t[e - 1];
    }
    assert forall k :: 0 <= k < |x| ==> !IsUpper(x[k]) by {
      forall k | 0 <= k < |x| ensures !IsUpper(x[k]) {
        assert x[k] == t[st + k];
      }
    }
    CleanSentence(x, g, o);
  }

  /** Python's `s.strip().capitalize()`. */
  function Tidy(s: string): string
  {
    Capitalize(Strip(s))
  }

  /** `strip().capitalize()` of a lower-case sentence ending in a terminator. */
  lemma CleanSentence(x: string, g: string, o: nat)
    requires |g| > 0 && !IsSpace(g[0]) && OccursAt(x, g, o)
    requires IsTerminator(x[|x| - 1])
    requires forall k :: 0 <= k < |x| ==> !IsUpper(x[k])
    ensures |Tidy(x)| > 0 && IsTerminator(Tidy(x)[|Tidy(x)| - 1]) && Contains(Lower(Tidy(x)), g)
  {
    StripSentence(x, g, o);
    CapitalizeSentence(Strip(x), g);
    assert Tidy(x) == Capitalize(Strip(x));
  }

  lemma StripSentence(x: string, g: string, o: nat)
    requires |g| > 0 && !IsSpace(g[0]) && OccursAt(x, g, o)
    requires IsTerminator(x[|x| - 1])
    requires forall k :: 0 <= k < |x| ==> !IsUpper(x[k])
    ensures |Strip(x)| > 0 && IsTerminator(Strip(x)[|Strip(x)| - 1]) && Contains(Strip(x), g)
    ensures forall k :: 0 <= k < |Strip(x)| ==> !IsUpper(Strip(x)[k])
  {
    StripKeepsPhrase(x, g, o);
    var a0 := SkipSpaces(x, 0);
    var y := Strip(x);
    forall k | 0 <= k < |y| ensures !IsUpper(y[k]) {
      assert y[k] == x[a0 + k];
    }
  }

  lemma CapitalizeSentence(y: string, g: string)
    requires |y| > 0 && IsTerminator(y[|y| - 1]) && Contains(y, g)
    requires forall k :: 0 <= k < |y| ==> !IsUpper(y[k])
    ensures |Capitalize(y)| > 0 && IsTerminator(Capitalize(y)[|y| - 1])
    ensures Contains(Lower(Capitalize(y)), g)
  {
    CapitalizeKeepsEnd(y);
    LowerCapitalize(y);
  }

  /** Stripping a text that ends in a non-space keeps a phrase that starts with a non-space. */
  lemma StripKeepsPhrase(x: string, g: string, o: nat)
    requires |g| > 0 && !IsSpace(g[0]) && OccursAt(x, g, o)
    requires !IsSpace(x[|x| - 1])
    ensures Strip(x) == x[SkipSpaces(x, 0)..]
    ensures |Strip(x)| > 0 && Strip(x)[|Strip(x)| - 1] == x[|x| - 1]
    ensures Contains(Strip(x), g)
  {
    var a := SkipSpaces(x, 0);
    assert x[o] == g[0] by { assert x[o..o + |g|][0] == x[o]; }
    assert a <= o;
    assert TrimEnd(x, a, |x|) == |x|;
    var y := x[a..];
    assert Strip(x) == y;
    assert y[o - a..o - a + |g|] == x[o..o + |g|];
    assert OccursAt(y, g, o - a);
  }

  /** Capitalising leaves a final terminator in place. */
  lemma CapitalizeKeepsEnd(y: string)
    requires |y| > 0 && IsTerminator(y[|y| - 1])
    ensures |Capitalize(y)| > 0 && IsTerminator(Capitalize(y)[|y| - 1])
  {
    var c := Capitalize(y);
    if |y| > 1 {
      assert c[|c| - 1] == Lower(y[1..])[|y| - 2] == LowerChar(y[|y| - 1]);
    }
  }

  /**
   * The sentence around the phrase `g`: the leftmost match of the sentence
   * pattern, stripped and capitalised. It contains `g` and ends with a
   * terminator.
   */
  function SentenceAround(t: string, g: string): (r: Option<string>)
    requires forall k :: 0 <= k < |t| ==> !IsUpper(t[k])
    requires |g| > 0 && !IsSpace(g[0])
    ensures r.Some? ==> IsSentenceAbout(r.value, g)
  {
    match Search(t, SentenceMatcher(g), 0)
    case None => None
    case Some(f) =>
      SentenceMatched(t, g, f);
      Some(TidySentence(t, g, f.start, f.end, f.value))
  }

  /** The sentence pattern around `g`, as a matcher capturing where `g` is. */
  function SentenceMatcher(g: string): Matcher<nat>
  {
    (s, st) => SentenceAt(s, g, st)
  }

  /** A match of the sentence pattern is a sentence around `g`. */
  lemma SentenceMatched(t: string, g: string, f: Found<nat>)
    requires MatchesAt(t, SentenceMatcher(g), f)
    ensures SentenceSpan(t, g, f.start, f.end, f.value)
  {
    assert SentenceAt(t, g, f.start) == Some((f.end, f.value));
  }

  /** A non-empty sentence ending with a terminator that mentions `g` in any case. */
  predicate IsSentenceAbout(s: string, g: string)
  {
    |s| > 0 && IsTerminator(s[|s| - 1]) && Contains(Lower(s), g)
  }

  /** `t[st..e]` is a sentence ending with a terminator, with `g` at `p` inside it. */
  predicate SentenceSpan(t: string, g: string, st: nat, e: nat, p: nat)
  {
    st <= p && p + |g| < e <= |t| && OccursAt(t, g, p) && IsTerminator(t[e - 1])
  }

  /** The sentence from `st` to `e`, stripped and capitalised, around `g` at `p`. */
  function TidySentence(t: string, g: string, st: nat, e: nat, p: nat): (r: string)
    requires forall k :: 0 <= k < |t| ==> !IsUpper(t[k])
    requires |g| > 0 && !IsSpace(g[0])
    requires SentenceSpan(t, g, st, e, p)
    ensures r == Tidy(t[st..e])
    ensures IsSentenceAbout(r, g)
  {
    SentenceText(t, g, st, e, p);
    Tidy(t[st..e])
  }

  // ---------------------------------------------- deformation and seismic text

  /** The text has no upper-case letter (it is the output of `lower()`). */
  predicate NoUpper(t: string)
  {
    forall k :: 0 <= k < |t| ==> !IsUpper(t[k])
  }

  /** The phrase a pattern matched: `match.group(0)`. */
  function Phrase<T>(t: string, f: Found<T>): string
    requires f.start <= f.end <= |t|
  {
    t[f.start..f.end]
  }

  /**
   * The match a report is built from: the patterns are tried in order and
   * the loop breaks at the first that matches anywhere.
   */
  function DeformationMatch(t: string): (r: Option<Found<()>>)
    ensures r.Some? ==> r.value.start < r.value.end <= |t| && IsLower(t[r.value.start])
    ensures r.Some? ==> MatchesAt(t, DeformationFirst, r.value) || MatchesAt(t, DeformationSecond, r.value)
  {
    var r := SearchEither(t, DeformationFirst, DeformationSecond);
    if r.Some? then
      DeformationMatchShape(t, r.value);
      r
    else r
  }

  function SeismicMatch(t: string): (r: Option<Found<()>>)
    ensures r.Some? ==> r.value.start < r.value.end <= |t| && IsLower(t[r.value.start])
    ensures r.Some? ==> MatchesAt(t, SeismicFirst, r.value) || MatchesAt(t, SeismicSecond, r.value)
  {
    var r := SearchEither(t, SeismicFirst, SeismicSecond);
    if r.Some? then
      SeismicMatchShape(t, r.value);
      r
    else r
  }

  lemma DeformationMatchShape(t: string, f: Found<()>)
    requires MatchesAt(t, DeformationFirst, f) || MatchesAt(t, DeformationSecond, f)
    ensures f.start < f.end <= |t| && IsLower(t[f.start])
  {
  }

  /** A seismic match is a non-empty phrase starting with a lower-case letter. */
  lemma SeismicMatchShape(t: string, f: Found<()>)
    requires MatchesAt(t, SeismicFirst, f) || MatchesAt(t, SeismicSecond, f)
    ensures f.start < f.end <= |t| && IsLower(t[f.start])
  {
  }

  /**
   * The sentence around a match, stripped and capitalised: it ends with a
   * terminator and contains the matched phrase. None when no pattern
   * matched, and also when the sentence pattern fails: the loop has already
   * stopped at the first pattern that matched.
   */
  function SentenceOfMatch(t: string, f: Option<Found<()>>): (r: Option<string>)
    requires NoUpper(t)
    requires f.Some? ==> f.value.start < f.value.end <= |t| && IsLower(t[f.value.start])
    ensures r.Some? ==> f.Some? && IsSentenceAbout(r.value, Phrase(t, f.value))
  {
    match f
    case None => None
    case Some(m) =>
      var g := Phrase(t, m);
      assert g[0] == t[m.start];
      SentenceAround(t, g)
  }

  /**
   * `ground_deformation`: the cleaned sentence around the first deformation
   * match, none without a match.
   */
  function GroundDeformation(t: string): (r: Option<string>)
    requires NoUpper(t)
    ensures DeformationMatch(t).None? ==> r.None?
    ensures r.Some? ==> DeformationMatch(t).Some? && IsSentenceAbout(r.value, Phrase(t, DeformationMatch(t).value))
  {
    SentenceOfMatch(t, DeformationMatch(t))
  }

  /**
   * `seismic_activity`: the cleaned sentence around the first seismic match,
   * none without a match.
   */
  function SeismicActivity(t: string): (r: Option<string>)
    requires NoUpper(t)
    ensures SeismicMatch(t).None? ==> r.None?
    ensures r.Some? ==> SeismicMatch(t).Some? && IsSentenceAbout(r.value, Phrase(t, SeismicMatch(t).value))
  {
    SentenceOfMatch(t, SeismicMatch(t))
  }

  /** A deformation match names a deformation word and a part of the volcano. */
  lemma DeformationPhraseWords(t: string, f: Found<()>)
    requires MatchesAt(t, DeformationFirst, f) || MatchesAt(t, DeformationSecond, f)
    ensures f.start < f.end <= |t|
    ensures exists k :: 0 <= k < |DeformationWords| && Contains(Phrase(t, f), DeformationWords[k])
    ensures exists k :: 0 <= k < |StructureWords| && Contains(Phrase(t, f), StructureWords[k])
  {
    if MatchesAt(t, DeformationFirst, f) {
      DeformationFirstWords(t, f.start, f.end);
    } else {
      DeformationSecondWords(t, f.start, f.end);
    }
  }

  lemma DeformationFirstWords(t: string, i: nat, e: nat)
    requires DeformationFirst(t, i) == Some((e, ()))
    ensures i < e <= |t|
    ensures exists k :: 0 <= k < |DeformationWords| && Contains(t[i..e], DeformationWords[k])
    ensures exists k :: 0 <= k < |StructureWords| && Contains(t[i..e], StructureWords[k])
  {
    var k :| 0 <= k < |DeformationWords| && OccursAt(t, DeformationWords[k], i)
              && WordAt(t, i, DeformationWords).value == i + |DeformationWords[k]|;
    ContainsWithin(t, DeformationWords[k], i, i, e);
    var j: nat :| i < j < e && WordAt(t, j, StructureWords) == Some(e);
    var k2 :| 0 <= k2 < |StructureWords| && OccursAt(t, StructureWords[k2], j) && e == j + |StructureWords[k2]|;
    ContainsWithin(t, StructureWords[k2], i, j, e);
  }

  lemma DeformationSecondWords(t: string, i: nat, e: nat)
    requires DeformationSecond(t, i) == Some((e, ()))
    ensures i < e <= |t|
    ensures exists k :: 0 <= k < |DeformationWords| && Contains(t[i..e], DeformationWords[k])
    ensures exists k :: 0 <= k < |StructureWords| && Contains(t[i..e], StructureWords[k])
  {
    var k :| 0 <= k < |LeadingStructureWords| && OccursAt(t, LeadingStructureWords[k], i)
              && WordAt(t, i, LeadingStructureWords).value == i + |LeadingStructureWords[k]|;
    ContainsWithin(t, LeadingStructureWords[k], i, i, e);
    var k1 := if k == 0 then 0 else 2;
    assert LeadingStructureWords[k] == StructureWords[k1];
    var j: nat :| i < j < e && WordAt(t, j, DeformationWords) == Some(e);
    var k2 :| 0 <= k2 < |DeformationWords| && OccursAt(t, DeformationWords[k2], j) && e == j + |DeformationWords[k2]|;
    ContainsWithin(t, DeformationWords[k2], i, j, e);
  }

  /**
   * A reported ground deformation sentence names one of the deformation
   * words and one of main crater / edifice / volcanic edifice.
   */
  lemma GroundDeformationMentions(t: string)
    requires NoUpper(t) && GroundDeformation(t).Some?
    ensures exists k :: 0 <= k < |DeformationWords| && Contains(Lower(GroundDeformation(t).value), DeformationWords[k])
    ensures exists k :: 0 <= k < |StructureWords| && Contains(Lower(GroundDeformation(t).value), StructureWords[k])
  {
    var s := Lower(GroundDeformation(t).value);
    var f := DeformationMatch(t).value;
    DeformationPhraseWords(t, f);
    var k :| 0 <= k < |DeformationWords| && Contains(Phrase(t, f), DeformationWords[k]);
    ContainsTrans(s, Phrase(t, f), DeformationWords[k]);
    var k2 :| 0 <= k2 < |StructureWords| && Contains(Phrase(t, f), StructureWords[k2]);
    ContainsTrans(s, Phrase(t, f), StructureWords[k2]);
  }

  /** A seismic match names seismic activity and one of the trend words. */
  lemma SeismicPhraseWords(t: string, f: Found<()>)
    requires MatchesAt(t, SeismicFirst, f) || MatchesAt(t, SeismicSecond, f)
    ensures f.start < f.end <= |t|
    ensures Contains(Phrase(t, f), "seismic")
    ensures exists k :: 0 <= k < |TrendWords| && Contains(Phrase(t, f), TrendWords[k])
  {
    var i, e := f.start, f.end;
    if MatchesAt(t, SeismicFirst, f) {
      ContainsWithin(t, "seismic", i, i, e);
      var j: nat :| i < j < e && WordAt(t, j, TrendWords) == Some(e);
      var k :| 0 <= k < |TrendWords| && OccursAt(t, TrendWords[k], j) && e == j + |TrendWords[k]|;
      ContainsWithin(t, TrendWords[k], i, j, e);
    } else {
      var k :| 0 <= k < |TrendWords| && OccursAt(t, TrendWords[k], i)
                && WordAt(t, i, TrendWords).value == i + |TrendWords[k]|;
      ContainsWithin(t, TrendWords[k], i, i, e);
      var j: nat :| i < j < e && SeismicPhraseAt(t, j) == Some(e);
      ContainsWithin(t, "seismic", i, j, e);
    }
  }

  /** A reported seismic sentence names seismic activity and how it went. */
  lemma SeismicActivityMentions(t: string)
    requires NoUpper(t) && SeismicActivity(t).Some?
    ensures Contains(Lower(SeismicActivity(t).value), "seismic")
    ensures exists k :: 0 <= k < |TrendWords| && Contains(Lower(SeismicActivity(t).value), TrendWords[k])
  {
    var s := Lower(SeismicActivity(t).value);
    var f := SeismicMatch(t).value;
    SeismicPhraseWords(t, f);
    ContainsTrans(s, Phrase(t, f), "seismic");
    var k :| 0 <= k < |TrendWords| && Contains(Phrase(t, f), TrendWords[k]);
    ContainsTrans(s, Phrase(t, f), TrendWords[k]);
  }

  // ------------------------------------------------------------ observations

  /** `(?<=[.!?])\s+` can start at `j`: a terminator just before, whitespace at `j`. */
  predicate BreakAt(s: string, j: nat)
  {
    1 <= j < |s| && IsTerminator(s[j - 1]) && IsSpace(s[j])
  }

  /** No sentence break inside `p`. */
  predicate NoBreak(p: string)
  {
    forall j :: 0 <= j < |p| ==> !BreakAt(p, j)
  }

  /** The first break at or after `from`. */
  function NextBreak(s: string, from: nat): (r: Option<nat>)
    decreases |s| - from
    ensures r.Some? ==> from <= r.value < |s| && BreakAt(s, r.value)
    ensures r.Some? ==> forall j :: from <= j < r.value ==> !BreakAt(s, j)
    ensures r.None? ==> forall j :: from <= j ==> !BreakAt(s, j)
  {
    if from >= |s| then None
    else if BreakAt(s, from) then Some(from)
    else NextBreak(s, from + 1)
  }

  /**
   * `re.split(r'(?<=[.!?])\s+', s[from..])`: the pieces between the breaks;
   * each break removes a whole run of whitespace that follows a terminator.
   */
  function SplitSentences(s: string, from: nat): (r: seq<string>)
    requires from <= |s|
    requires from == 0 || !IsTerminator(s[from - 1])
    decreases |s| - from
    ensures |r| >= 1
    ensures forall k :: 0 <= k < |r| ==> NoBreak(r[k])
    ensures forall k :: 0 <= k < |r| - 1 ==> |r[k]| > 0 && IsTerminator(r[k][|r[k]| - 1])
  {
    match NextBreak(s, from)
    case None =>
      PieceHasNoBreak(s, from, |s|);
      assert s[from..] == s[from..|s|];
      [s[from..]]
    case Some(j) =>
      var n := SkipSpaces(s, j);
      PieceHasNoBreak(s, from, j);
      var rest := SplitSentences(s, n);
      assert s[from..j][j - from - 1] == s[j - 1];
      [s[from..j]] + rest
  }

  /** A stretch of `s` between `from` and the next break holds no break of its own. */
  lemma PieceHasNoBreak(s: string, from: nat, j: nat)
    requires from <= j <= |s|
    requires forall x :: from < x < j ==> !BreakAt(s, x)
    ensures NoBreak(s[from..j])
  {
    var p := s[from..j];
    forall x | 0 <= x < |p|
      ensures !BreakAt(p, x)
    {
      if 1 <= x {
        assert p[x - 1] == s[from + x - 1] && p[x] == s[from + x];
        assert !BreakAt(s, from + x);
      }
    }
  }

  /** A text without a terminator followed by whitespace is one piece. */
  lemma SplitWithoutBreak(s: string)
    requires NoBreak(s)
    ensures SplitSentences(s, 0) == [s]
  {
    assert NextBreak(s, 0).None?;
  }

  const ObservationKeywords: seq<string> := [
    "phreatic eruption", "phreatomagmatic eruption", "magmatic eruption",
    "volcanic tremor", "harmonic tremor", "crater glow", "lava dome",
    "pyroclastic flow", "pyroclastic density current", "lahar", "ashfall",
    "volcanic ash", "steam emission", "fissure", "fissuring", "crack",
    "crater lake", "main crater lake", "sulfur dioxide", "sulfur emission"]

  /** One of the keywords occurs in the lower-cased piece. */
  predicate MentionsKeyword(p: string)
  {
    exists k :: 0 <= k < |ObservationKeywords| && Contains(Lower(p), ObservationKeywords[k])
  }

  /** A piece kept as an observation: it names a keyword and is longer than 10 once stripped. */
  predicate IsObservation(p: string)
  {
    MentionsKeyword(p) && |Strip(p)| > 10
  }

  /** The stripped observations among `ps`, in their order. */
  function Observations(ps: seq<string>): (r: seq<string>)
    ensures |r| <= |ps|
    ensures forall x :: x in r ==> exists p :: p in ps && IsObservation(p) && x == Strip(p)
    ensures forall p :: p in ps && IsObservation(p) ==> Strip(p) in r
    ensures |ps| == 1 ==> r == if IsObservation(ps[0]) then [Strip(ps[0])] else []
  {
    if ps == [] then []
    else
      var init := ps[..|ps| - 1];
      var last := ps[|ps| - 1];
      assert ps == init + [last];
      var r := Observations(init);
      if IsObservation(last) then r + [Strip(last)] else r
  }

  /** The observations of two runs of pieces are those of the first run, then those of the second. */
  lemma {:induction false} ObservationsAppend(a: seq<string>, b: seq<string>)
    ensures Observations(a + b) == Observations(a) + Observations(b)
    decreases |b|
  {
    if b == [] {
      assert a + b == a;
    } else {
      var init, last := b[..|b| - 1], b[|b| - 1];
      ObservationsAppend(a, init);
      assert (a + b)[..|a + b| - 1] == a + init;
      ConcatRegroup(Observations(a), Observations(init), if IsObservation(last) then [Strip(last)] else []);
    }
  }

  /** Regrouping a concatenation of three, stated apart so the step above stays small. */
  lemma ConcatRegroup(x: seq<string>, y: seq<string>, z: seq<string>)
    ensures x + y + z == x + (y + z)
  {
  }

  /** One more piece adds its stripped text when it is an observation, and nothing otherwise. */
  lemma ObservationsStep(ps: seq<string>, i: nat)
    requires i < |ps|
    ensures IsObservation(ps[i]) ==> Observations(ps[..i + 1]) == Observations(ps[..i]) + [Strip(ps[i])]
    ensures !IsObservation(ps[i]) ==> Observations(ps[..i + 1]) == Observations(ps[..i])
  {
    var prefix := ps[..i + 1];
    assert prefix[..|prefix| - 1] == ps[..i];
  }

  /** At most the first five. */
  function TakeFive(xs: seq<string>): (r: seq<string>)
    ensures |r| <= 5 && (|xs| <= 5 ==> r == xs) && (|xs| > 5 ==> |r| == 5)
    ensures r == xs[..|r|]
  {
    if |xs| <= 5 then xs else xs[..5]
  }

  /** Whether one of the keywords occurs in the lower-cased piece (the `any(...)` loop). */
  method HasKeyword(p: string) returns (b: bool)
    ensures b <==> MentionsKeyword(p)
  {
    var lower := Lower(p);
    b := false;
    var k := 0;
    while k < |ObservationKeywords| && !b
      invariant 0 <= k <= |ObservationKeywords|
      invariant b <==> exists m :: 0 <= m < k && Contains(lower, ObservationKeywords[m])
    {
      b := Contains(lower, ObservationKeywords[k]);
      k := k + 1;
    }
  }

  /**
   * `result['observations']`: the text (in its original case) split into
   * sentences, the pieces that are observations kept stripped, the first
   * five of them.
   */
  method CollectObservations(text: string) returns (obs: seq<string>)
    ensures obs == TakeFive(Observations(SplitSentences(text, 0)))
  {
    var pieces := SplitSentences(text, 0);
    var kept: seq<string> := [];
    var i := 0;
    while i < |pieces|
      invariant 0 <= i <= |pieces|
      invariant kept == Observations(pieces[..i])
    {
      var piece := pieces[i];
      var mentions := HasKeyword(piece);
      ObservationsStep(pieces, i);
      if mentions {
        var clean := Strip(piece);
        if |clean| > 10 {
          kept := kept + [clean];
        }
      }
      i := i + 1;
    }
    assert pieces[..|pieces|] == pieces;
    obs := TakeFive(kept);
  }

  // ------------------------------------------------------------ whole parse

  /** The gas flux: absent, a value, or the figure that `float()` rejects. */
  function GasEmissions(t: string): (r: Result<Option<real>, string>)
    ensures r.Success? && r.value.Some? ==> r.value.value >= 0.0
    ensures r.Failure? <==> First(t, GasAt).Some? && GasValue(First(t, GasAt).value).Failure?
  {
    match First(t, GasAt)
    case None => Success(None)
    case Some(figure) =>
      match GasValue(figure)
      case Success(x) =>
        GasNonNegative(figure);
        Success(Some(x))
      case Failure(e) => Failure(e)
  }

  /** A figure of `[0-9,.]` never reads as a negative number. */
  lemma GasNonNegative(figure: string)
    requires forall k :: 0 <= k < |figure| ==> IsFigureChar(figure[k])
    requires GasValue(figure).Success?
    ensures GasValue(figure).value >= 0.0
  {
    var s := RemoveChar(figure, ',');
    var a := SkipSpaces(s, 0);
    if |Strip(s)| > 0 {
      assert Strip(s)[0] == s[a];
      assert s[a] in figure;
    }
  }

  /**
   * The seven fields of a text whose gas figure reads: each extracted from
   * the lower-cased text, except the observations, which keep the original
   * case.
   */
  function FieldsOf(text: string): VolcanicData
    requires GasEmissions(Lower(text)).Success?
  {
    var lower := Lower(text);
    VolcanicData(AlertLevel(lower), VolcanicEarthquakes(lower), GasEmissions(lower).value, PlumeActivity(lower),
                 GroundDeformation(lower), SeismicActivity(lower), TakeFive(Observations(SplitSentences(text, 0))))
  }

  /**
   * `parse_volcanic_data(text)`: nothing for an empty text, the `ValueError`
   * of a malformed gas figure, or else the seven fields.
   */
  method ParseVolcanicData(text: string) returns (r: ParseOutcome)
    ensures r == NoText <==> text == []
    ensures r.FloatError? <==> text != [] && GasEmissions(Lower(text)).Failure?
    ensures r.Parsed? ==> GasEmissions(Lower(text)).Success? && r.data == FieldsOf(text)
  {
    if text == [] {
      return NoText;
    }
    var lower := Lower(text);
    var gas := GasEmissions(lower);
    if gas.Failure? {
      return FloatError(gas.error);
    }
    var obs := CollectObservations(text);
    r := Parsed(VolcanicData(AlertLevel(lower), VolcanicEarthquakes(lower), gas.value,
                             PlumeActivity(lower), GroundDeformation(lower),
                             SeismicActivity(lower), obs));
  }

  // ------------------------------------------------------------ alert colour

  /** The values `get_alert_level_color` is called with: an int, a string or `None`. */
  datatype PyValue = PyInt(i: int) | PyStr(s: string) | PyNone

  /** The Bootstrap colour classes of alert levels 0 to 4. */
  const LevelColours: seq<string> := ["success", "info", "warning", "orange", "danger"]

  /** Python's `int(v)`: `None` stands for the `ValueError`/`TypeError` raised. */
  function PyIntOf(v: PyValue): Option<int>
  {
    match v
    case PyInt(i) => Some(i)
    case PyStr(s) => PyIntOfString(s)
    case PyNone => None
  }

  /**
   * `get_alert_level_color`: the colour of levels 0 to 4, "secondary" for
   * any other number and for whatever `int()` rejects.
   */
  function AlertLevelColour(v: PyValue): (r: string)
    ensures r == "secondary" || r in LevelColours
    ensures r in LevelColours <==> PyIntOf(v).Some? && 0 <= PyIntOf(v).value < |LevelColours|
    ensures r in LevelColours ==> r == LevelColours[PyIntOf(v).value]
  {
    match PyIntOf(v)
    case Some(n) => if 0 <= n < |LevelColours| then LevelColours[n] else "secondary"
    case None => "secondary"
  }

  /** The level a colour stands for: the inverse of the colour table. */
  function ColourLevel(c: string): Option<nat>
  {
    if c == "success" then Some(0)
    else if c == "info" then Some(1)
    else if c == "warning" then Some(2)
    else if c == "orange" then Some(3)
    else if c == "danger" then Some(4)
    else None
  }

  /**
   * The colour determines the level: the colour of levels 0 to 4 leads
   * back to the level, and a string holding the level gets the same colour
   * as the number.
   */
  lemma AlertColourRoundTrip(n: int)
    ensures 0 <= n <= 4 ==> ColourLevel(AlertLevelColour(PyInt(n))) == Some(n)
    ensures !(0 <= n <= 4) ==> AlertLevelColour(PyInt(n)) == "secondary"
    ensures AlertLevelColour(PyStr(IntToString(n))) == AlertLevelColour(PyInt(n))
  {
    IntToStringRoundTrip(n);
  }
}
