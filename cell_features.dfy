/**
 * The per-cell feature extractors of the bulletin data set (dm_v0.5.py):
 * crater-lake acidity and temperature, SO2 flux, plume height, drift and
 * strength, and the ground-deformation trend flags.
 *
 * A cell is `None` when pandas reads it as missing (NaN), and otherwise its
 * text as `str(val)` gives it.
 */
module CellFeatures {
  import opened Wrappers
  import opened Text
  import opened Numbers
  import opened Scan

  /** `str(val)`: a missing cell prints as "nan". */
  function Str(val: Option<string>): string
  {
    match val
    case None => "nan"
    case Some(s) => s
  }

  /** `pd.isna(val) or str(val).strip() == '0'`. */
  predicate MissingOrZero(val: Option<string>)
  {
    val.None? || Strip(val.value) == "0"
  }

  predicate IsNumberChar(c: char) { IsDigit(c) || c == '.' }

  predicate IsGroupedChar(c: char) { IsDigit(c) || c == ',' }

  /** A greedy run of characters satisfying `p` starting at `i`: its end and its text. */
  function RunAt(t: string, i: nat, p: char -> bool): (r: Option<(nat, string)>)
    ensures r.Some? <==> i < |t| && p(t[i])
    ensures r.Some? ==> i < r.value.0 <= |t| && r.value.1 == t[i..r.value.0]
    ensures r.Some? ==> forall k :: 0 <= k < |r.value.1| ==> p(r.value.1[k])
    ensures r.Some? ==> r.value.0 < |t| ==> !p(t[r.value.0])
  {
    if i >= |t| || !p(t[i]) then None
    else
      var e := SkipWhile(t, i, p);
      assert forall k :: 0 <= k < e - i ==> t[i..e][k] == t[i + k];
      Some((e, t[i..e]))
  }

  /** A run of digits and dots starting with a digit or a dot reads as a non-negative number, if at all. */
  lemma NumberRunNonNegative(s: string)
    requires IsNumberRun(s)
    ensures PyFloat(s).Some? ==> PyFloat(s).value >= 0.0
  {
    StripUnchanged(s);
  }

  // -------------------------------------------------------- acidity, temperature

  /** A non-empty run of digits and dots, as `[\d.]+` captures it. */
  predicate IsNumberRun(s: string)
  {
    |s| > 0 && forall k :: 0 <= k < |s| ==> IsNumberChar(s[k])
  }

  /** `[\d.]+` at `i`. */
  function NumberRunAt(t: string, i: nat): (r: Option<(nat, string)>)
    ensures r.Some? ==> IsNumberRun(r.value.1)
  {
    RunAt(t, i, IsNumberChar)
  }

  /** What the first `[\d.]+` captures is such a run. */
  lemma FirstNumberRun(t: string)
    requires First(t, NumberRunAt).Some?
    ensures IsNumberRun(First(t, NumberRunAt).value)
  {
    var run := First(t, NumberRunAt).value;
    var i :| 0 <= i <= |t| && NumberRunAt(t, i).Some? && NumberRunAt(t, i).value.1 == run;
  }

  /**
   * `parse_acidity`: missing or "0" gives none; otherwise the first run of
   * digits and dots read as a float, none when it does not read.
   */
  function Acidity(val: Option<string>): (r: Option<real>)
    ensures MissingOrZero(val) ==> r.None?
    ensures r.Some? ==> First(val.value, NumberRunAt).Some? && r == PyFloat(First(val.value, NumberRunAt).value)
    ensures r.Some? ==> r.value >= 0.0
  {
    if MissingOrZero(val) then None
    else match First(val.value, NumberRunAt)
      case None => None
      case Some(run) =>
        FirstNumberRun(val.value);
        NumberRunNonNegative(run);
        PyFloat(run)
  }

  /** A reading such as "2.5 (19 February 2025)" gives its number. */
  lemma AcidityOfReading(a: string, f: string, rest: string)
    requires |a| >= 1 && AllDigits(a) && |f| >= 1 && AllDigits(f)
    ensures Acidity(Some(a + "." + f + " " + rest)) == Some(DecimalValue(a, f))
  {
    var n := a + "." + f;
    var s := n + " " + rest;
    NumberRunOfDecimal(a, f, " " + rest);
    assert s == n + (" " + rest);
    FirstAt(s, NumberRunAt, 0);
    PyFloatFraction(a, f);
    NotZeroText(s, |a|);
  }

  /** A text whose first character and some later one are not blanks does not strip to "0". */
  lemma NotZeroText(s: string, k: nat)
    requires 0 < k < |s| && !IsSpace(s[0]) && !IsSpace(s[k])
    ensures Strip(s) != "0"
  {
    assert SkipSpaces(s, 0) == 0;
    assert TrimEnd(s, 0, |s|) > k;
  }

  /** `[\d.]+` at the start of "<a>.<f><rest>" takes the decimal when `rest` starts with a blank. */
  lemma NumberRunOfDecimal(a: string, f: string, rest: string)
    requires |a| >= 1 && AllDigits(a) && |f| >= 1 && AllDigits(f)
    requires |rest| > 0 && IsSpace(rest[0])
    ensures NumberRunAt(a + "." + f + rest, 0) == Some((|a| + 1 + |f|, a + "." + f))
  {
    var n := a + "." + f;
    var s := n + rest;
    forall k | 0 <= k < |n| ensures IsNumberChar(s[k]) {
      if k < |a| { assert s[k] == a[k]; }
      else if k > |a| { assert s[k] == f[k - |a| - 1]; }
    }
    assert s[|n|] == rest[0];
    SkipWhileExact(s, 0, |n|, IsNumberChar);
    assert s[0..|n|] == n;
  }

  /** A period before the number is read as the number and spoils it: "pH. 2.5" has no acidity. */
  lemma AcidityAfterPeriod(p: string, q: string)
    requires forall k :: 0 <= k < |p| ==> !IsNumberChar(p[k])
    ensures Acidity(Some(p + ". " + q)) == None
  {
    var s := p + ". " + q;
    PeriodRun(p, q);
    NotZeroBefore(s, |p|);
    DotIsNotNumber();
  }

  lemma PeriodRun(p: string, q: string)
    requires forall k :: 0 <= k < |p| ==> !IsNumberChar(p[k])
    ensures First(p + ". " + q, NumberRunAt) == Some(".")
  {
    var s := p + ". " + q;
    forall j | 0 <= j < |p| ensures NumberRunAt(s, j).None? {
      assert s[j] == p[j];
    }
    assert s[|p|] == '.' && s[|p| + 1] == ' ';
    SkipWhileExact(s, |p|, |p| + 1, IsNumberChar);
    assert s[|p|..|p| + 1] == ".";
    FirstAt(s, NumberRunAt, |p|);
  }

  /** A text with no '0' up to a non-blank position does not strip to "0". */
  lemma NotZeroBefore(s: string, k: nat)
    requires k < |s| && !IsSpace(s[k]) && forall j :: 0 <= j <= k ==> s[j] != '0'
    ensures Strip(s) != "0"
  {
    var a := SkipSpaces(s, 0);
    assert a <= k;
  }

  /** `float(".")` fails. */
  lemma DotIsNotNumber()
    ensures PyFloat(".") == None
  {
    StripUnchanged(".");
    assert SkipDigits(".", 0) == 0;
  }

  /** `([\d.]+)\s*℃` at `i`: a run can only be followed by the sign where it ends. */
  function TemperatureAt(t: string, i: nat): (r: Option<(nat, string)>)
    ensures r.Some? ==> IsNumberRun(r.value.1)
  {
    match NumberRunAt(t, i)
    case None => None
    case Some(run) =>
      var c := SkipSpaces(t, run.0);
      if c < |t| && t[c] == '\U{2103}' then Some((c + 1, run.1)) else None
  }

  /** `parse_temperature`: the number before the first ℃, none when missing, "0" or unreadable. */
  function Temperature(val: Option<string>): (r: Option<real>)
    ensures MissingOrZero(val) ==> r.None?
    ensures r.Some? ==> First(val.value, TemperatureAt).Some? && r == PyFloat(First(val.value, TemperatureAt).value)
    ensures r.Some? ==> r.value >= 0.0
  {
    if MissingOrZero(val) then None
    else match First(val.value, TemperatureAt)
      case None => None
      case Some(run) =>
        FirstTemperatureRun(val.value);
        NumberRunNonNegative(run);
        PyFloat(run)
  }

  lemma FirstTemperatureRun(t: string)
    requires First(t, TemperatureAt).Some?
    ensures IsNumberRun(First(t, TemperatureAt).value)
  {
    var run := First(t, TemperatureAt).value;
    var i :| 0 <= i <= |t| && TemperatureAt(t, i).Some? && TemperatureAt(t, i).value.1 == run;
  }

  /** A reading such as "71.3 ℃ (15 April 2025)" gives its number. */
  lemma TemperatureOfReading(a: string, f: string, rest: string)
    requires |a| >= 1 && AllDigits(a) && |f| >= 1 && AllDigits(f)
    ensures Temperature(Some(a + "." + f + " \U{2103}" + rest)) == Some(DecimalValue(a, f))
  {
    var s := a + "." + f + " \U{2103}" + rest;
    TemperatureAtDecimal(a, f, rest);
    FirstAt(s, TemperatureAt, 0);
    PyFloatFraction(a, f);
    NotZeroText(s, |a|);
  }

  lemma TemperatureAtDecimal(a: string, f: string, rest: string)
    requires |a| >= 1 && AllDigits(a) && |f| >= 1 && AllDigits(f)
    ensures TemperatureAt(a + "." + f + " \U{2103}" + rest, 0).Some?
    ensures TemperatureAt(a + "." + f + " \U{2103}" + rest, 0).value.1 == a + "." + f
  {
    var n := a + "." + f;
    var s := n + " \U{2103}" + rest;
    assert s == n + (" \U{2103}" + rest);
    NumberRunOfDecimal(a, f, " \U{2103}" + rest);
    assert s[|n|] == ' ' && s[|n| + 1] == '\U{2103}';
    assert SkipSpaces(s, |n|) == |n| + 1;
  }

  // ----------------------------------------------------------------- SO2 flux

  /** A non-empty run of digits and commas, as `[\d,]+` captures it. */
  predicate IsGroupedRun(s: string)
  {
    |s| > 0 && forall k :: 0 <= k < |s| ==> IsGroupedChar(s[k])
  }

  // `([\d,]+)\s*tonnes\s*/\s*day` at `i`: the end and the digits-and-commas text.
  function FluxAt(t: string, i: nat): (r: Option<(nat, string)>)
    ensures r.Some? ==> IsGroupedRun(r.value.1)
  {
    match RunAt(t, i, IsGroupedChar)
    case None => None
    case Some(run) =>
      var a := SkipSpaces(t, run.0);
      if !OccursAt(t, "tonnes", a) then None
      else
        var b := SkipSpaces(t, a + 6);
        if b >= |t| || t[b] != '/' then None
        else
          var c := SkipSpaces(t, b + 1);
          if OccursAt(t, "day", c) then Some((c + 3, run.1)) else None
  }

  lemma FirstFluxRun(t: string)
    requires First(t, FluxAt).Some?
    ensures IsGroupedRun(First(t, FluxAt).value)
  {
    var run := First(t, FluxAt).value;
    var i :| 0 <= i <= |t| && FluxAt(t, i).Some? && FluxAt(t, i).value.1 == run;
  }

  /** Dropping the commas of a run of digits and commas leaves only digits. */
  lemma {:induction false} DropCommasDigits(s: string)
    requires forall k :: 0 <= k < |s| ==> IsGroupedChar(s[k])
    ensures AllDigits(RemoveChar(s, ','))
  {
    if s != [] {
      DropCommasDigits(s[1..]);
      if s[0] != ',' {
        assert RemoveChar(s, ',') == [s[0]] + RemoveChar(s[1..], ',');
      }
    }
  }

  /** Python's `int` on a string of digits: its value, or a failure when it is empty. */
  lemma PyIntOfDigits(d: string)
    requires AllDigits(d)
    ensures PyIntOfString(d) == if |d| == 0 then None else Some(DigitsValue(d))
  {
    StripUnchanged(d);
  }

  /**
   * `parse_so2` in tonnes per day: 0 for a missing cell or one that says
   * "below detection limit" in any case; otherwise the first flux figure
   * with its commas dropped, none when there is no figure or it is only
   * commas.
   */
  function So2(val: Option<string>): (r: Option<int>)
    ensures r.Some? ==> r.value >= 0
    ensures val.None? ==> r == Some(0)
    ensures val.Some? && Contains(Lower(val.value), "below detection limit") ==> r == Some(0)
    ensures val.Some? && !Contains(Lower(val.value), "below detection limit") && First(val.value, FluxAt).None? ==> r.None?
  {
    if val.None? || Contains(Lower(val.value), "below detection limit") then Some(0)
    else match First(val.value, FluxAt)
      case None => None
      case Some(run) =>
        FirstFluxRun(val.value);
        DropCommasDigits(run);
        PyIntOfDigits(RemoveChar(run, ','));
        PyIntOfString(RemoveChar(run, ','))
  }

  /** A figure made only of commas is no number: `int("")` fails. */
  lemma So2OnlyCommas(rest: string)
    requires NoLetterB(rest)
    ensures So2(Some("," + " tonnes / day" + rest)) == None
  {
    var s := "," + " tonnes / day" + rest;
    NoDetectionPhrase(",", rest);
    FluxAtGrouped(",", rest);
    FirstAt(s, FluxAt, 0);
    assert RemoveChar(",", ',') == "";
    PyIntOfDigits("");
  }

  /** The flux as the generator prints it, "1,234 tonnes / day (…)", reads back as the count. */
  lemma So2OfGrouped(n: nat, rest: string)
    requires NoLetterB(rest)
    ensures So2(Some(FormatThousands(n) + " tonnes / day" + rest)) == Some(n)
  {
    var f := FormatThousands(n);
    var s := f + " tonnes / day" + rest;
    NoDetectionPhrase(f, rest);
    FluxAtGrouped(f, rest);
    FirstAt(s, FluxAt, 0);
    FormatThousandsDigits(n);
    var d := RemoveChar(f, ',');
    assert |d| >= 1 by { assert IsDigit(f[0]); assert f[0] in f; }
    PyIntOfDigits(d);
  }

  /** No letter b in either case: the text cannot say "below detection limit". */
  predicate NoLetterB(s: string)
  {
    forall k :: 0 <= k < |s| ==> s[k] != 'b' && s[k] != 'B'
  }

  lemma NoB(s: string)
    requires NoLetterB(s)
    ensures !Contains(Lower(s), "below detection limit")
  {
    assert forall k :: 0 <= k < |s| ==> Lower(s)[k] != 'b';
    NotContainsByChar(Lower(s), "below detection limit");
  }

  lemma NoDetectionPhrase(f: string, rest: string)
    requires forall k :: 0 <= k < |f| ==> IsGroupedChar(f[k])
    requires NoLetterB(rest)
    ensures !Contains(Lower(f + " tonnes / day" + rest), "below detection limit")
  {
    var mid := " tonnes / day";
    assert NoLetterB(mid);
    assert NoLetterB(f);
    NoLetterBAppend(f, mid);
    NoLetterBAppend(f + mid, rest);
    NoB(f + mid + rest);
  }

  lemma NoLetterBAppend(a: string, b: string)
    requires NoLetterB(a) && NoLetterB(b)
    ensures NoLetterB(a + b)
  {
    assert forall k :: |a| <= k < |a + b| ==> (a + b)[k] == b[k - |a|];
  }

  lemma FluxAtGrouped(f: string, rest: string)
    requires |f| >= 1 && forall k :: 0 <= k < |f| ==> IsDigit(f[k]) || f[k] == ','
    ensures FluxAt(f + " tonnes / day" + rest, 0) == Some((|f| + 13, f))
  {
    var s := f + " tonnes / day" + rest;
    var e := |f|;
    GroupedFluxLayout(f, rest);
    SkipWhileExact(s, 0, e, IsGroupedChar);
    assert SkipSpaces(s, e) == e + 1;
    assert SkipSpaces(s, e + 7) == e + 8;
    assert SkipSpaces(s, e + 9) == e + 10;
  }

  /** Where the figure and each word of the unit sit in "<figure> tonnes / day<rest>". */
  lemma GroupedFluxLayout(f: string, rest: string)
    requires |f| >= 1 && forall k :: 0 <= k < |f| ==> IsDigit(f[k]) || f[k] == ','
    ensures var s, e := f + " tonnes / day" + rest, |f|;
      |s| >= e + 13 && (forall k :: 0 <= k < e ==> IsGroupedChar(s[k])) && !IsGroupedChar(s[e])
      && s[0..e] == f && s[e] == ' ' && s[e + 1] == 't' && s[e + 1..e + 7] == "tonnes"
      && s[e + 7] == ' ' && s[e + 8] == '/' && s[e + 9] == ' ' && s[e + 10] == 'd' && s[e + 10..e + 13] == "day"
  {
    var s := f + " tonnes / day" + rest;
    var e := |f|;
    forall k | 0 <= k < e ensures IsGroupedChar(s[k]) { assert s[k] == f[k]; }
    assert s[0..e] == f;
    assert s[e + 1..e + 7] == "tonnes";
    assert s[e + 10..e + 13] == "day";
  }

  /** Any cell saying "below detection limit", whatever else it says, is a flux of 0. */
  lemma So2BelowDetection(p: string, q: string)
    ensures So2(Some(p + "below detection limit" + q)) == Some(0)
  {
    var w := "below detection limit";
    assert forall k :: 0 <= k < |w| ==> !IsUpper(w[k]);
    LowerKeeps(p, w, q);
  }

  /** A lower-case word inside a text is still there once the text is lower-cased. */
  lemma LowerKeeps(p: string, w: string, q: string)
    requires forall k :: 0 <= k < |w| ==> !IsUpper(w[k])
    ensures Contains(Lower(p + w + q), w)
  {
    LowerAppend(p + w, q);
    LowerAppend(p, w);
    LowerNoUpper(w);
    assert w[0..|w|] == w;
    ContainsSlice(w, w, 0);
    ContainsAppend(Lower(p), w, w);
    ContainsAppend(Lower(p) + w, Lower(q), w);
  }

  // -------------------------------------------------------------------- plume

  /** `([\d,]+)\s*meters` at `i`. */
  function MetersAt(t: string, i: nat): (r: Option<(nat, string)>)
    ensures r.Some? ==> IsGroupedRun(r.value.1)
  {
    match RunAt(t, i, IsGroupedChar)
    case None => None
    case Some(run) =>
      var a := SkipSpaces(t, run.0);
      if OccursAt(t, "meters", a) then Some((a + 6, run.1)) else None
  }

  lemma FirstMetersRun(t: string)
    requires First(t, MetersAt).Some?
    ensures IsGroupedRun(First(t, MetersAt).value)
  {
    var run := First(t, MetersAt).value;
    var i :| 0 <= i <= |t| && MetersAt(t, i).Some? && MetersAt(t, i).value.1 == run;
  }

  /** `int` of a run of digits and commas is never negative. */
  lemma GroupedIntNonNegative(run: string)
    requires IsGroupedRun(run)
    ensures PyIntOfString(run).Some? ==> PyIntOfString(run).value >= 0
  {
    StripUnchanged(run);
  }

  /**
   * `parse_plume_height` in meters: the first figure before "meters" once
   * the commas are gone; 0 when the cell is missing or "0", when there is
   * no such figure, or when `int` fails on it.
   */
  function PlumeHeight(val: Option<string>): (r: int)
    ensures r >= 0
    ensures MissingOrZero(val) ==> r == 0
  {
    if MissingOrZero(val) then 0
    else match First(RemoveChar(val.value, ','), MetersAt)
      case None => 0
      case Some(run) =>
        FirstMetersRun(RemoveChar(val.value, ','));
        GroupedIntNonNegative(run);
        match PyIntOfString(run)
        case Some(v) => v
        case None => 0
  }

  /** A grouped height such as "1,500 meters tall" reads back as the whole number. */
  lemma PlumeHeightOfGrouped(n: nat, rest: string)
    ensures PlumeHeight(Some(FormatThousands(n) + " meters" + rest)) == n
  {
    var f := FormatThousands(n);
    var d := RemoveChar(f, ',');
    MetersTextFacts(f, rest);
    FormatThousandsDigits(n);
    LeadKept(f);
    HeightOfDigits(d, RemoveChar(rest, ','));
    HeightOfText(f + " meters" + rest, d);
  }

  lemma MetersTextFacts(f: string, rest: string)
    requires |f| >= 1 && IsDigit(f[0])
    ensures RemoveChar(f + " meters" + rest, ',') == RemoveChar(f, ',') + " meters" + RemoveChar(rest, ',')
    ensures !MissingOrZero(Some(f + " meters" + rest))
  {
    var w := " meters";
    var s := f + w + rest;
    assert forall k :: 0 <= k < |w| ==> w[k] != ',';
    DropCommasAround(f, w, rest);
    assert s[0] == f[0] && s[|f| + 1] == 'm';
    NotZeroText(s, |f| + 1);
  }

  lemma HeightOfText(s: string, d: string)
    requires !MissingOrZero(Some(s))
    requires |d| >= 1 && AllDigits(d) && First(RemoveChar(s, ','), MetersAt) == Some(d)
    ensures PlumeHeight(Some(s)) == DigitsValue(d)
  {
    PyIntOfDigits(d);
  }

  /** Dropping commas from a text that starts with a digit leaves at least that digit. */
  lemma LeadKept(f: string)
    requires |f| >= 1 && IsDigit(f[0])
    ensures |RemoveChar(f, ',')| >= 1
  {
    assert RemoveChar(f, ',') == [f[0]] + RemoveChar(f[1..], ',');
  }

  lemma HeightOfDigits(d: string, rest: string)
    requires |d| >= 1 && AllDigits(d)
    ensures First(d + " meters" + rest, MetersAt) == Some(d)
  {
    MetersAtDigits(d, rest);
    FirstAt(d + " meters" + rest, MetersAt, 0);
  }

  lemma DropCommasAround(f: string, w: string, rest: string)
    requires forall k :: 0 <= k < |w| ==> w[k] != ','
    ensures RemoveChar(f + w + rest, ',') == RemoveChar(f, ',') + w + RemoveChar(rest, ',')
  {
    RemoveCharAppend(f + w, rest, ',');
    RemoveCharAppend(f, w, ',');
  }

  lemma MetersAtDigits(d: string, rest: string)
    requires |d| >= 1 && AllDigits(d)
    ensures MetersAt(d + " meters" + rest, 0) == Some((|d| + 7, d))
  {
    var s := d + " meters" + rest;
    var e := |d|;
    forall k | 0 <= k < e ensures IsGroupedChar(s[k]) { assert s[k] == d[k]; }
    assert s[e] == ' ' && s[e + 1] == 'm';
    SkipWhileExact(s, 0, e, IsGroupedChar);
    assert s[0..e] == d;
    assert SkipSpaces(s, e) == e + 1;
    assert s[e + 1..e + 7] == "meters";
  }

  /** The directions in the order `parse_plume_drift` tries them. */
  const DriftOrder: seq<string> := ["north", "northeast", "northwest", "east", "southeast", "south", "southwest", "west"]

  /** The same directions, two-word ones first. */
  const SpecificOrder: seq<string> := ["northeast", "northwest", "southeast", "southwest", "north", "east", "south", "west"]

  /**
   * `parse_plume_drift`: the first of north, northeast, northwest, east,
   * southeast, south, southwest, west found in the lower-cased cell, else
   * "none".
   */
  function PlumeDrift(val: Option<string>): (r: string)
    ensures r != "none" ==> Contains(Lower(Str(val)), r)
    ensures r == "none" <==> NoDirection(Lower(Str(val)))
  {
    var t := Lower(Str(val));
    if Contains(t, "north") then "north"
    else if Contains(t, "northeast") then "northeast"
    else if Contains(t, "northwest") then "northwest"
    else if Contains(t, "east") then "east"
    else if Contains(t, "southeast") then "southeast"
    else if Contains(t, "south") then "south"
    else if Contains(t, "southwest") then "southwest"
    else if Contains(t, "west") then "west"
    else "none"
  }

  /** `r` is the first of `dirs`, in list order, that occurs in `t`. */
  predicate FirstListed(t: string, dirs: seq<string>, r: string)
  {
    exists k :: 0 <= k < |dirs| && dirs[k] == r && Contains(t, r) && forall j :: 0 <= j < k ==> !Contains(t, dirs[j])
  }

  lemma FirstListedAt(t: string, dirs: seq<string>, k: nat)
    requires k < |dirs| && Contains(t, dirs[k]) && forall j :: 0 <= j < k ==> !Contains(t, dirs[j])
    ensures FirstListed(t, dirs, dirs[k])
  {
  }

  /** `parse_plume_drift` returns the first direction of its list found in the cell. */
  lemma {:induction false} PlumeDriftFirstListed(val: Option<string>)
    ensures PlumeDrift(val) != "none" ==> FirstListed(Lower(Str(val)), DriftOrder, PlumeDrift(val))
  {
    var t := Lower(Str(val));
    var o := DriftOrder;
    if Contains(t, o[0]) { FirstListedAt(t, o, 0); }
    else if Contains(t, o[1]) { FirstListedAt(t, o, 1); }
    else if Contains(t, o[2]) { FirstListedAt(t, o, 2); }
    else if Contains(t, o[3]) { FirstListedAt(t, o, 3); }
    else if Contains(t, o[4]) { FirstListedAt(t, o, 4); }
    else if Contains(t, o[5]) { FirstListedAt(t, o, 5); }
    else if Contains(t, o[6]) { FirstListedAt(t, o, 6); }
    else if Contains(t, o[7]) { FirstListedAt(t, o, 7); }
  }

  /** Each two-word direction contains the one-word directions it is made of. */
  lemma CompoundsContainParts()
    ensures Contains("northeast", "north") && Contains("northeast", "east")
    ensures Contains("northwest", "north") && Contains("northwest", "west")
    ensures Contains("southeast", "south") && Contains("southeast", "east")
    ensures Contains("southwest", "south") && Contains("southwest", "west")
  {
    CompoundParts("north", "east");
    assert "north" + "east" == "northeast";
    CompoundParts("north", "west");
    assert "north" + "west" == "northwest";
    CompoundParts("south", "east");
    assert "south" + "east" == "southeast";
    CompoundParts("south", "west");
    assert "south" + "west" == "southwest";
  }

  /** None of the eight directions occurs in `t`. */
  predicate NoDirection(t: string)
  {
    !Contains(t, "north") && !Contains(t, "northeast") && !Contains(t, "northwest") && !Contains(t, "east")
    && !Contains(t, "southeast") && !Contains(t, "south") && !Contains(t, "southwest") && !Contains(t, "west")
  }

  /** A two-word direction contains both its words. */
  lemma CompoundParts(a: string, b: string)
    ensures Contains(a + b, a) && Contains(a + b, b)
  {
    assert (a + b)[..|a|] == a;
    assert (a + b)[|a|..] == b;
    PhraseHas(a + b, a, 0);
    PhraseHas(a + b, b, |a|);
  }

  /**
   * Each two-word direction contains a one-word direction tried before it,
   * so `parse_plume_drift` never returns a two-word direction.
   */
  lemma PlumeDriftNeverCompound(val: Option<string>)
    ensures PlumeDrift(val) == "north" || PlumeDrift(val) == "east" || PlumeDrift(val) == "south"
            || PlumeDrift(val) == "west" || PlumeDrift(val) == "none"
  {
    var t := Lower(Str(val));
    CompoundsContainParts();
    if Contains(t, "northeast") { ContainsTrans(t, "northeast", "north"); }
    if Contains(t, "northwest") { ContainsTrans(t, "northwest", "north"); }
    if Contains(t, "southeast") { ContainsTrans(t, "southeast", "east"); }
    if Contains(t, "southwest") { ContainsTrans(t, "southwest", "south"); }
  }

  /** A report of a north-east drift is read as north. */
  lemma NortheastReadsNorth(p: string, q: string)
    ensures PlumeDrift(Some(p + "northeast" + q)) == "north"
  {
    assert forall k :: 0 <= k < |"northeast"| ==> !IsUpper("northeast"[k]);
    LowerKeeps(p, "northeast", q);
    CompoundsContainParts();
    ContainsTrans(Lower(p + "northeast" + q), "northeast", "north");
  }

  /** The same directions with the two-word ones tried first: a drift is read as specifically as it is written. */
  function PlumeDriftSpecific(val: Option<string>): (r: string)
    ensures r != "none" ==> Contains(Lower(Str(val)), r)
    ensures r == "none" <==> NoDirection(Lower(Str(val)))
  {
    var t := Lower(Str(val));
    if Contains(t, "northeast") then "northeast"
    else if Contains(t, "northwest") then "northwest"
    else if Contains(t, "southeast") then "southeast"
    else if Contains(t, "southwest") then "southwest"
    else if Contains(t, "north") then "north"
    else if Contains(t, "east") then "east"
    else if Contains(t, "south") then "south"
    else if Contains(t, "west") then "west"
    else "none"
  }

  /** The specific reading returns the first direction of its own list found in the cell. */
  lemma {:induction false} PlumeDriftSpecificFirstListed(val: Option<string>)
    ensures PlumeDriftSpecific(val) != "none" ==> FirstListed(Lower(Str(val)), SpecificOrder, PlumeDriftSpecific(val))
  {
    var t := Lower(Str(val));
    var o := SpecificOrder;
    if Contains(t, o[0]) { FirstListedAt(t, o, 0); }
    else if Contains(t, o[1]) { FirstListedAt(t, o, 1); }
    else if Contains(t, o[2]) { FirstListedAt(t, o, 2); }
    else if Contains(t, o[3]) { FirstListedAt(t, o, 3); }
    else if Contains(t, o[4]) { FirstListedAt(t, o, 4); }
    else if Contains(t, o[5]) { FirstListedAt(t, o, 5); }
    else if Contains(t, o[6]) { FirstListedAt(t, o, 6); }
    else if Contains(t, o[7]) { FirstListedAt(t, o, 7); }
  }

  predicate IsCompound(d: string)
  {
    d == "northeast" || d == "northwest" || d == "southeast" || d == "southwest"
  }

  /** Whenever a two-word direction is written, the specific reading returns a two-word direction found in the cell. */
  lemma SpecificDriftKeepsCompound(val: Option<string>, d: string)
    requires IsCompound(d) && Contains(Lower(Str(val)), d)
    ensures IsCompound(PlumeDriftSpecific(val))
    ensures Contains(Lower(Str(val)), PlumeDriftSpecific(val))
  {
  }

  /** No two-word direction appears in `t`. */
  predicate NoCompound(t: string)
  {
    !Contains(t, "northeast") && !Contains(t, "northwest") && !Contains(t, "southeast") && !Contains(t, "southwest")
  }

  /** Both readings agree on whether a direction is found. */
  lemma DriftReadingsFindAlike(val: Option<string>)
    ensures PlumeDrift(val) == "none" <==> PlumeDriftSpecific(val) == "none"
  {
    var t := Lower(Str(val));
    CompoundsContainParts();
    if Contains(t, "northeast") { ContainsTrans(t, "northeast", "north"); }
    if Contains(t, "northwest") { ContainsTrans(t, "northwest", "north"); }
    if Contains(t, "southeast") { ContainsTrans(t, "southeast", "east"); }
    if Contains(t, "southwest") { ContainsTrans(t, "southwest", "south"); }
  }

  /** Without a two-word direction in the cell, the two readings are the same. */
  lemma DriftReadingsAgree(val: Option<string>)
    requires NoCompound(Lower(Str(val)))
    ensures PlumeDrift(val) == PlumeDriftSpecific(val)
  {
  }

  /** The specific reading of "northeast" is north-east. */
  lemma NortheastReadsNortheast(p: string, q: string)
    ensures PlumeDriftSpecific(Some(p + "northeast" + q)) == "northeast"
  {
    assert forall k :: 0 <= k < |"northeast"| ==> !IsUpper("northeast"[k]);
    LowerKeeps(p, "northeast", q);
  }

  /** `parse_plume_strength`: voluminous 3, else moderate 2, else weak 1, else 0. */
  function PlumeStrength(val: Option<string>): (r: nat)
    ensures r <= 3
    ensures r == 3 <==> Contains(Lower(Str(val)), "voluminous")
    ensures r >= 2 <==> Contains(Lower(Str(val)), "voluminous") || Contains(Lower(Str(val)), "moderate")
    ensures r >= 1 <==> Contains(Lower(Str(val)), "voluminous") || Contains(Lower(Str(val)), "moderate")
                        || Contains(Lower(Str(val)), "weak")
  {
    var t := Lower(Str(val));
    if Contains(t, "voluminous") then 3
    else if Contains(t, "moderate") then 2
    else if Contains(t, "weak") then 1
    else 0
  }

  // -------------------------------------------------------- ground deformation

  /** The trend flags: -1 deflation, 1 inflation, 0 not stated; the last four 0 or 1. */
  datatype Deformation = Deformation(
    calderaTrend: int, tviTrend: int, northTrend: int, seTrend: int,
    ltInflation: nat, ltDeflation: nat, stInflation: nat, stDeflation: nat)

  /** An explicit phrase for a deflating caldera. */
  predicate CalderaDeflation(t: string)
  {
    Contains(t, "long-term deflation of the taal caldera") || Contains(t, "caldera deflation")
  }

  /** An explicit phrase for an inflating caldera. */
  predicate CalderaInflation(t: string)
  {
    Contains(t, "long-term inflation of the taal caldera") || Contains(t, "caldera inflation")
  }

  /**
   * The caldera trend: only when the caldera is named; an explicit caldera
   * phrase decides, deflation before inflation; otherwise any deflation,
   * then any inflation.
   */
  function CalderaTrend(t: string): (r: int)
    ensures -1 <= r <= 1
    ensures r == -1 <==> Contains(t, "caldera")
                         && (CalderaDeflation(t) || (!CalderaInflation(t) && Contains(t, "deflation")))
    ensures r == 1 <==> Contains(t, "caldera") && !CalderaDeflation(t)
                        && (CalderaInflation(t) || (!Contains(t, "deflation") && Contains(t, "inflation")))
  {
    if !Contains(t, "caldera") then 0
    else if CalderaDeflation(t) then -1
    else if CalderaInflation(t) then 1
    else if Contains(t, "deflation") then -1
    else if Contains(t, "inflation") then 1
    else 0
  }

  /** A trend of the island: deflation is looked for first. */
  function TviTrend(t: string): (r: int)
    ensures r == -1 <==> (Contains(t, "tvi") || Contains(t, "taal volcano island")) && Contains(t, "deflation")
    ensures r == 1 <==> (Contains(t, "tvi") || Contains(t, "taal volcano island")) && !Contains(t, "deflation")
                        && Contains(t, "inflation")
    ensures -1 <= r <= 1
  {
    if Contains(t, "tvi") || Contains(t, "taal volcano island") then
      (if Contains(t, "deflation") then -1 else if Contains(t, "inflation") then 1 else 0)
    else 0
  }

  /** A trend of a flank: unlike the island, inflation is looked for first. */
  function FlankTrend(mentioned: bool, t: string): (r: int)
    ensures r == 1 <==> mentioned && Contains(t, "inflation")
    ensures r == -1 <==> mentioned && !Contains(t, "inflation") && Contains(t, "deflation")
    ensures -1 <= r <= 1
  {
    if mentioned then
      (if Contains(t, "inflation") then 1 else if Contains(t, "deflation") then -1 else 0)
    else 0
  }

  /** The northern flank is named: "northern flank", or both "north" and "flank". */
  predicate NorthFlank(t: string)
  {
    Contains(t, "northern flank") || (Contains(t, "north") && Contains(t, "flank"))
  }

  /** The south-eastern flank is named: "southeastern flank", or both "southeastern" and "flank". */
  predicate SoutheastFlank(t: string)
  {
    Contains(t, "southeastern flank") || (Contains(t, "southeastern") && Contains(t, "flank"))
  }

  /**
   * `analyze_ground_deformation` on the lower-cased text: the four trends,
   * and each temporal flag 1 exactly when its phrase occurs.
   */
  function GroundDeformation(text: string): (r: Deformation)
    ensures r.calderaTrend == CalderaTrend(Lower(text)) && r.tviTrend == TviTrend(Lower(text))
    ensures r.northTrend == FlankTrend(NorthFlank(Lower(text)), Lower(text))
    ensures r.seTrend == FlankTrend(SoutheastFlank(Lower(text)), Lower(text))
    ensures r.ltInflation <= 1 && (r.ltInflation == 1 <==> Contains(Lower(text), "long-term inflation"))
    ensures r.ltDeflation <= 1 && (r.ltDeflation == 1 <==> Contains(Lower(text), "long-term deflation"))
    ensures r.stInflation <= 1 && (r.stInflation == 1 <==> Contains(Lower(text), "short-term inflation"))
    ensures r.stDeflation <= 1 && (r.stDeflation == 1 <==> Contains(Lower(text), "short-term deflation"))
  {
    var t := Lower(text);
    Deformation(
      CalderaTrend(t),
      TviTrend(t),
      FlankTrend(NorthFlank(t), t),
      FlankTrend(SoutheastFlank(t), t),
      Flag(Contains(t, "long-term inflation")), Flag(Contains(t, "long-term deflation")),
      Flag(Contains(t, "short-term inflation")), Flag(Contains(t, "short-term deflation")))
  }

  /**
   * When a text mentions both inflation and deflation, the island and the
   * flanks are read in opposite directions.
   */
  lemma MixedTrendsDisagree(text: string)
    requires Contains(Lower(text), "tvi") && Contains(Lower(text), "southeastern flank")
    requires Contains(Lower(text), "inflation") && Contains(Lower(text), "deflation")
    ensures GroundDeformation(text).tviTrend == -1 && GroundDeformation(text).seTrend == 1
  {
  }

  /** Without the words inflation and deflation, every trend is 0. */
  lemma NoTrendWords(text: string)
    requires !Contains(Lower(text), "inflation") && !Contains(Lower(text), "deflation")
    ensures GroundDeformation(text).calderaTrend == 0 && GroundDeformation(text).tviTrend == 0
    ensures GroundDeformation(text).northTrend == 0 && GroundDeformation(text).seTrend == 0
    ensures GroundDeformation(text).ltInflation == 0 && GroundDeformation(text).ltDeflation == 0
    ensures GroundDeformation(text).stInflation == 0 && GroundDeformation(text).stDeflation == 0
  {
    var t := Lower(text);
    TrendPhrases();
    NotContainsEither(t, "long-term deflation of the taal caldera", "deflation");
    NotContainsEither(t, "caldera deflation", "deflation");
    NotContainsEither(t, "long-term inflation of the taal caldera", "inflation");
    NotContainsEither(t, "caldera inflation", "inflation");
    NotContainsEither(t, "long-term inflation", "inflation");
    NotContainsEither(t, "long-term deflation", "deflation");
    NotContainsEither(t, "short-term inflation", "inflation");
    NotContainsEither(t, "short-term deflation", "deflation");
  }

  /** Each phrase the trends look for contains the word inflation or deflation. */
  lemma TrendPhrases()
    ensures Contains("long-term deflation of the taal caldera", "deflation")
    ensures Contains("caldera deflation", "deflation")
    ensures Contains("long-term inflation of the taal caldera", "inflation")
    ensures Contains("caldera inflation", "inflation")
    ensures Contains("long-term inflation", "inflation")
    ensures Contains("long-term deflation", "deflation")
    ensures Contains("short-term inflation", "inflation")
    ensures Contains("short-term deflation", "deflation")
  {
    CalderaPhrases("deflation");
    CalderaPhrases("inflation");
    LongPhraseSpelling();
    ShortPhraseSpelling();
    InMiddle("long-term ", "inflation", "");
    InMiddle("long-term ", "deflation", "");
    InMiddle("short-term ", "inflation", "");
    InMiddle("short-term ", "deflation", "");
  }

  lemma LongPhraseSpelling()
    ensures "long-term " + "deflation" + " of the taal caldera" == "long-term deflation of the taal caldera"
    ensures "long-term " + "inflation" + " of the taal caldera" == "long-term inflation of the taal caldera"
  {
    LongDeflationSpelling();
    LongInflationSpelling();
  }

  lemma LongDeflationSpelling()
    ensures "long-term " + "deflation" + " of the taal caldera" == "long-term deflation of the taal caldera"
  {
  }

  lemma LongInflationSpelling()
    ensures "long-term " + "inflation" + " of the taal caldera" == "long-term inflation of the taal caldera"
  {
  }

  lemma ShortPhraseSpelling()
    ensures "caldera " + "deflation" == "caldera deflation"
    ensures "caldera " + "inflation" == "caldera inflation"
    ensures "long-term " + "inflation" + "" == "long-term inflation"
    ensures "long-term " + "deflation" + "" == "long-term deflation"
    ensures "short-term " + "inflation" + "" == "short-term inflation"
    ensures "short-term " + "deflation" + "" == "short-term deflation"
  {
  }

  lemma CalderaPhrases(w: string)
    ensures Contains("long-term " + w + " of the taal caldera", w)
    ensures Contains("caldera " + w, w)
  {
    InMiddle("long-term ", w, " of the taal caldera");
    InMiddle("caldera ", w, "");
    assert "caldera " + w + "" == "caldera " + w;
  }

  lemma InMiddle(p: string, w: string, q: string)
    ensures Contains(p + w + q, w)
  {
    assert (p + w + q)[|p|..|p| + |w|] == w;
    ContainsSlice(p + w + q, w, |p|);
  }

  lemma PhraseHas(phrase: string, w: string, k: nat)
    requires k + |w| <= |phrase| && phrase[k..k + |w|] == w
    ensures Contains(phrase, w)
  {
    ContainsSlice(phrase, w, k);
  }

  lemma NotContainsEither(t: string, phrase: string, w: string)
    requires Contains(phrase, w) && !Contains(t, w)
    ensures !Contains(t, phrase)
  {
    if Contains(t, phrase) {
      ContainsTrans(t, phrase, w);
    }
  }
}
