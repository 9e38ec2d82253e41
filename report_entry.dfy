/**
 * The getters of a report row of the Taal monitoring app's API
 * (`TaalReportEntry` in TaalApiModels.kt): each reads one typed value out
 * of one of the row's text cells, and falls back to null or to a fixed
 * text when the cell does not have the expected shape.
 *
 * Each regular expression is a matcher at a position, searched leftmost
 * first; `ignoreCase` is ASCII case folding.
 */
module ReportEntry {
  import opened Wrappers
  import opened Text
  import opened Numbers
  import opened Scan

  /** One row of the report: every cell as the API sends it. */
  datatype TaalReportEntry = TaalReportEntry(
    date: string,
    alertLevel: string,
    eruption: string,
    seismicity: string,
    acidity: string,
    temperature: string,
    sulfurDioxideFlux: string,
    plume: string,
    groundDeformation: string)

  const DegreesCelsius: char := '\U{2103}'

  // ------------------------------------------------------------------ alert

  /** `alertLevel.toInt()`, null when it throws: a sign, digits, an `Int`, no blanks. */
  function AlertLevelInt(e: TaalReportEntry): (r: Option<int>)
    ensures r.Some? ==> InIntRange(r.value) && SignedDigits(e.alertLevel) == r
    ensures r.None? <==> SignedDigits(e.alertLevel).None? || !InIntRange(SignedDigits(e.alertLevel).value)
  {
    KotlinToIntOrNull(e.alertLevel)
  }

  /** A printed level reads back; a blank around it makes it unreadable. */
  lemma AlertLevelIntRoundTrip(e: TaalReportEntry, n: int)
    requires InIntRange(n)
    ensures AlertLevelInt(e.(alertLevel := IntToString(n))) == Some(n)
    ensures AlertLevelInt(e.(alertLevel := IntToString(n) + " ")).None?
  {
    IntToStringRoundTrip(n);
    var s := IntToString(n) + " ";
    assert !AllDigits(s) by { assert !IsDigit(s[|s| - 1]); }
    assert |s| >= 2 ==> !AllDigits(s[1..]) by {
      if |s| >= 2 { assert s[1..][|s| - 2] == ' '; }
    }
  }

  // ------------------------------------------------------------- decimals

  /** `\d+\.?\d*` at `i`: the end and the text; a dot is taken with the digits after it. */
  function DecimalAt(t: string, i: nat): (r: Option<(nat, string)>)
    ensures r.Some? ==> i < r.value.0 <= |t| && r.value.1 == t[i..r.value.0] && IsDigit(t[i])
    ensures r.None? <==> i >= |t| || !IsDigit(t[i])
  {
    if i >= |t| || !IsDigit(t[i]) then None
    else
      var a := SkipDigits(t, i);
      var b := if a < |t| && t[a] == '.' then SkipDigits(t, a + 1) else a;
      Some((b, t[i..b]))
  }

  /** What `\d+\.?\d*` captures always reads as a non-negative double. */
  lemma DecimalParses(t: string, i: nat)
    requires DecimalAt(t, i).Some?
    ensures KotlinToDouble(DecimalAt(t, i).value.1).Some?
    ensures KotlinToDouble(DecimalAt(t, i).value.1).value >= 0.0
  {
    var a := SkipDigits(t, i);
    var s := DecimalAt(t, i).value.1;
    var n := a - i;
    assert forall k :: 0 <= k < n ==> s[k] == t[i + k];
    if n < |s| {
      assert s[n] == t[a] == '.';
      assert s[n + 1..] == t[a + 1..i + |s|];
      assert s == s[..n] + "." + s[n + 1..];
      PointDecimalParses(s[..n], s[n + 1..]);
    } else {
      assert AllDigits(s);
      ParseDecimalDigits(s);
    }
  }

  /** "a.f" with digit runs reads as a non-negative double. */
  lemma PointDecimalParses(a: string, f: string)
    requires |a| >= 1 && AllDigits(a) && AllDigits(f)
    ensures KotlinToDouble(a + "." + f).Some? && KotlinToDouble(a + "." + f).value >= 0.0
  {
    PyFloatFraction(a, f);
    assert (a + "." + f)[0] == a[0];
  }

  /** `(\d+\.?\d*)\s*℃` at `i`: the end and the number text. */
  function TemperatureAt(t: string, i: nat): (r: Option<(nat, string)>)
    ensures r.Some? ==> DecimalAt(t, i).Some? && r.value.1 == DecimalAt(t, i).value.1
  {
    match DecimalAt(t, i)
    case None => None
    case Some(d) =>
      var c := SkipSpaces(t, d.0);
      if c < |t| && t[c] == DegreesCelsius then Some((c + 1, d.1)) else None
  }

  /** `getTemperatureValue`: the number before the first ℃; null when there is none. */
  function TemperatureValue(e: TaalReportEntry): (r: Option<real>)
    ensures r.Some? <==> First(e.temperature, TemperatureAt).Some?
    ensures r.Some? ==> r.value >= 0.0
  {
    match First(e.temperature, TemperatureAt)
    case None => None
    case Some(s) =>
      var i :| 0 <= i <= |e.temperature| && TemperatureAt(e.temperature, i).Some?
               && TemperatureAt(e.temperature, i).value.1 == s;
      DecimalParses(e.temperature, i);
      KotlinToDouble(s)
  }

  /** `getAcidityValue`: the first number of the cell; null only when the cell has no digit. */
  function AcidityValue(e: TaalReportEntry): (r: Option<real>)
    ensures r.Some? <==> exists k :: 0 <= k < |e.acidity| && IsDigit(e.acidity[k])
    ensures r.Some? ==> r.value >= 0.0
  {
    match First(e.acidity, DecimalAt)
    case None =>
      forall k | 0 <= k < |e.acidity| ensures !IsDigit(e.acidity[k]) {
        var m: Matcher<string> := DecimalAt;
        assert m(e.acidity, k).None?;
      }
      None
    case Some(s) =>
      var i :| 0 <= i <= |e.acidity| && DecimalAt(e.acidity, i).Some? && DecimalAt(e.acidity, i).value.1 == s;
      DecimalParses(e.acidity, i);
      KotlinToDouble(s)
  }

  /** A reading "<a>.<f> (<date>)" gives the number a.f. */
  lemma AcidityOfReading(a: string, f: string, rest: string)
    requires |a| >= 1 && AllDigits(a) && |f| >= 1 && AllDigits(f)
    ensures AcidityValue(TaalReportEntry("", "", "", "", a + "." + f + " " + rest, "", "", "", "")) == Some(DecimalValue(a, f))
  {
    var t := a + "." + f + " " + rest;
    var n := a + "." + f;
    assert t[0..|a|] == a;
    assert t[|a|] == '.';
    assert t[|a| + 1..|n|] == f;
    assert t[|n|] == ' ';
    DigitsRun(t, 0, a);
    DigitsRun(t, |a| + 1, f);
    assert t[0..|n|] == n;
    assert DecimalAt(t, 0) == Some((|n|, n));
    FirstAt(t, DecimalAt, 0);
    ParseDecimalFraction(a, f);
    StripUnchanged(n);
  }

  /** A reading "<a>.<f> ℃ (<date>)" gives the number a.f. */
  lemma TemperatureOfReading(a: string, f: string, rest: string)
    requires |a| >= 1 && AllDigits(a) && |f| >= 1 && AllDigits(f)
    ensures TemperatureValue(TaalReportEntry("", "", "", "", "", a + "." + f + " \U{2103}" + rest, "", "", ""))
         == Some(DecimalValue(a, f))
  {
    var t := a + "." + f + " \U{2103}" + rest;
    var n := a + "." + f;
    TemperatureAtStart(a, f, rest);
    FirstAt(t, TemperatureAt, 0);
    ParseDecimalFraction(a, f);
    StripUnchanged(n);
  }

  lemma TemperatureAtStart(a: string, f: string, rest: string)
    requires |a| >= 1 && AllDigits(a) && |f| >= 1 && AllDigits(f)
    ensures TemperatureAt(a + "." + f + " \U{2103}" + rest, 0) == Some((|a| + |f| + 3, a + "." + f))
  {
    var t := a + "." + f + " \U{2103}" + rest;
    var n := |a| + 1 + |f|;
    assert t[0..|a|] == a;
    assert t[|a|] == '.';
    assert t[|a| + 1..n] == f;
    assert t[n] == ' ' && t[n + 1] == DegreesCelsius;
    DigitsRun(t, 0, a);
    DigitsRun(t, |a| + 1, f);
    assert SkipSpaces(t, n) == n + 1;
    assert t[0..n] == a + "." + f;
  }

  /** A run of digits `d` at `i` followed by a non-digit ends where `d` ends. */
  lemma DigitsRun(t: string, i: nat, d: string)
    requires i + |d| < |t| && t[i..i + |d|] == d && AllDigits(d) && !IsDigit(t[i + |d|])
    ensures SkipDigits(t, i) == i + |d|
  {
    forall k | i <= k < i + |d| ensures IsDigit(t[k]) {
      assert t[k] == d[k - i];
    }
    SkipDigitsFrom(t, i, i + |d|);
  }

  // ------------------------------------------------------------ parentheses

  /** `\(([^)]+)\)` at `i`: the end and the text between the parentheses. */
  function ParenAt(t: string, i: nat): (r: Option<(nat, string)>)
    ensures r.Some? ==> i < |t| && t[i] == '(' && |r.value.1| > 0
    ensures r.Some? ==> r.value.0 == i + |r.value.1| + 2 <= |t| && t[r.value.0 - 1] == ')'
    ensures r.Some? ==> r.value.1 == t[i + 1..r.value.0 - 1]
    ensures r.Some? ==> forall k :: 0 <= k < |r.value.1| ==> r.value.1[k] != ')'
  {
    if i >= |t| || t[i] != '(' then None
    else
      var j := SkipWhile(t, i + 1, c => c != ')');
      if j == i + 1 || j == |t| then None else Some((j + 1, t[i + 1..j]))
  }

  /** The text in the first parentheses, or `fallback`. */
  function ParenText(s: string, fallback: string): (r: string)
    ensures First(s, ParenAt).None? ==> r == fallback
    ensures First(s, ParenAt).Some? ==> |r| > 0 && forall k :: 0 <= k < |r| ==> r[k] != ')'
  {
    First(s, ParenAt).GetOr(fallback)
  }

  function TemperatureDate(e: TaalReportEntry): string { ParenText(e.temperature, "Date N/A") }
  function AcidityDate(e: TaalReportEntry): string { ParenText(e.acidity, "Date N/A") }
  function So2FluxDate(e: TaalReportEntry): string { ParenText(e.sulfurDioxideFlux, "Date N/A") }
  function TremorsDuration(e: TaalReportEntry): string { ParenText(e.seismicity, "Duration N/A") }

  /** Text without `(` followed by "(<d>)" gives `d`, whatever follows. */
  lemma ParenOfSuffix(p: string, d: string, rest: string)
    requires forall k :: 0 <= k < |p| ==> p[k] != '('
    requires |d| > 0 && forall k :: 0 <= k < |d| ==> d[k] != ')'
    ensures ParenText(p + "(" + d + ")" + rest, "Date N/A") == d
  {
    var t := p + "(" + d + ")" + rest;
    var i := |p|;
    forall j | 0 <= j < i ensures ParenAt(t, j).None? {
      assert t[j] == p[j];
    }
    assert t[i] == '(';
    var e := i + 1 + |d|;
    assert t[e] == ')';
    forall k | i + 1 <= k < e ensures t[k] != ')' {
      assert t[k] == d[k - i - 1];
    }
    SkipWhileExact(t, i + 1, e, c => c != ')');
    assert t[i + 1..e] == d;
    FirstAt(t, ParenAt, i);
  }

  /** A cell without parentheses falls back. */
  lemma ParenMissing(s: string, fallback: string)
    requires forall k :: 0 <= k < |s| ==> s[k] != '('
    ensures ParenText(s, fallback) == fallback
  {
  }

  // ------------------------------------------------------------------ plume

  /** `(\d+)\s*<phrase>` at `i`, case-sensitive: the end and the digits. */
  function CountBefore(t: string, i: nat, phrase: string): (r: Option<(nat, string)>)
    ensures r.Some? ==> i < |t| && |r.value.1| > 0 && AllDigits(r.value.1) && i + |r.value.1| <= |t|
    ensures r.Some? ==> r.value.1 == t[i..i + |r.value.1|]
    ensures r.Some? ==> |phrase| <= r.value.0 <= |t| && OccursAt(t, phrase, r.value.0 - |phrase|)
  {
    if i >= |t| || !IsDigit(t[i]) then None
    else
      var d := SkipDigits(t, i);
      var j := SkipSpaces(t, d);
      if OccursAt(t, phrase, j) then
        assert forall k :: 0 <= k < d - i ==> t[i..d][k] == t[i + k];
        Some((j + |phrase|, t[i..d]))
      else None
  }

  function PlumeHeightAt(t: string, i: nat): Option<(nat, string)> { CountBefore(t, i, "meters tall") }

  /** `getPlumeHeightM`: the digits before the first "meters tall", as an `Int`. */
  function PlumeHeightM(e: TaalReportEntry): (r: Option<int>)
    ensures r.Some? ==> 0 <= r.value <= IntMax
    ensures r.Some? ==> Contains(e.plume, "meters tall")
  {
    match First(e.plume, PlumeHeightAt)
    case None => None
    case Some(d) =>
      CountFound(e.plume, "meters tall", PlumeHeightAt);
      DigitsAreValue(d);
      KotlinToIntOrNull(d)
  }

  /** "<n> meters tall" at the start of the cell reads back as `n`. */
  lemma PlumeHeightRoundTrip(n: nat, rest: string)
    requires n <= IntMax
    ensures PlumeHeightM(TaalReportEntry("", "", "", "", "", "", "", NatToString(n) + " meters tall" + rest, "")) == Some(n)
  {
    var d := NatToString(n);
    var phrase := "meters tall";
    var t := d + " meters tall" + rest;
    assert t[0..|d| + 1 + |phrase|] == d + " " + phrase;
    CountBeforeAt(t, 0, d, phrase);
    FirstAt(t, PlumeHeightAt, 0);
    DigitsOfNat(n);
  }

  /** What a count pattern finds is a run of digits, and its phrase is in the text. */
  lemma CountFound(t: string, phrase: string, m: Matcher<string>)
    requires forall i :: 0 <= i <= |t| ==> m(t, i) == CountBefore(t, i, phrase)
    requires First(t, m).Some?
    ensures |First(t, m).value| > 0 && AllDigits(First(t, m).value) && Contains(t, phrase)
  {
    CountFoundDigits(t, phrase, m);
    CountFoundPhrase(t, phrase, m);
  }

  lemma CountFoundDigits(t: string, phrase: string, m: Matcher<string>)
    requires forall i :: 0 <= i <= |t| ==> m(t, i) == CountBefore(t, i, phrase)
    requires First(t, m).Some?
    ensures |First(t, m).value| > 0 && AllDigits(First(t, m).value)
  {
    CountsAreDigits(t, phrase, m);
    FirstHolds(t, m, (d: string) => |d| > 0 && AllDigits(d));
  }

  lemma CountFoundPhrase(t: string, phrase: string, m: Matcher<string>)
    requires forall i :: 0 <= i <= |t| ==> m(t, i) == CountBefore(t, i, phrase)
    requires First(t, m).Some?
    ensures Contains(t, phrase)
  {
    CountsEndWithPhrase(t, phrase, m);
    FoundContains(t, m, phrase);
  }

  lemma CountsEndWithPhrase(t: string, phrase: string, m: Matcher<string>)
    requires forall i :: 0 <= i <= |t| ==> m(t, i) == CountBefore(t, i, phrase)
    ensures MatchesEndWith(t, m, phrase)
  {
    forall i | 0 <= i <= |t| ensures MatchEndsWith(t, m, phrase, i) {
      assert m(t, i) == CountBefore(t, i, phrase);
    }
  }

  lemma CountsAreDigits(t: string, phrase: string, m: Matcher<string>)
    requires forall i :: 0 <= i <= |t| ==> m(t, i) == CountBefore(t, i, phrase)
    ensures forall i :: 0 <= i <= |t| && m(t, i).Some? ==> |m(t, i).value.1| > 0 && AllDigits(m(t, i).value.1)
  {
    forall i | 0 <= i <= |t| && m(t, i).Some?
      ensures |m(t, i).value.1| > 0 && AllDigits(m(t, i).value.1)
    {
      assert m(t, i) == CountBefore(t, i, phrase);
    }
  }

  /** `(\d+)\s*<phrase>` where "<digits> <phrase>" occurs takes all the digits. */
  lemma CountBeforeAt(t: string, i: nat, d: string, phrase: string)
    requires |d| > 0 && AllDigits(d) && |phrase| > 0 && !IsSpace(phrase[0])
    requires OccursAt(t, d + " " + phrase, i)
    ensures CountBefore(t, i, phrase) == Some((i + |d| + 1 + |phrase|, d))
  {
    OccursAtSplit(t, d + " ", phrase, i);
    OccursAtSplit(t, d, " ", i);
    var x := i + |d|;
    assert t[x] == ' ' by { assert t[x..x + 1] == " "; }
    assert t[x + 1] == phrase[0] by { assert t[x + 1..x + 1 + |phrase|][0] == phrase[0]; }
    DigitsRun(t, i, d);
    assert SkipSpaces(t, x) == x + 1;
  }

  /** A run of digits reads, as a signed number, as its value. */
  lemma DigitsAreValue(s: string)
    requires |s| > 0 && AllDigits(s)
    ensures SignedDigits(s) == Some(DigitsValue(s) as int)
  {
  }

  /** `getPlumeEmissionStrength`: "Moderate emission" is looked for before "Weak emission". */
  function PlumeEmissionStrength(e: TaalReportEntry): (r: string)
    ensures r == "Moderate" || r == "Weak" || r == "Unknown"
    ensures r == "Moderate" <==> Contains(Lower(e.plume), "moderate emission")
    ensures r == "Weak" <==> !Contains(Lower(e.plume), "moderate emission") && Contains(Lower(e.plume), "weak emission")
  {
    if Contains(Lower(e.plume), "moderate emission") then "Moderate"
    else if Contains(Lower(e.plume), "weak emission") then "Weak"
    else "Unknown"
  }

  /** The strength depends on the plume text only up to case. */
  lemma StrengthIgnoresCase(e: TaalReportEntry)
    ensures PlumeEmissionStrength(e.(plume := Lower(e.plume))) == PlumeEmissionStrength(e)
  {
    var l := Lower(e.plume);
    forall i | 0 <= i < |l| ensures !IsUpper(l[i]) {
      assert l[i] == LowerChar(e.plume[i]);
    }
    LowerNoUpper(l);
  }

  /**
   * `([a-zA-Z]+\s*drift)` at `i`: the end and the matched text. The letters
   * are taken greedily and given back one at a time: either spaces and
   * "drift" follow the whole run, or "drift" ends the run as late as possible.
   */
  function DriftAt(t: string, i: nat): (r: Option<(nat, string)>)
    ensures r.Some? ==> i < |t| && IsLetter(t[i])
    ensures r.Some? ==> i + 5 < r.value.0 <= |t| && r.value.1 == t[i..r.value.0]
    ensures r.Some? ==> OccursAt(t, "drift", r.value.0 - 5)
    ensures r.Some? ==> forall k :: i <= k < r.value.0 - 5 ==> IsLetter(t[k]) || IsSpace(t[k])
  {
    if i >= |t| || !IsLetter(t[i]) then None
    else
      var e := SkipWhile(t, i, IsLetter);
      var j := SkipSpaces(t, e);
      if OccursAt(t, "drift", j) then Some((j + 5, t[i..j + 5]))
      else match Greatest(i + 1, e, (k: nat) => OccursAt(t, "drift", k))
        case Some(k) => Some((k + 5, t[i..k + 5]))
        case None => None
  }

  /** `getPlumeDriftDirection`: the first "<letters> drift" with " drift" removed, else "Unknown". */
  function PlumeDriftDirection(e: TaalReportEntry): (r: string)
    ensures !Contains(e.plume, "drift") ==> r == "Unknown"
  {
    match First(e.plume, DriftAt)
    case None => "Unknown"
    case Some(g) =>
      DriftFound(e.plume);
      ReplaceAll(g, " drift", "")
  }

  lemma DriftFound(t: string)
    requires First(t, DriftAt).Some?
    ensures Contains(t, "drift")
  {
    DriftFoundBy(t, DriftAt);
  }

  lemma DriftFoundBy(t: string, m: Matcher<string>)
    requires forall i :: 0 <= i <= |t| ==> m(t, i) == DriftAt(t, i)
    requires First(t, m).Some?
    ensures Contains(t, "drift")
  {
    DriftsEndWithDrift(t, m);
    FoundContains(t, m, "drift");
  }

  /** Every drift match ends with the word "drift". */
  lemma DriftsEndWithDrift(t: string, m: Matcher<string>)
    requires forall i :: 0 <= i <= |t| ==> m(t, i) == DriftAt(t, i)
    ensures MatchesEndWith(t, m, "drift")
  {
    forall i | 0 <= i <= |t| ensures MatchEndsWith(t, m, "drift", i) {
      DriftEndsAt(t, m, i);
    }
  }

  lemma DriftEndsAt(t: string, m: Matcher<string>, i: nat)
    requires m(t, i) == DriftAt(t, i)
    ensures MatchEndsWith(t, m, "drift", i)
  {
  }

  /** After a clause without letters, "<w> drift" reports the word `w`. */
  lemma DriftOfWord(p: string, w: string)
    requires |w| > 0 && forall k :: 0 <= k < |w| ==> IsLetter(w[k])
    requires forall k :: 0 <= k < |p| ==> !IsLetter(p[k])
    ensures PlumeDriftDirection(TaalReportEntry("", "", "", "", "", "", "", p + w + " drift", "")) == w
  {
    FirstDriftIsWord(p, w);
    DriftWordRead(w);
  }

  /** The first drift match is the word before "drift" with the phrase itself. */
  lemma FirstDriftIsWord(p: string, w: string)
    requires |w| > 0 && forall k :: 0 <= k < |w| ==> IsLetter(w[k])
    requires forall k :: 0 <= k < |p| ==> !IsLetter(p[k])
    ensures First(p + w + " drift", DriftAt) == Some(w + " drift")
  {
    var t := p + w + " drift";
    forall j | 0 <= j < |p| ensures DriftAt(t, j).None? {
      assert t[j] == p[j];
    }
    DriftAtWord(p, w);
    FirstAt(t, DriftAt, |p|);
  }

  /** Deleting " drift" from "<w> drift" leaves the word. */
  lemma DriftWordRead(w: string)
    requires forall k :: 0 <= k < |w| ==> IsLetter(w[k])
    ensures ReplaceAll(w + " drift", " drift", "") == w
  {
    forall k | 0 <= k < |w| ensures w[k] != " drift"[0] {
      assert IsLetter(w[k]);
    }
    ReplaceAllTail(w, " drift");
  }

  lemma DriftAtWord(p: string, w: string)
    requires |w| > 0 && forall k :: 0 <= k < |w| ==> IsLetter(w[k])
    ensures DriftAt(p + w + " drift", |p|) == Some((|p| + |w| + 6, w + " drift"))
  {
    var t := p + w + " drift";
    var i := |p|;
    var e := i + |w|;
    DriftWordLayout(p, w);
    SkipWhileExact(t, i, e, IsLetter);
    assert SkipSpaces(t, e) == e + 1;
  }

  /** Where the word and "drift" sit in `p + w + " drift"`. */
  lemma DriftWordLayout(p: string, w: string)
    requires |w| > 0 && forall k :: 0 <= k < |w| ==> IsLetter(w[k])
    ensures var t, i, e := p + w + " drift", |p|, |p| + |w|;
      |t| == e + 6 && (forall k :: i <= k < e ==> IsLetter(t[k])) && !IsLetter(t[e])
      && t[e] == ' ' && t[e + 1] == 'd' && t[e + 1..e + 6] == "drift" && t[i..e + 6] == w + " drift"
  {
    var t := p + w + " drift";
    var i := |p|;
    var e := i + |w|;
    forall k | i <= k < e ensures IsLetter(t[k]) {
      assert t[k] == w[k - i];
    }
    assert t[e + 1..e + 6] == "drift";
    assert t[i..e + 6] == w + " drift";
  }

  /** Removing a pattern that ends the text and whose first character the rest lacks. */
  lemma ReplaceAllTail(w: string, pat: string)
    requires |pat| > 0 && forall k :: 0 <= k < |w| ==> w[k] != pat[0]
    ensures ReplaceAll(w + pat, pat, "") == w
  {
    var s := w + pat;
    assert OccursAt(s, pat, |w|);
    forall j | 0 <= j < |w| ensures !OccursAt(s, pat, j) {
      assert s[j] == w[j];
      if j + |pat| <= |s| { assert s[j..j + |pat|][0] == s[j]; }
    }
    assert IndexOf(s, pat, 0) == Some(|w|);
    assert s[|w| + |pat|..] == [];
    assert !Contains([], pat);
    assert s[..|w|] == w;
  }

  // ------------------------------------------------------------- seismicity

  function EarthquakesAt(t: string, i: nat): Option<(nat, string)> { CountBefore(t, i, "volcanic earthquakes") }

  /** `including\s*(\d+)\s*volcanic tremors` at `i`. */
  function TremorsAt(t: string, i: nat): (r: Option<(nat, string)>)
    ensures r.Some? ==> OccursAt(t, "including", i) && |r.value.1| > 0 && AllDigits(r.value.1)
    ensures r.Some? ==> 16 <= r.value.0 <= |t| && OccursAt(t, "volcanic tremors", r.value.0 - 16)
  {
    if !OccursAt(t, "including", i) then None
    else CountBefore(t, SkipSpaces(t, i + 9), "volcanic tremors")
  }

  /** `getVolcanicEarthquakesCount`: needs the plural "volcanic earthquakes"; null when the digits overflow. */
  function VolcanicEarthquakesCount(e: TaalReportEntry): (r: Option<int>)
    ensures r.Some? ==> 0 <= r.value <= IntMax
    ensures !Contains(e.seismicity, "volcanic earthquakes") ==> r.None?
  {
    match First(e.seismicity, EarthquakesAt)
    case None => None
    case Some(d) =>
      CountFound(e.seismicity, "volcanic earthquakes", EarthquakesAt);
      DigitsAreValue(d);
      KotlinToIntOrNull(d)
  }

  /** `getVolcanicTremorsCount`: needs "including" before the number and the plural "volcanic tremors". */
  function VolcanicTremorsCount(e: TaalReportEntry): (r: Option<int>)
    ensures r.Some? ==> 0 <= r.value <= IntMax
    ensures !Contains(e.seismicity, "volcanic tremors") || !Contains(e.seismicity, "including") ==> r.None?
  {
    match First(e.seismicity, TremorsAt)
    case None => None
    case Some(d) =>
      TremorsFound(e.seismicity);
      DigitsAreValue(d);
      KotlinToIntOrNull(d)
  }

  lemma TremorsFound(t: string)
    requires First(t, TremorsAt).Some?
    ensures |First(t, TremorsAt).value| > 0 && AllDigits(First(t, TremorsAt).value)
    ensures Contains(t, "volcanic tremors") && Contains(t, "including")
  {
    var i :| 0 <= i <= |t| && TremorsAt(t, i).Some? && TremorsAt(t, i).value.1 == First(t, TremorsAt).value;
    ContainsSlice(t, "volcanic tremors", TremorsAt(t, i).value.0 - 16);
    ContainsSlice(t, "including", i);
  }

  /** "<q> volcanic earthquakes including <n> volcanic tremors", as the seismicity cell writes both counts. */
  function CountsPhrase(q: nat, n: nat): string
  {
    NatToString(q) + " volcanic earthquakes " + ("including " + (NatToString(n) + " volcanic tremors"))
  }

  /** Both counts of a seismicity cell read back. */
  lemma TremorsRoundTrip(q: nat, n: nat, rest: string)
    requires q <= IntMax && n <= IntMax
    ensures var e := TaalReportEntry("", "", "", CountsPhrase(q, n) + rest, "", "", "", "", "");
      VolcanicEarthquakesCount(e) == Some(q) && VolcanicTremorsCount(e) == Some(n)
  {
    SpelledCounts(NatToString(q), NatToString(n), rest);
    DigitsOfNat(q);
    DigitsOfNat(n);
  }

  /** Both count patterns read their digits in "<c> volcanic earthquakes including <d> volcanic tremors". */
  lemma SpelledCounts(c: string, d: string, rest: string)
    requires |c| > 0 && AllDigits(c) && |d| > 0 && AllDigits(d)
    ensures var t := c + " volcanic earthquakes " + ("including " + (d + " volcanic tremors")) + rest;
      First(t, EarthquakesAt) == Some(c) && First(t, TremorsAt) == Some(d)
  {
    var a, b := c + " volcanic earthquakes ", "including " + (d + " volcanic tremors");
    var t := a + b + rest;
    Pieces(a, b, rest);
    assert a == c + " " + "volcanic earthquakes" + " ";
    OccursAtSplit(t, c + " " + "volcanic earthquakes", " ", 0);
    CountBeforeAt(t, 0, c, "volcanic earthquakes");
    FirstAt(t, EarthquakesAt, 0);
    TremorsAtSpelled(t, |a|, d);
    NoTremorsBefore(t, c);
    FirstAt(t, TremorsAt, |a|);
  }

  /** Where `a` and `b` lie in `a + b + r`. */
  lemma Pieces(a: string, b: string, r: string)
    ensures OccursAt(a + b + r, a, 0) && OccursAt(a + b + r, b, |a|)
  {
    var t := a + b + r;
    assert t[0..|a|] == a;
    assert t[|a|..|a| + |b|] == b;
  }

  /** "including <d> volcanic tremors" at `p`: the tremors pattern reads `d`. */
  lemma TremorsAtSpelled(t: string, p: nat, d: string)
    requires |d| > 0 && AllDigits(d) && OccursAt(t, "including " + (d + " volcanic tremors"), p)
    ensures TremorsAt(t, p).Some? && TremorsAt(t, p).value.1 == d
  {
    OccursAtSplit(t, "including ", d + " volcanic tremors", p);
    OccursAtSplit(t, "including", " ", p);
    assert t[p + 9] == ' ' by { assert t[p + 9..p + 10] == " "; }
    assert t[p + 10] == d[0] by { assert t[p + 10..p + 10 + |d| + 17][0] == d[0]; }
    assert SkipSpaces(t, p + 9) == p + 10;
    assert d + " volcanic tremors" == d + " " + "volcanic tremors";
    CountBeforeAt(t, p + 10, d, "volcanic tremors");
  }

  /** Nothing before "including" starts it: digits, then " volcanic earthquakes ". */
  lemma NoTremorsBefore(t: string, c: string)
    requires AllDigits(c) && OccursAt(t, c + " volcanic earthquakes ", 0)
    ensures forall j :: 0 <= j < |c| + 22 ==> TremorsAt(t, j).None?
  {
    var w := " volcanic earthquakes ";
    forall j | 0 <= j < |c| + 22
      ensures !OccursAt(t, "including", j)
    {
      assert t[j] == t[..|c| + 22][j];
      if j < |c| {
        assert t[j] == c[j];
      } else if j + 9 <= |t| {
        var k := j - |c|;
        assert t[j] == w[k];
        if k == 6 {
          assert t[j + 1] == t[..|c| + 22][j + 1] == w[7];
        }
        assert t[j..j + 9][0] == t[j];
        assert t[j..j + 9][1] == t[j + 1];
      }
    }
  }

  /** "<n> volcanic earthquakes" at the start of the cell reads back as `n`. */
  lemma EarthquakesRoundTrip(n: nat, rest: string)
    requires n <= IntMax
    ensures VolcanicEarthquakesCount(TaalReportEntry("", "", "", NatToString(n) + " volcanic earthquakes" + rest, "", "", "", "", ""))
         == Some(n)
  {
    var d := NatToString(n);
    var phrase := "volcanic earthquakes";
    var t := d + " volcanic earthquakes" + rest;
    assert t[0..|d| + 1 + |phrase|] == d + " " + phrase;
    CountBeforeAt(t, 0, d, phrase);
    FirstAt(t, EarthquakesAt, 0);
    DigitsOfNat(n);
  }

  // ---------------------------------------------------------- eruption, SO2

  /** `hasEruption`: the cell is neither "0" nor blank. */
  function HasEruption(e: TaalReportEntry): (r: bool)
    ensures r ==> exists k :: 0 <= k < |e.eruption| && !IsSpace(e.eruption[k])
    ensures r <==> e.eruption != "0" && !IsBlank(e.eruption)
  {
    e.eruption != "0" && !IsBlank(e.eruption)
  }

  /** Kotlin's `substringBefore(d)`: the text before the first `d`, or all of it. */
  function SubstringBefore(s: string, d: string): (r: string)
    ensures !Contains(s, d) ==> r == s
    ensures Contains(s, d) ==> |r| + |d| <= |s| && OccursAt(s, d, |r|) && r == s[..|r|]
    ensures Contains(s, d) ==> forall j :: 0 <= j < |r| ==> !OccursAt(s, d, j)
  {
    IndexOfContains(s, d);
    match IndexOf(s, d, 0)
    case None => s
    case Some(k) => s[..k]
  }

  /** `getSo2FluxValue`: commas dropped, the text before " tonnes", trimmed, as a double. */
  function So2FluxValue(e: TaalReportEntry): Option<real>
  {
    KotlinToDouble(SubstringBefore(RemoveChar(e.sulfurDioxideFlux, ','), " tonnes"))
  }

  /** The text before the first `pat` is `d` when `d` lacks the pattern's first character. */
  lemma SubstringBeforeHead(d: string, pat: string, tail: string)
    requires |pat| > 0 && forall k :: 0 <= k < |d| ==> d[k] != pat[0]
    ensures SubstringBefore(d + pat + tail, pat) == d
  {
    var s := d + pat + tail;
    assert OccursAt(s, pat, |d|);
    forall j | 0 <= j < |d| ensures !OccursAt(s, pat, j) {
      assert s[j] == d[j];
      if j + |pat| <= |s| { assert s[j..j + |pat|][0] == s[j]; }
    }
    ContainsSlice(s, pat, |d|);
    assert s[..|d|] == d;
  }

  /** Deleting a character the middle part lacks deletes it around that part. */
  lemma RemoveCharAround(f: string, pat: string, after: string, c: char)
    requires forall k :: 0 <= k < |pat| ==> pat[k] != c
    ensures RemoveChar(f + pat + after, c) == RemoveChar(f, c) + pat + RemoveChar(after, c)
  {
    RemoveCharAppend(f + pat, after, c);
    RemoveCharAppend(f, pat, c);
  }

  /** A grouped count such as "1,234 tonnes / day (…)" reads back as the whole count. */
  lemma So2FluxRoundTrip(n: nat, rest: string)
    ensures So2FluxValue(TaalReportEntry("", "", "", "", "", "", FormatThousands(n) + " tonnes / day" + rest, "", ""))
         == Some(n as real)
  {
    var d := RemoveChar(FormatThousands(n), ',');
    So2CountText(n, rest);
    FormatThousandsDigits(n);
    ParseDecimalDigits(d);
  }

  /** Without its commas and before " tonnes", the flux text is the count's digits. */
  lemma So2CountText(n: nat, rest: string)
    ensures SubstringBefore(RemoveChar(FormatThousands(n) + " tonnes / day" + rest, ','), " tonnes")
         == RemoveChar(FormatThousands(n), ',')
    ensures |RemoveChar(FormatThousands(n), ',')| >= 1
  {
    var f := FormatThousands(n);
    var pat := " tonnes";
    var after := " / day" + rest;
    assert f + " tonnes / day" + rest == f + pat + after;
    RemoveCharAround(f, pat, after, ',');
    var d := RemoveChar(f, ',');
    FormatThousandsDigits(n);
    assert |d| >= 1 by { assert IsDigit(f[0]); assert f[0] in f; }
    DigitsLackSpace(d);
    SubstringBeforeHead(d, pat, RemoveChar(after, ','));
  }

  lemma DigitsLackSpace(d: string)
    requires AllDigits(d)
    ensures forall k :: 0 <= k < |d| ==> d[k] != ' '
  {
    forall k | 0 <= k < |d| ensures d[k] != ' ' {
      assert IsDigit(d[k]);
    }
  }

  /** A cell that starts with a word, such as "Below detection limit", has no value. */
  lemma So2FluxOfWords(e: TaalReportEntry)
    requires |e.sulfurDioxideFlux| > 0 && IsLetter(e.sulfurDioxideFlux[0])
    ensures So2FluxValue(e).None?
  {
    var s := e.sulfurDioxideFlux;
    var c := RemoveChar(s, ',');
    assert c == [s[0]] + RemoveChar(s[1..], ',');
    SubstringBeforeLead(c, " tonnes");
    LetterLeadParse(SubstringBefore(c, " tonnes"));
  }

  /** What comes before a pattern the text does not start with keeps the text's first character. */
  lemma SubstringBeforeLead(c: string, pat: string)
    requires |c| > 0 && |pat| > 0 && c[0] != pat[0]
    ensures |SubstringBefore(c, pat)| > 0 && SubstringBefore(c, pat)[0] == c[0]
  {
    var b := SubstringBefore(c, pat);
    assert !OccursAt(c, pat, 0) by {
      if |pat| <= |c| { assert c[0..|pat|][0] == c[0]; }
    }
  }

  /** Text that starts with a letter is not a number. */
  lemma LetterLeadParse(x: string)
    requires |x| > 0 && IsLetter(x[0])
    ensures KotlinToDouble(x).None?
  {
    assert SkipSpaces(x, 0) == 0;
    var j := TrimEnd(x, 0, |x|);
    assert j > 0;
    var st := Strip(x);
    assert st == x[0..j];
    assert st[0] == x[0];
    assert SkipDigits(st, 0) == 0;
  }
}
