/**
 * The activity report of the Taal monitoring app (taalapppt2's
 * `MainActivity.kt`): which of the three daily forecasts the home screen
 * shows, how the report screen loads its CSV of forecast rows and picks the
 * latest one, and how the plume and ground-deformation cards word a row.
 *
 * The CSV file arrives as its list of lines (`readLines()`); opening the
 * asset is I/O. `SimpleDateFormat("yyyy-MM-dd")` is modelled as three runs
 * of digits separated by `-`, read as a (year, month, day) triple compared
 * in that order.
 */
module ActivityReport {
  import opened Wrappers
  import opened Text
  import opened Numbers

  /**
   * The forecast the home screen shows for the selected date button:
   * 0 today, 1 tomorrow, 2 in three days, anything else today.
   */
  function SelectForecast<T>(selected: int, today: T, tomorrow: T, threeDays: T): (r: T)
    ensures selected == 1 ==> r == tomorrow
    ensures selected == 2 ==> r == threeDays
    ensures selected != 1 && selected != 2 ==> r == today
  {
    match selected
    case 0 => today
    case 1 => tomorrow
    case 2 => threeDays
    case _ => today
  }

  /** A calendar day as `yyyy-MM-dd` spells it. */
  datatype Day = Day(year: nat, month: nat, day: nat)

  /** `a` comes strictly before `b`: by year, then month, then day. */
  predicate Earlier(a: Day, b: Day)
  {
    a.year < b.year
    || (a.year == b.year && (a.month < b.month || (a.month == b.month && a.day < b.day)))
  }

  /** A non-empty run of decimal digits. */
  predicate IsNumeral(s: string)
  {
    |s| > 0 && AllDigits(s)
  }

  /** `dateFormat.parse(token)`: year, month and day as digit runs separated by `-`. */
  function ParseDay(s: string): (r: Option<Day>)
    ensures r.Some? ==> |Split(s, "-")| == 3
  {
    var pieces := Split(s, "-");
    if |pieces| == 3 && IsNumeral(pieces[0]) && IsNumeral(pieces[1]) && IsNumeral(pieces[2]) then
      Some(Day(DigitsValue(pieces[0]), DigitsValue(pieces[1]), DigitsValue(pieces[2])))
    else None
  }

  /** Any spelling `y-m-d` with digit runs (zero-padded or not) parses as that day. */
  lemma DayFromDigits(ys: string, ms: string, ds: string)
    requires IsNumeral(ys) && IsNumeral(ms) && IsNumeral(ds)
    ensures ParseDay(ys + "-" + ms + "-" + ds) == Some(Day(DigitsValue(ys), DigitsValue(ms), DigitsValue(ds)))
  {
    DaySplits(ys, ms, ds);
  }

  /** A `y-m-d` spelling with digit runs splits back into its three runs. */
  lemma DaySplits(ys: string, ms: string, ds: string)
    requires IsNumeral(ys) && IsNumeral(ms) && IsNumeral(ds)
    ensures Split(ys + "-" + ms + "-" + ds, "-") == [ys, ms, ds]
  {
    var pieces := [ys, ms, ds];
    forall k, i | 0 <= k < 3 && 0 <= i < |pieces[k]|
      ensures pieces[k][i] != '-'
    {
      assert IsDigit(pieces[k][i]);
    }
    SplitJoin(pieces, '-');
    DayJoin(ys, ms, ds);
  }

  /** Joining three runs with `-` spells `y-m-d`. */
  lemma DayJoin(ys: string, ms: string, ds: string)
    ensures Join([ys, ms, ds], "-") == ys + "-" + ms + "-" + ds
  {
    assert [ys, ms, ds][1..] == [ms, ds] && [ms, ds][1..] == [ds];
    assert Join([ms, ds], "-") == ms + "-" + ds;
    assert ys + "-" + ms + "-" + ds == ys + "-" + (ms + "-" + ds);
  }

  /** One row of the forecast CSV, as the report screen keeps it (`TaalForecastData`). */
  datatype ForecastRow = ForecastRow(
    date: Day,
    alertLevel: int,
    acidityPh: real,
    craterTemperatureC: real,
    so2FluxTpd: real,
    plumeHeightM: int,
    plumeDriftDirection: string,
    plumeStrength: int,
    volcanicEarthquakes: real,
    totalTremorDurationMin: real,
    calderaTrend: int,
    stInflation: int,
    stDeflation: int,
    ltInflation: int,
    ltDeflation: int)

  /** The fewest tokens a line needs before the screen tries to read it. */
  const MinTokens: nat := 25

  /** `toInt()` on the token does not throw. */
  predicate IsInt(t: string) { KotlinToIntOrNull(t).Some? }

  /** `toDouble()` on the token does not throw (for columns 15 and 16 the truncation after it cannot fail). */
  predicate IsDecimal(t: string) { KotlinToDouble(t).Some? }

  /**
   * Every conversion the row loop attempts succeeds, none of them throws:
   * the date in column 0, `toInt()` on columns 1, 5, 7 and 17-24, and
   * `toDouble()` on columns 2-4 and 8-16, kept by the row or not.
   */
  predicate FieldsParse(tokens: seq<string>)
    requires |tokens| >= MinTokens
  {
    ParseDay(tokens[0]).Some?
    && IsInt(tokens[1]) && IsDecimal(tokens[2]) && IsDecimal(tokens[3]) && IsDecimal(tokens[4])
    && IsInt(tokens[5]) && IsInt(tokens[7])
    && IsDecimal(tokens[8]) && IsDecimal(tokens[9]) && IsDecimal(tokens[10]) && IsDecimal(tokens[11])
    && IsDecimal(tokens[12]) && IsDecimal(tokens[13]) && IsDecimal(tokens[14])
    && IsDecimal(tokens[15]) && IsDecimal(tokens[16])
    && IsInt(tokens[17]) && IsInt(tokens[18]) && IsInt(tokens[19]) && IsInt(tokens[20])
    && IsInt(tokens[21]) && IsInt(tokens[22]) && IsInt(tokens[23]) && IsInt(tokens[24])
  }

  function IntAt(tokens: seq<string>, k: nat): int
    requires k < |tokens| && KotlinToIntOrNull(tokens[k]).Some?
  {
    KotlinToIntOrNull(tokens[k]).value
  }

  function DecimalAt(tokens: seq<string>, k: nat): real
    requires k < |tokens| && KotlinToDouble(tokens[k]).Some?
  {
    KotlinToDouble(tokens[k]).value
  }

  /**
   * The body of the loop's `try`: the row the tokens spell, or None where
   * a conversion throws and the line is skipped.
   */
  function ReadRow(tokens: seq<string>): (r: Option<ForecastRow>)
    requires |tokens| >= MinTokens
    ensures r.Some? <==> FieldsParse(tokens)
    ensures r.Some? ==> r.value.date == ParseDay(tokens[0]).value
    ensures r.Some? ==> r.value.plumeDriftDirection == tokens[6]
    ensures r.Some? ==> Some(r.value.ltInflation) == KotlinToIntOrNull(tokens[21])
                        && Some(r.value.ltDeflation) == KotlinToIntOrNull(tokens[22])
                        && Some(r.value.stInflation) == KotlinToIntOrNull(tokens[23])
                        && Some(r.value.stDeflation) == KotlinToIntOrNull(tokens[24])
  {
    if FieldsParse(tokens) then
      Some(ForecastRow(
        ParseDay(tokens[0]).value,
        IntAt(tokens, 1),
        DecimalAt(tokens, 2),
        DecimalAt(tokens, 3),
        DecimalAt(tokens, 4),
        IntAt(tokens, 5),
        tokens[6],
        IntAt(tokens, 7),
        DecimalAt(tokens, 12),
        DecimalAt(tokens, 14),
        IntAt(tokens, 17),
        IntAt(tokens, 23),
        IntAt(tokens, 24),
        IntAt(tokens, 21),
        IntAt(tokens, 22)))
    else None
  }

  /** What one data line contributes: a row, or nothing when it is short or fails to parse. */
  function RowOfLine(line: string): (r: Option<ForecastRow>)
    ensures r.Some? ==> |Split(line, ",")| >= MinTokens
    ensures |Split(line, ",")| >= MinTokens ==> r == ReadRow(Split(line, ","))
  {
    var tokens := Split(line, ",");
    if |tokens| >= MinTokens then ReadRow(tokens) else None
  }

  /**
   * What a loop that appends `f(x)` whenever it is present ends with, for
   * the elements of `xs` in order.
   */
  function Kept<A, B>(xs: seq<A>, f: A -> Option<B>): (ys: seq<B>)
    ensures |ys| <= |xs|
  {
    if xs == [] then []
    else
      var y := f(xs[|xs| - 1]);
      Kept(xs[..|xs| - 1], f) + (if y.Some? then [y.value] else [])
  }

  /** Every kept value is what some element yields, and in the order of the elements. */
  lemma {:induction false} KeptFrom<A, B>(xs: seq<A>, f: A -> Option<B>)
    ensures forall k :: 0 <= k < |Kept(xs, f)| ==>
              exists i :: 0 <= i < |xs| && f(xs[i]) == Some(Kept(xs, f)[k])
  {
    if xs != [] {
      var init := xs[..|xs| - 1];
      KeptFrom(init, f);
      var before := Kept(init, f);
      var y := f(xs[|xs| - 1]);
      assert Kept(xs, f) == before + (if y.Some? then [y.value] else []);
      forall k | 0 <= k < |Kept(xs, f)|
        ensures exists i :: 0 <= i < |xs| && f(xs[i]) == Some(Kept(xs, f)[k])
      {
        if k < |before| {
          var i :| 0 <= i < |init| && f(init[i]) == Some(before[k]);
          assert xs[i] == init[i];
        } else {
          assert y == Some(Kept(xs, f)[k]);
        }
      }
    } else {
      assert Kept(xs, f) == [];
    }
  }

  /** Every value an element yields is kept. */
  lemma {:induction false} KeptAll<A, B>(xs: seq<A>, f: A -> Option<B>)
    ensures forall i :: 0 <= i < |xs| && f(xs[i]).Some? ==> f(xs[i]).value in Kept(xs, f)
  {
    if xs != [] {
      var init := xs[..|xs| - 1];
      KeptAll(init, f);
      var before := Kept(init, f);
      var y := f(xs[|xs| - 1]);
      assert Kept(xs, f) == before + (if y.Some? then [y.value] else []);
      forall i | 0 <= i < |xs| && f(xs[i]).Some?
        ensures f(xs[i]).value in Kept(xs, f)
      {
        if i < |init| {
          assert xs[i] == init[i];
        }
      }
    }
  }

  /** One more element: its value, if present, goes at the end. */
  lemma KeptAppend<A, B>(xs: seq<A>, x: A, f: A -> Option<B>)
    ensures Kept(xs + [x], f) == Kept(xs, f) + (if f(x).Some? then [f(x).value] else [])
  {
    assert (xs + [x])[..|xs|] == xs;
  }

  /** Nothing is kept exactly when no element yields a value. */
  lemma {:induction false} NothingKept<A, B>(xs: seq<A>, f: A -> Option<B>)
    ensures Kept(xs, f) == [] <==> forall i :: 0 <= i < |xs| ==> f(xs[i]).None?
  {
    if xs != [] {
      var init := xs[..|xs| - 1];
      NothingKept(init, f);
      assert forall i :: 0 <= i < |init| ==> init[i] == xs[i];
    }
  }

  /** The rows of the data lines, in file order (`allData` once the loop is done). */
  function ValidRows(lines: seq<string>): (rows: seq<ForecastRow>)
  {
    Kept(lines, RowOfLine)
  }

  /** Each loaded row is the row of some data line, and every data line that reads contributes its row. */
  lemma RowsComeFromLines(lines: seq<string>)
    ensures forall row :: row in ValidRows(lines) ==> exists i :: 0 <= i < |lines| && RowOfLine(lines[i]) == Some(row)
    ensures forall i :: 0 <= i < |lines| && RowOfLine(lines[i]).Some? ==> RowOfLine(lines[i]).value in ValidRows(lines)
  {
    KeptFrom(lines, RowOfLine);
    forall row | row in ValidRows(lines)
      ensures exists i :: 0 <= i < |lines| && RowOfLine(lines[i]) == Some(row)
    {
      var k :| 0 <= k < |ValidRows(lines)| && ValidRows(lines)[k] == row;
      var i :| 0 <= i < |lines| && (RowOfLine)(lines[i]) == Some(ValidRows(lines)[k]);
      assert RowOfLine(lines[i]) == Some(row);
    }
    LinesGiveRows(lines);
  }

  /** Every data line that reads contributes its row. */
  lemma LinesGiveRows(lines: seq<string>)
    ensures forall i :: 0 <= i < |lines| && RowOfLine(lines[i]).Some? ==> RowOfLine(lines[i]).value in ValidRows(lines)
  {
    KeptAll(lines, RowOfLine);
  }

  /** No row is loaded exactly when no data line yields one. */
  lemma NoValidRows(lines: seq<string>)
    ensures ValidRows(lines) == [] <==> forall i :: 0 <= i < |lines| ==> RowOfLine(lines[i]).None?
  {
    NothingKept(lines, RowOfLine);
  }

  /** A line joined from the row's fields, in column order, is read back as that row. */
  lemma WrittenRowReadsBack(tokens: seq<string>, row: ForecastRow)
    requires |tokens| == MinTokens
    requires forall k, i :: 0 <= k < |tokens| && 0 <= i < |tokens[k]| ==> tokens[k][i] != ','
    requires ParseDay(tokens[0]) == Some(row.date)
    requires KotlinToIntOrNull(tokens[1]) == Some(row.alertLevel)
    requires KotlinToDouble(tokens[2]) == Some(row.acidityPh)
    requires KotlinToDouble(tokens[3]) == Some(row.craterTemperatureC)
    requires KotlinToDouble(tokens[4]) == Some(row.so2FluxTpd)
    requires KotlinToIntOrNull(tokens[5]) == Some(row.plumeHeightM)
    requires tokens[6] == row.plumeDriftDirection
    requires KotlinToIntOrNull(tokens[7]) == Some(row.plumeStrength)
    requires KotlinToDouble(tokens[12]) == Some(row.volcanicEarthquakes)
    requires KotlinToDouble(tokens[14]) == Some(row.totalTremorDurationMin)
    requires KotlinToIntOrNull(tokens[17]) == Some(row.calderaTrend)
    requires KotlinToIntOrNull(tokens[21]) == Some(row.ltInflation)
    requires KotlinToIntOrNull(tokens[22]) == Some(row.ltDeflation)
    requires KotlinToIntOrNull(tokens[23]) == Some(row.stInflation)
    requires KotlinToIntOrNull(tokens[24]) == Some(row.stDeflation)
    requires IsInt(tokens[18]) && IsInt(tokens[19]) && IsInt(tokens[20])
    requires IsDecimal(tokens[8]) && IsDecimal(tokens[9]) && IsDecimal(tokens[10]) && IsDecimal(tokens[11])
    requires IsDecimal(tokens[13]) && IsDecimal(tokens[15]) && IsDecimal(tokens[16])
    ensures RowOfLine(Join(tokens, ",")) == Some(row)
  {
    SplitJoin(tokens, ',');
    assert FieldsParse(tokens);
  }

  /**
   * Where `sortedByDescending { it.date }.firstOrNull()` lands: a row with
   * the latest date, and, the sort being stable, the first such row.
   */
  function LatestIndex(rows: seq<ForecastRow>): (i: nat)
    requires rows != []
    ensures i < |rows|
    ensures forall j :: 0 <= j < |rows| ==> !Earlier(rows[i].date, rows[j].date)
    ensures forall j :: 0 <= j < i ==> Earlier(rows[j].date, rows[i].date)
  {
    if |rows| == 1 then 0
    else
      var k := LatestIndex(rows[..|rows| - 1]);
      if Earlier(rows[k].date, rows[|rows| - 1].date) then |rows| - 1 else k
  }

  /** The two properties of `LatestIndex` single out one row. */
  lemma LatestIsUnique(rows: seq<ForecastRow>, k: nat)
    requires k < |rows|
    requires forall j :: 0 <= j < |rows| ==> !Earlier(rows[k].date, rows[j].date)
    requires forall j :: 0 <= j < k ==> Earlier(rows[j].date, rows[k].date)
    ensures LatestIndex(rows) == k
  {
  }

  /** The row the report shows, if any row was loaded. */
  function Latest(rows: seq<ForecastRow>): (r: Option<ForecastRow>)
    ensures r.None? <==> rows == []
    ensures r.Some? ==> r.value in rows
    ensures r.Some? ==> forall j :: 0 <= j < |rows| ==> !Earlier(r.value.date, rows[j].date)
  {
    if rows == [] then None else Some(rows[LatestIndex(rows)])
  }

  /**
   * After the header, the report has no row to show, and so reports an
   * error, exactly when no data line reads as a row.
   */
  lemma NoRowExactlyWhenNoLineReads(lines: seq<string>)
    requires |lines| > 1
    ensures Latest(ValidRows(lines[1..])).None? <==> forall i :: 1 <= i < |lines| ==> RowOfLine(lines[i]).None?
  {
    var data := lines[1..];
    NoValidRows(data);
    assert Latest(ValidRows(data)).None? <==> ValidRows(data) == [];
    assert (forall i :: 1 <= i < |lines| ==> RowOfLine(lines[i]).None?)
      <==> (forall i :: 0 <= i < |data| ==> RowOfLine(data[i]).None?)
    by {
      assert forall i :: 1 <= i < |lines| ==> lines[i] == data[i - 1];
      assert forall i :: 0 <= i < |data| ==> data[i] == lines[i + 1];
    }
  }

  const EmptyFileError := "CSV file is empty or contains only header."
  const NoRowsError := "No valid data rows found in CSV."

  /**
   * One pass of the row loop: split on commas, skip a short line, and try
   * every conversion; a conversion that throws skips the line as well.
   */
  method ReadLine(line: string) returns (row: Option<ForecastRow>)
    ensures row == RowOfLine(line)
    ensures row.Some? ==> |Split(line, ",")| >= MinTokens && FieldsParse(Split(line, ","))
  {
    var tokens := Split(line, ",");
    row := None;
    if |tokens| >= MinTokens {
      row := ReadRow(tokens);
    }
  }

  /** The line loop of the launch effect: after the header, every line that reads adds its row, in order. */
  method CollectRows(lines: seq<string>) returns (allData: seq<ForecastRow>)
    requires |lines| >= 1
    ensures allData == ValidRows(lines[1..])
  {
    allData := [];
    var i := 1;
    while i < |lines|
      invariant 1 <= i <= |lines|
      invariant allData == ValidRows(lines[1..i])
    {
      var row := ReadLine(lines[i]);
      ValidRowsStep(lines, i, row);
      if row.Some? {
        allData := allData + [row.value];
      }
      i := i + 1;
    }
    assert lines[1..i] == lines[1..];
  }

  /** One more line adds its row, when it reads, to the rows of the lines before it. */
  lemma ValidRowsStep(lines: seq<string>, i: nat, row: Option<ForecastRow>)
    requires 1 <= i < |lines| && row == RowOfLine(lines[i])
    ensures ValidRows(lines[1..i + 1]) == ValidRows(lines[1..i]) + (if row.Some? then [row.value] else [])
  {
    KeptStep(lines, i, RowOfLine);
  }

  /** The kept values of `xs[1..i + 1]`: those of `xs[1..i]`, then that of `xs[i]` when it yields one. */
  lemma KeptStep<A, B>(xs: seq<A>, i: nat, f: A -> Option<B>)
    requires 1 <= i < |xs|
    ensures Kept(xs[1..i + 1], f) == Kept(xs[1..i], f) + (if f(xs[i]).Some? then [f(xs[i]).value] else [])
  {
    assert xs[1..i + 1] == xs[1..i] + [xs[i]];
    KeptAppend(xs[1..i], xs[i], f);
  }

  /** The state of the activity report screen. */
  class ReportScreen {
    var latest: Option<ForecastRow>
    var isLoading: bool
    var error: Option<string>

    /** The screen as first composed: loading, no row, no error. */
    constructor()
      ensures latest.None? && isLoading && error.None?
    {
      latest := None;
      isLoading := true;
      error := None;
    }

    /**
     * The screen's launch effect on the file's lines: skip the header, keep
     * every data line that reads as a row, show the latest of them.
     */
    method Load(lines: seq<string>)
      modifies this
      ensures !isLoading
      ensures |lines| <= 1 ==> error == Some(EmptyFileError) && latest == old(latest)
      ensures |lines| > 1 ==> latest == Latest(ValidRows(lines[1..]))
      ensures |lines| > 1 ==> error == (if latest.None? then Some(NoRowsError) else None)
    {
      isLoading := true;
      error := None;
      if |lines| <= 1 {
        error := Some(EmptyFileError);
      } else {
        var allData := CollectRows(lines);
        latest := Latest(allData);
        if latest.None? {
          error := Some(NoRowsError);
        }
      }
      isLoading := false;
    }
  }

  /** The card's word for the plume's strength. */
  function StrengthWord(plumeStrength: int): (w: string)
    ensures w == "Weak" <==> plumeStrength == 0
    ensures w == "Strong" <==> plumeStrength != 0
  {
    if plumeStrength == 0 then "Weak" else "Strong"
  }

  /** `replaceFirstChar { titlecase if lower case }` on ASCII letters. */
  function TitleFirst(s: string): (r: string)
    ensures |r| == |s|
    ensures |s| > 0 ==> r[0] == UpperChar(s[0]) && r[1..] == s[1..]
  {
    if s == [] then s else [UpperChar(s[0])] + s[1..]
  }

  const HeightUnit := " meters high; "

  /** The plume card's description of a row: it names the strength word and the drift. */
  function PlumeDescription(row: ForecastRow): (r: string)
    ensures Contains(r, StrengthWord(row.plumeStrength))
    ensures Contains(r, TitleFirst(row.plumeDriftDirection))
  {
    var lead := IntToString(row.plumeHeightM) + HeightUnit;
    var tail := PlumeTail(row.plumeDriftDirection);
    ContainsMiddle(lead, StrengthWord(row.plumeStrength), tail);
    ContainsMiddle(" evaporation; stranded in the ", TitleFirst(row.plumeDriftDirection),
      "; exercise caution as visibility may be affected and mild ashfall is possible");
    ContainsAppend(lead + StrengthWord(row.plumeStrength), tail, TitleFirst(row.plumeDriftDirection));
    lead + StrengthWord(row.plumeStrength) + tail
  }

  /** What follows the strength word: the drift direction, capitalised, and the advice. */
  function PlumeTail(drift: string): string
  {
    " evaporation; stranded in the " + TitleFirst(drift)
      + "; exercise caution as visibility may be affected and mild ashfall is possible"
  }

  /** A word spelled without blanks, then a blank: the first blank is where the word ends. */
  lemma FirstBlankAfter(w: string, rest: string)
    requires forall j :: 0 <= j < |w| ==> w[j] != ' '
    requires |rest| > 0 && rest[0] == ' '
    ensures IndexOf(w + rest, " ", 0) == Some(|w|)
  {
    var d := w + rest;
    forall j: nat | j < |w| ensures !OccursAt(d, " ", j) {
      OccursAtChar(d, ' ', j);
      assert d[j] == w[j];
    }
    OccursAtChar(d, ' ', |w|);
  }

  /** An integer's spelling holds no blank. */
  lemma NoBlankInInt(n: int)
    ensures forall j :: 0 <= j < |IntToString(n)| ==> IntToString(n)[j] != ' '
  {
    var h := IntToString(n);
    forall j | 0 <= j < |h| ensures h[j] != ' ' {
      if n < 0 && j > 0 {
        assert h[j] == NatToString(-n)[j - 1];
      }
    }
  }

  /** After the height and its unit comes the strength word, whatever follows it. */
  lemma StrengthAfterUnit(h: string, w: string, t: string)
    requires w == StrengthWord(0) || w == StrengthWord(1)
    ensures (h + HeightUnit + w + t)[|h| + |HeightUnit|..] == w + t
    ensures StartsWith(w + t, "Weak") <==> w == "Weak"
  {
    assert (h + HeightUnit + w + t)[|h| + |HeightUnit|..] == w + t;
    assert (w + t)[0] == w[0];
  }

  /** The height, its unit, a strength word and any tail: height and word can be read back. */
  lemma HeightThenStrength(n: int, w: string, t: string)
    requires InIntRange(n)
    requires w == StrengthWord(0) || w == StrengthWord(1)
    ensures var h := IntToString(n);
            var d := h + HeightUnit + w + t;
            IndexOf(d, " ", 0) == Some(|h|)
            && KotlinToIntOrNull(d[..|h|]) == Some(n)
            && (StartsWith(d[|h| + |HeightUnit|..], "Weak") <==> w == "Weak")
  {
    var h := IntToString(n);
    var d := h + HeightUnit + w + t;
    assert IndexOf(d, " ", 0) == Some(|h|) by {
      assert d == h + (HeightUnit + w + t);
      NoBlankInInt(n);
      FirstBlankAfter(h, HeightUnit + w + t);
    }
    assert KotlinToIntOrNull(d[..|h|]) == Some(n) by {
      assert d[..|h|] == h;
      IntToStringRoundTrip(n);
    }
    StrengthAfterUnit(h, w, t);
  }

  /**
   * A reader of the plume card gets the height back from the text before
   * the first blank, and the strength is weak exactly when the word after
   * the unit is "Weak".
   */
  lemma PlumeDescriptionReadsBack(row: ForecastRow)
    requires InIntRange(row.plumeHeightM)
    ensures var d := PlumeDescription(row);
            var n := |IntToString(row.plumeHeightM)|;
            IndexOf(d, " ", 0) == Some(n)
            && KotlinToIntOrNull(d[..n]) == Some(row.plumeHeightM)
            && (StartsWith(d[n + |HeightUnit|..], "Weak") <==> row.plumeStrength == 0)
  {
    HeightThenStrength(row.plumeHeightM, StrengthWord(row.plumeStrength), PlumeTail(row.plumeDriftDirection));
  }

  /** The long-term word: subsidence wins over inflation. */
  function LongTermWord(ltInflation: int, ltDeflation: int): (w: string)
    ensures w == "subsidence" <==> ltDeflation == 1
    ensures w == "inflation" <==> ltDeflation != 1 && ltInflation == 1
    ensures w == "stable" <==> ltDeflation != 1 && ltInflation != 1
  {
    if ltDeflation == 1 then "subsidence" else if ltInflation == 1 then "inflation" else "stable"
  }

  /** The short-term word: swelling wins over deflation. */
  function ShortTermWord(stInflation: int, stDeflation: int): (w: string)
    ensures w == "swelling" <==> stInflation == 1
    ensures w == "deflation" <==> stInflation != 1 && stDeflation == 1
    ensures w == "stable" <==> stInflation != 1 && stDeflation != 1
  {
    if stInflation == 1 then "swelling" else if stDeflation == 1 then "deflation" else "stable"
  }

  const LongTermLead := "Long-term "
  const CalderaPart := " of the larger Taal Caldera with short-term "
  const IslandPart := " of the southeastern part of Taal Volcano Island"

  /** The ground-deformation card's description of a row: it names the long-term and the short-term word. */
  function GroundDeformationDescription(row: ForecastRow): (r: string)
    ensures Contains(r, LongTermWord(row.ltInflation, row.ltDeflation))
    ensures Contains(r, ShortTermWord(row.stInflation, row.stDeflation))
  {
    var lw := LongTermWord(row.ltInflation, row.ltDeflation);
    var sw := ShortTermWord(row.stInflation, row.stDeflation);
    ContainsMiddle(LongTermLead, lw, CalderaPart);
    ContainsAppend(LongTermLead + lw + CalderaPart, sw, lw);
    ContainsAppend(LongTermLead + lw + CalderaPart + sw, IslandPart, lw);
    ContainsMiddle(LongTermLead + lw + CalderaPart, sw, IslandPart);
    LongTermLead + lw + CalderaPart + sw + IslandPart
  }

  /**
   * Two words set in the same frame, each told apart from its rivals by
   * its first two letters: equal texts mean equal words.
   */
  lemma FramedWords(lead: string, mid: string, tail: string, la: string, lb: string, sa: string, sb: string)
    requires |la| >= 2 && |lb| >= 2 && |sa| >= 2 && |sb| >= 2
    requires la[..2] == lb[..2] ==> la == lb
    requires sa[..2] == sb[..2] ==> sa == sb
    requires lead + la + mid + sa + tail == lead + lb + mid + sb + tail
    ensures la == lb && sa == sb
  {
    var d := lead + la + mid + sa + tail;
    var e := lead + lb + mid + sb + tail;
    var n := |lead|;
    assert d[n..n + 2] == la[..2];
    assert e[n..n + 2] == lb[..2];
    var m := n + |la| + |mid|;
    assert d[m..m + 2] == sa[..2];
    assert e[m..m + 2] == sb[..2];
  }

  /** The long-term trend words differ in their first two letters. */
  lemma LongTermWordsApart(a1: int, a2: int, b1: int, b2: int)
    ensures var la, lb := LongTermWord(a1, a2), LongTermWord(b1, b2);
            la[..2] == lb[..2] ==> la == lb
  {
    assert "subsidence"[..2] == "su" && "inflation"[..2] == "in" && "stable"[..2] == "st";
  }

  /** The short-term trend words differ in their first two letters. */
  lemma ShortTermWordsApart(a1: int, a2: int, b1: int, b2: int)
    ensures var sa, sb := ShortTermWord(a1, a2), ShortTermWord(b1, b2);
            sa[..2] == sb[..2] ==> sa == sb
  {
    assert "swelling"[..2] == "sw" && "deflation"[..2] == "de" && "stable"[..2] == "st";
  }

  /** Two rows worded alike have the same long-term and the same short-term trend word. */
  lemma GroundDeformationDistinguishes(a: ForecastRow, b: ForecastRow)
    requires GroundDeformationDescription(a) == GroundDeformationDescription(b)
    ensures LongTermWord(a.ltInflation, a.ltDeflation) == LongTermWord(b.ltInflation, b.ltDeflation)
    ensures ShortTermWord(a.stInflation, a.stDeflation) == ShortTermWord(b.stInflation, b.stDeflation)
  {
    LongTermWordsApart(a.ltInflation, a.ltDeflation, b.ltInflation, b.ltDeflation);
    ShortTermWordsApart(a.stInflation, a.stDeflation, b.stInflation, b.stDeflation);
    FramedWords(LongTermLead, CalderaPart, IslandPart,
      LongTermWord(a.ltInflation, a.ltDeflation), LongTermWord(b.ltInflation, b.ltDeflation),
      ShortTermWord(a.stInflation, a.stDeflation), ShortTermWord(b.stInflation, b.stDeflation));
  }
}
