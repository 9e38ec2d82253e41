/**
 * The date of a bulletin (webscraper.py): taken from its link's text by four
 * date patterns tried in a fixed order, the whole leftmost match of the
 * first pattern that matches anywhere, case ignored; failing that, from its
 * url by the year-month-day pattern alone.
 */
module BulletinDates {
  import opened Wrappers
  import opened Text
  import opened Numbers
  import opened Scan

  /** `\d{1,2}` at `i`: one digit, or two when there are two. */
  function OneOrTwoDigits(s: string, i: nat): (r: Option<nat>)
    ensures r.Some? <==> i < |s| && IsDigit(s[i])
    ensures r.Some? ==> i < r.value <= i + 2 && r.value <= |s|
    ensures r.Some? ==> forall k :: i <= k < r.value ==> IsDigit(s[k])
    ensures r.Some? && r.value == i + 1 ==> r.value == |s| || !IsDigit(s[r.value])
  {
    if i < |s| && IsDigit(s[i]) then
      if i + 1 < |s| && IsDigit(s[i + 1]) then Some(i + 2) else Some(i + 1)
    else None
  }

  /** `\d{4}` at `i`. */
  function FourDigits(s: string, i: nat): (r: Option<nat>)
    ensures r.Some? <==> i + 4 <= |s| && forall k :: i <= k < i + 4 ==> IsDigit(s[k])
    ensures r.Some? ==> r.value == i + 4
  {
    if i + 4 <= |s| && IsDigit(s[i]) && IsDigit(s[i + 1]) && IsDigit(s[i + 2]) && IsDigit(s[i + 3])
    then Some(i + 4) else None
  }

  /** `\s+` at `i`: the whole run of blanks, when there is at least one. */
  function Blanks(s: string, i: nat): (r: Option<nat>)
    ensures r.Some? <==> i < |s| && IsSpace(s[i])
    ensures r.Some? ==> r.value == SkipSpaces(s, i)
  {
    if i < |s| && IsSpace(s[i]) then Some(SkipSpaces(s, i)) else None
  }

  /** The character `c` at `i`. */
  function Char(s: string, i: nat, c: char): (r: Option<nat>)
    ensures r.Some? <==> i < |s| && s[i] == c
    ensures r.Some? ==> r.value == i + 1
  {
    if i < |s| && s[i] == c then Some(i + 1) else None
  }

  /** The month names, lower-cased (the patterns ignore case). */
  const Months: seq<string> :=
    ["january", "february", "march", "april", "may", "june",
     "july", "august", "september", "october", "november", "december"]

  /** The end of the first of `names` that occurs at `i`. */
  function NameAt(s: string, i: nat, names: seq<string>): (r: Option<nat>)
    ensures r.Some? ==> exists k :: 0 <= k < |names| && OccursAt(s, names[k], i) && r.value == i + |names[k]|
                                    && forall j :: 0 <= j < k ==> !OccursAt(s, names[j], i)
    ensures r.None? ==> forall k :: 0 <= k < |names| ==> !OccursAt(s, names[k], i)
  {
    if names == [] then None
    else if OccursAt(s, names[0], i) then Some(i + |names[0]|)
    else
      var r := NameAt(s, i, names[1..]);
      assert forall k :: 1 <= k < |names| ==> names[1..][k - 1] == names[k];
      r
  }

  /** `(January|...|December)` at `i`, on lower-cased text. */
  function MonthAt(s: string, i: nat): (r: Option<nat>)
  {
    NameAt(s, i, Months)
  }

  /** `\d{1,2}\s+(January|...|December)\s+\d{4}`, anchored at `i`. */
  function DayMonthYear(s: string, i: nat): (r: Option<(nat, ())>)
    ensures r.Some? ==> i < r.value.0 <= |s|
  {
    match OneOrTwoDigits(s, i)
    case None => None
    case Some(a) =>
      match Blanks(s, a)
      case None => None
      case Some(b) =>
        match MonthAt(s, b)
        case None => None
        case Some(c) =>
          match Blanks(s, c)
          case None => None
          case Some(d) =>
            match FourDigits(s, d)
            case None => None
            case Some(e) => Some((e, ()))
  }

  /** `(January|...|December)\s+\d{1,2},?\s+\d{4}`, anchored at `i`. */
  function MonthDayYear(s: string, i: nat): (r: Option<(nat, ())>)
    ensures r.Some? ==> i < r.value.0 <= |s|
  {
    match MonthAt(s, i)
    case None => None
    case Some(a) =>
      match Blanks(s, a)
      case None => None
      case Some(b) =>
        match OneOrTwoDigits(s, b)
        case None => None
        case Some(c) =>
          var c' := Char(s, c, ',').GetOr(c);
          match Blanks(s, c')
          case None => None
          case Some(d) =>
            match FourDigits(s, d)
            case None => None
            case Some(e) => Some((e, ()))
  }

  /** `\d{4}-\d{1,2}-\d{1,2}`, anchored at `i`. */
  function IsoDate(s: string, i: nat): (r: Option<(nat, ())>)
    ensures r.Some? ==> i < r.value.0 <= |s|
  {
    match FourDigits(s, i)
    case None => None
    case Some(a) =>
      match Char(s, a, '-')
      case None => None
      case Some(b) =>
        match OneOrTwoDigits(s, b)
        case None => None
        case Some(c) =>
          match Char(s, c, '-')
          case None => None
          case Some(d) =>
            match OneOrTwoDigits(s, d)
            case None => None
            case Some(e) => Some((e, ()))
  }

  /** `\d{1,2}/\d{1,2}/\d{4}`, anchored at `i`. */
  function SlashDate(s: string, i: nat): (r: Option<(nat, ())>)
    ensures r.Some? ==> i < r.value.0 <= |s|
  {
    match OneOrTwoDigits(s, i)
    case None => None
    case Some(a) =>
      match Char(s, a, '/')
      case None => None
      case Some(b) =>
        match OneOrTwoDigits(s, b)
        case None => None
        case Some(c) =>
          match Char(s, c, '/')
          case None => None
          case Some(d) =>
            match FourDigits(s, d)
            case None => None
            case Some(e) => Some((e, ()))
  }

  /** A pattern whose matches run forward and stay inside the text. */
  ghost predicate Forward(m: Matcher<()>)
  {
    forall s: string, i: nat :: m(s, i).Some? ==> i < m(s, i).value.0 <= |s|
  }

  /** The date patterns, in the order they are tried. */
  const DatePatterns: seq<Matcher<()>> := [DayMonthYear, MonthDayYear, IsoDate, SlashDate]

  lemma DatePatternsForward()
    ensures forall k :: 0 <= k < |DatePatterns| ==> Forward(DatePatterns[k])
  {
    assert Forward(DayMonthYear) && Forward(MonthDayYear) && Forward(IsoDate) && Forward(SlashDate);
  }

  /**
   * The first of `patterns` that matches anywhere in `s`, with its leftmost
   * match: the loop over the patterns that returns at the first match.
   */
  function FirstPattern(s: string, patterns: seq<Matcher<()>>): (r: Option<(nat, Found<()>)>)
    ensures r.Some? ==> r.value.0 < |patterns| && Search(s, patterns[r.value.0], 0) == Some(r.value.1)
    ensures r.Some? ==> forall j :: 0 <= j < r.value.0 ==> Search(s, patterns[j], 0).None?
    ensures r.None? ==> forall j :: 0 <= j < |patterns| ==> Search(s, patterns[j], 0).None?
  {
    if patterns == [] then None
    else match Search(s, patterns[0], 0)
      case Some(f) => Some((0, f))
      case None =>
        match FirstPattern(s, patterns[1..])
        case Some(kf) => Some((kf.0 + 1, kf.1))
        case None => None
  }

  /** `extract_date_from_text`: the text of the first date found, in the order of the patterns. */
  function DateFromText(text: string): (r: Option<string>)
    ensures text == "" ==> r.None?
    ensures text != "" && r.None? ==> forall j :: 0 <= j < |DatePatterns| ==> Search(Lower(text), DatePatterns[j], 0).None?
    ensures r.Some? ==>
              exists k, f :: 0 <= k < |DatePatterns| && Search(Lower(text), DatePatterns[k], 0) == Some(f)
                             && (forall j :: 0 <= j < k ==> Search(Lower(text), DatePatterns[j], 0).None?)
                             && f.start < f.end <= |text| && r.value == text[f.start..f.end]
  {
    if text == "" then None
    else match FirstPattern(Lower(text), DatePatterns)
      case Some(kf) =>
        DatePatternsForward();
        assert MatchesAt(Lower(text), DatePatterns[kf.0], kf.1);
        Some(text[kf.1.start..kf.1.end])
      case None => None
  }

  /** `extract_date_from_url`: the first year-month-day date in the url. */
  function DateFromUrl(url: string): (r: Option<string>)
    ensures r.Some? ==> exists f :: Search(url, IsoDate, 0) == Some(f) && f.start < f.end <= |url| && r.value == url[f.start..f.end]
    ensures r.None? <==> url == "" || Search(url, IsoDate, 0).None?
  {
    if url == "" then None
    else match Search(url, IsoDate, 0)
      case Some(f) => Some(url[f.start..f.end])
      case None => None
  }

  /** The date of a bulletin link: from its text, or else from its url. */
  function BulletinDate(text: string, url: string): Option<string>
  {
    match DateFromText(text)
    case Some(d) => Some(d)
    case None => DateFromUrl(url)
  }

  /** The year-month-day spelling of a date, from its digit groups. */
  function IsoSpelling(ys: string, ms: string, ds: string): string
  {
    ys + "-" + ms + "-" + ds
  }

  /** A four-digit year and one- or two-digit month and day. */
  predicate DateDigits(ys: string, ms: string, ds: string)
  {
    |ys| == 4 && AllDigits(ys) && 1 <= |ms| <= 2 && AllDigits(ms) && 1 <= |ds| <= 2 && AllDigits(ds)
  }

  /** The year-month-day pattern reads a date spelled that way, up to its last digit. */
  lemma IsoDateAt(s: string, p: nat, ys: string, ms: string, ds: string)
    requires DateDigits(ys, ms, ds)
    requires OccursAt(s, IsoSpelling(ys, ms, ds), p)
    requires p + |IsoSpelling(ys, ms, ds)| == |s| || !IsDigit(s[p + |IsoSpelling(ys, ms, ds)|])
    ensures IsoDate(s, p) == Some((p + |IsoSpelling(ys, ms, ds)|, ()))
  {
    var date := IsoSpelling(ys, ms, ds);
    assert forall k :: 0 <= k < |date| ==> s[p + k] == date[k] by {
      assert s[p..p + |date|] == date;
    }
    assert forall k :: 0 <= k < 4 ==> date[k] == ys[k];
    assert date[4] == '-';
    assert forall k :: 0 <= k < |ms| ==> date[5 + k] == ms[k];
    assert date[5 + |ms|] == '-';
    assert forall k :: 0 <= k < |ds| ==> date[6 + |ms| + k] == ds[k];
    assert FourDigits(s, p) == Some(p + 4);
    assert OneOrTwoDigits(s, p + 5) == Some(p + 5 + |ms|);
    assert OneOrTwoDigits(s, p + 6 + |ms|) == Some(p + |date|);
  }

  /**
   * A url holding a year-month-day date after a part without digits yields
   * exactly that date, whatever follows it short of another digit.
   */
  lemma DateFromUrlRoundTrip(prefix: string, ys: string, ms: string, ds: string, suffix: string)
    requires NoDigits(prefix) && DateDigits(ys, ms, ds)
    requires suffix == [] || !IsDigit(suffix[0])
    ensures DateFromUrl(prefix + IsoSpelling(ys, ms, ds) + suffix) == Some(IsoSpelling(ys, ms, ds))
  {
    var date := IsoSpelling(ys, ms, ds);
    var url := prefix + date + suffix;
    var p := |prefix|;
    assert url[p..p + |date|] == date;
    assert forall j :: 0 <= j < p ==> url[j] == prefix[j];
    assert p + |date| < |url| ==> url[p + |date|] == suffix[0];
    IsoDateAt(url, p, ys, ms, ds);
    assert forall j :: 0 <= j < p ==> IsoDate(url, j).None? by {
      forall j | 0 <= j < p ensures FourDigits(url, j).None? {
        assert !IsDigit(url[j]);
      }
    }
    SearchSkip(url, IsoDate, 0, p);
  }

  /** The month a three-letter abbreviation stands for (12 for none). */
  function MonthOfAbbreviation(w: string): (k: nat)
  {
    if w == "jan" then 0 else if w == "feb" then 1 else if w == "mar" then 2
    else if w == "apr" then 3 else if w == "may" then 4 else if w == "jun" then 5
    else if w == "jul" then 6 else if w == "aug" then 7 else if w == "sep" then 8
    else if w == "oct" then 9 else if w == "nov" then 10 else if w == "dec" then 11
    else 12
  }

  /** Each month name is recognised by its first three letters. */
  lemma MonthAbbreviation(k: nat)
    requires k < |Months|
    ensures |Months[k]| >= 3 && MonthOfAbbreviation(Months[k][..3]) == k
  {
    if k == 0 { assert Months[0][..3] == "jan"; }
    else if k == 1 { assert Months[1][..3] == "feb"; }
    else if k == 2 { assert Months[2][..3] == "mar"; }
    else if k == 3 { assert Months[3][..3] == "apr"; }
    else if k == 4 { assert Months[4][..3] == "may"; }
    else if k == 5 { assert Months[5][..3] == "jun"; }
    else if k == 6 { assert Months[6][..3] == "jul"; }
    else if k == 7 { assert Months[7][..3] == "aug"; }
    else if k == 8 { assert Months[8][..3] == "sep"; }
    else if k == 9 { assert Months[9][..3] == "oct"; }
    else if k == 10 { assert Months[10][..3] == "nov"; }
    else { assert Months[11][..3] == "dec"; }
  }

  /** No two month names share their first three letters, and none is shorter. */
  lemma MonthsDiffer(j: nat, k: nat)
    requires j < k < |Months|
    ensures |Months[j]| >= 3 && |Months[k]| >= 3
    ensures Months[j][..3] != Months[k][..3]
  {
    MonthAbbreviation(j);
    MonthAbbreviation(k);
  }

  /** Where a word of three letters or more occurs, so do its first three letters. */
  lemma OccursAtHead(lt: string, w: string, b: nat)
    ensures OccursAt(lt, w, b) && |w| >= 3 ==> lt[b..b + 3] == w[..3]
  {
    if OccursAt(lt, w, b) && |w| >= 3 {
      assert lt[b..b + |w|][..3] == lt[b..b + 3];
    }
  }

  /** The month pattern reads the month name spelled at `b`, in any case. */
  lemma MonthAtName(lt: string, b: nat, k: nat)
    requires k < |Months| && OccursAt(lt, Months[k], b)
    ensures MonthAt(lt, b) == Some(b + |Months[k]|)
  {
    forall j | 0 <= j < k ensures !OccursAt(lt, Months[j], b) {
      MonthsDiffer(j, k);
      OccursAtHead(lt, Months[j], b);
      OccursAtHead(lt, Months[k], b);
    }
  }

  /** Every month name starts with a letter. */
  lemma MonthStartsWithLetter(k: nat)
    requires k < |Months|
    ensures |Months[k]| >= 1 && IsLetter(Months[k][0])
  {
  }

  /** A one- or two-digit day and a four-digit year. */
  predicate DayDigits(ds: string, ys: string)
  {
    1 <= |ds| <= 2 && AllDigits(ds) && |ys| == 4 && AllDigits(ys)
  }

  /** The day-month-year spelling of a date. */
  function DaySpelling(ds: string, month: string, ys: string): string
  {
    ds + " " + month + " " + ys
  }

  /** `\d{1,2}\s+` reads a day and the one blank after it. */
  lemma DayThenBlank(lt: string, p: nat, ds: string)
    requires 1 <= |ds| <= 2 && AllDigits(ds) && OccursAt(lt, ds + " ", p)
    requires p + |ds| + 1 < |lt| && !IsSpace(lt[p + |ds| + 1])
    ensures OneOrTwoDigits(lt, p) == Some(p + |ds|) && Blanks(lt, p + |ds|) == Some(p + |ds| + 1)
  {
    var a := p + |ds|;
    OccursAtSplit(lt, ds, " ", p);
    assert lt[p] == ds[0] && (|ds| == 2 ==> lt[p + 1] == ds[1]) by { assert lt[p..p + |ds|] == ds; }
    assert lt[a] == ' ' by { assert lt[a..a + 1] == " "; }
    assert SkipSpaces(lt, a + 1) == a + 1;
  }

  /** `\s+\d{4}` reads one blank and the year after it. */
  lemma BlankThenYear(lt: string, c: nat, ys: string)
    requires |ys| == 4 && AllDigits(ys) && OccursAt(lt, " " + ys, c)
    ensures Blanks(lt, c) == Some(c + 1) && FourDigits(lt, c + 1) == Some(c + 5)
  {
    OccursAtSplit(lt, " ", ys, c);
    assert lt[c] == ' ' by { assert lt[c..c + 1] == " "; }
    assert forall i :: 0 <= i < 4 ==> lt[c + 1 + i] == ys[i] by { assert lt[c + 1..c + 5] == ys; }
    assert SkipSpaces(lt, c + 1) == c + 1;
  }

  /** The day-month-year pattern reads a day and a blank, a month the month pattern reads, and a blank and a year. */
  lemma DayMonthYearSpelled(lt: string, p: nat, ds: string, c: nat, ys: string)
    requires DayDigits(ds, ys) && OccursAt(lt, ds + " ", p)
    requires p + |ds| + 1 < |lt| && !IsSpace(lt[p + |ds| + 1])
    requires MonthAt(lt, p + |ds| + 1) == Some(c) && OccursAt(lt, " " + ys, c)
    ensures DayMonthYear(lt, p) == Some((c + 5, ()))
  {
    DayThenBlank(lt, p, ds);
    BlankThenYear(lt, c, ys);
    DayMonthYearOfParts(lt, p, p + |ds|, c);
  }

  /** The day-month-year pattern, read part by part. */
  lemma DayMonthYearOfParts(s: string, i: nat, a: nat, c: nat)
    requires OneOrTwoDigits(s, i) == Some(a) && Blanks(s, a) == Some(a + 1) && MonthAt(s, a + 1) == Some(c)
    requires Blanks(s, c) == Some(c + 1) && FourDigits(s, c + 1) == Some(c + 5)
    ensures DayMonthYear(s, i) == Some((c + 5, ()))
  {
  }

  /** A day and a blank, a month, and a blank and a year, one after the other from `p`. */
  predicate SpelledParts(lt: string, p: nat, ds: string, m: string, ys: string)
  {
    OccursAt(lt, ds + " ", p) && OccursAt(lt, m, p + |ds| + 1) && OccursAt(lt, " " + ys, p + |ds| + 1 + |m|)
  }

  /** The date with day `ds`, the `k`th month and year `ys` is spelled, lower case, at `p`. */
  predicate SpelledDate(lt: string, p: nat, ds: string, k: nat, ys: string)
  {
    DayDigits(ds, ys) && k < |Months| && SpelledParts(lt, p, ds, Months[k], ys)
  }

  /** Where a date is spelled, its parts are. */
  lemma SpellingParts(lt: string, p: nat, ds: string, m: string, ys: string)
    requires OccursAt(lt, DaySpelling(ds, m, ys), p)
    ensures SpelledParts(lt, p, ds, m, ys)
    ensures |DaySpelling(ds, m, ys)| == |ds| + |m| + |ys| + 2
  {
    assert DaySpelling(ds, m, ys) == (ds + " ") + m + (" " + ys);
    OccursAtSplit(lt, (ds + " ") + m, " " + ys, p);
    OccursAtSplit(lt, ds + " ", m, p);
  }

  /** The day-month-year pattern reads the parts of a date spelled with a month name. */
  lemma DayMonthYearAt(lt: string, p: nat, ds: string, k: nat, ys: string)
    requires SpelledDate(lt, p, ds, k, ys)
    ensures DayMonthYear(lt, p) == Some((p + |ds| + |Months[k]| + 6, ()))
  {
    var m := Months[k];
    var b := p + |ds| + 1;
    MonthStartsWithLetter(k);
    assert OccursAt(lt, m, b) && OccursAt(lt, ds + " ", p) && OccursAt(lt, " " + ys, b + |m|);
    assert b < |lt| && lt[b] == m[0] by { assert lt[b..b + |m|] == m; }
    assert !IsSpace(lt[b]);
    MonthAtName(lt, b, k);
    DayMonthYearSpelled(lt, p, ds, b + |m|, ys);
  }

  /** Digits and blanks are their own lower case. */
  lemma LowersToItself(w: string)
    requires forall i :: 0 <= i < |w| ==> !IsUpper(w[i])
    ensures LowersTo(w, w)
  {
  }

  /** A date spelled day, month name (in any case), year lower-cases to the spelling the pattern reads. */
  lemma DaySpellingLowers(ds: string, month: string, k: nat, ys: string)
    requires DayDigits(ds, ys) && k < |Months| && LowersTo(month, Months[k])
    ensures LowersTo(DaySpelling(ds, month, ys), DaySpelling(ds, Months[k], ys))
    ensures |DaySpelling(ds, month, ys)| == |DaySpelling(ds, Months[k], ys)|
  {
    LowersToItself(ds);
    LowersToItself(" ");
    LowersToItself(ys);
    LowersToAppend(ds, ds, " ", " ");
    LowersToAppend(ds + " ", ds + " ", month, Months[k]);
    LowersToAppend(ds + " " + month, ds + " " + Months[k], " ", " ");
    LowersToAppend(ds + " " + month + " ", ds + " " + Months[k] + " ", ys, ys);
  }

  /** When the first pattern matches, its leftmost match is the date of the text. */
  lemma DateFromFirstPattern(text: string, p: nat, e: nat)
    requires text != "" && p < e <= |text| && Search(Lower(text), DayMonthYear, 0) == Some(Found(p, e, ()))
    ensures DateFromText(text) == Some(text[p..e])
  {
    var lt := Lower(text);
    assert DatePatterns[0] == DayMonthYear;
    assert Search(lt, DatePatterns[0], 0) == Some(Found(p, e, ()));
    assert FirstPattern(lt, DatePatterns) == Some((0, Found(p, e, ())));
  }

  /** The first match of a pattern that needs a leading digit starts at or after the first digit. */
  lemma DayMonthYearAfter(lt: string, p: nat, e: nat)
    requires p <= |lt| && NoDigits(lt[..p]) && DayMonthYear(lt, p) == Some((e, ()))
    ensures Search(lt, DayMonthYear, 0) == Some(Found(p, e, ()))
  {
    forall j | 0 <= j < p ensures DayMonthYear(lt, j).None? {
      assert lt[..p][j] == lt[j];
    }
    SearchSkip(lt, DayMonthYear, 0, p);
  }

  /** Lower-casing keeps where a piece is spelled, lower-cased, and a part without digits. */
  lemma LowerOccurs(text: string, w: string, lw: string, p: nat)
    requires OccursAt(text, w, p) && LowersTo(w, lw) && p <= |text|
    ensures OccursAt(Lower(text), lw, p)
    ensures NoDigits(text[..p]) ==> NoDigits(Lower(text)[..p])
  {
    var lt := Lower(text);
    forall i | 0 <= i < |w| ensures lt[p + i] == lw[i] {
      assert text[p + i] == text[p..p + |w|][i];
    }
    assert lt[p..p + |lw|] == lw;
    assert forall i :: 0 <= i < p ==> lt[..p][i] == LowerChar(text[..p][i]);
  }

  /** The leftmost day-month-year match is a date spelled after a part without digits. */
  lemma DayMonthYearFirst(lt: string, p: nat, e: nat, ds: string, k: nat, ys: string)
    requires DayDigits(ds, ys) && k < |Months| && e == p + |ds| + |Months[k]| + 6
    requires SpelledParts(lt, p, ds, Months[k], ys) && NoDigits(lt[..p])
    ensures Search(lt, DayMonthYear, 0) == Some(Found(p, e, ()))
  {
    DayMonthYearAt(lt, p, ds, k, ys);
    DayMonthYearAfter(lt, p, e);
  }

  /** A text spelling a date, the month in any case, holds its lower-cased parts in its lower case. */
  lemma TextSpelledParts(text: string, p: nat, ds: string, month: string, k: nat, ys: string)
    requires DayDigits(ds, ys) && k < |Months| && LowersTo(month, Months[k])
    requires OccursAt(text, DaySpelling(ds, month, ys), p) && NoDigits(text[..p])
    ensures SpelledParts(Lower(text), p, ds, Months[k], ys) && NoDigits(Lower(text)[..p])
    ensures |DaySpelling(ds, month, ys)| == |ds| + |Months[k]| + 6
  {
    var ldate := DaySpelling(ds, Months[k], ys);
    DaySpellingLowers(ds, month, k, ys);
    LowerOccurs(text, DaySpelling(ds, month, ys), ldate, p);
    SpellingParts(Lower(text), p, ds, Months[k], ys);
  }

  /** Where a text spells a day-month-year date with no digit before it, the first pattern first matches it. */
  lemma DayMonthYearInText(text: string, p: nat, e: nat, ds: string, month: string, k: nat, ys: string)
    requires DayDigits(ds, ys) && k < |Months| && LowersTo(month, Months[k])
    requires OccursAt(text, DaySpelling(ds, month, ys), p) && NoDigits(text[..p])
    requires e == p + |DaySpelling(ds, month, ys)|
    ensures Search(Lower(text), DayMonthYear, 0) == Some(Found(p, e, ()))
  {
    TextSpelledParts(text, p, ds, month, k, ys);
    DayMonthYearFirst(Lower(text), p, e, ds, k, ys);
  }

  /**
   * A link text spelling a day-month-year date, the month in any case, with
   * no digit before it, yields exactly that date as spelled, whatever follows.
   */
  lemma DateFromTextRoundTrip(text: string, p: nat, ds: string, month: string, k: nat, ys: string)
    requires DayDigits(ds, ys) && k < |Months| && LowersTo(month, Months[k])
    requires OccursAt(text, DaySpelling(ds, month, ys), p) && NoDigits(text[..p])
    ensures DateFromText(text) == Some(DaySpelling(ds, month, ys))
  {
    var e := p + |DaySpelling(ds, month, ys)|;
    assert text[p..e] == DaySpelling(ds, month, ys);
    DayMonthYearInText(text, p, e, ds, month, k, ys);
    DateFromFirstPattern(text, p, e);
  }

  /** Every date pattern needs a digit where it starts or further on. */
  lemma NoDateWithoutDigits(lt: string, j: nat)
    requires NoDigits(lt)
    ensures forall k :: 0 <= k < |DatePatterns| ==> DatePatterns[k](lt, j).None?
  {
    assert DayMonthYear(lt, j).None?;
    assert MonthDayYear(lt, j).None?;
    assert IsoDate(lt, j).None?;
    assert SlashDate(lt, j).None?;
  }

  /** A link text without digits holds no date. */
  lemma NoDigitsNoDate(text: string)
    requires NoDigits(text)
    ensures DateFromText(text).None?
  {
    var lt := Lower(text);
    forall k | 0 <= k < |DatePatterns| ensures Search(lt, DatePatterns[k], 0).None? {
      forall j | 0 <= j <= |lt| ensures DatePatterns[k](lt, j).None? {
        NoDateWithoutDigits(lt, j);
      }
    }
  }

  /** A link whose text has no digits is dated by its url alone. */
  lemma UndatedTitleUsesUrl(text: string, url: string)
    requires NoDigits(text)
    ensures BulletinDate(text, url) == DateFromUrl(url)
  {
    NoDigitsNoDate(text);
  }

  /** A link whose text spells a day-month-year date is dated by it, whatever its url says. */
  lemma DatedTitleWins(text: string, p: nat, ds: string, month: string, k: nat, ys: string, url: string)
    requires DayDigits(ds, ys) && k < |Months| && LowersTo(month, Months[k])
    requires OccursAt(text, DaySpelling(ds, month, ys), p) && NoDigits(text[..p])
    ensures BulletinDate(text, url) == Some(DaySpelling(ds, month, ys))
  {
    DateFromTextRoundTrip(text, p, ds, month, k, ys);
  }
}
