/**
 * The event features of the bulletin data set (dm_v0.5.py): eruption
 * count, severity and durations from the eruption column, and earthquake
 * and tremor counts, tremor minutes and the long/weak tremor flags from the
 * seismicity column.
 *
 * Both parsers lower-case `str(cell)` first; the text given here is that
 * string (a missing cell is "nan", which holds no number).
 */
module EventFeatures {
  import opened Wrappers
  import opened Text
  import opened Numbers
  import opened Scan

  // ---------------------------------------------------------------- sums

  /** Python's `sum` over whole numbers. */
  function Sum(xs: seq<nat>): nat
  {
    if xs == [] then 0 else Sum(xs[..|xs| - 1]) + xs[|xs| - 1]
  }

  lemma {:induction false} SumAppend(a: seq<nat>, b: seq<nat>)
    ensures Sum(a + b) == Sum(a) + Sum(b)
  {
    if b == [] {
      assert a + b == a;
    } else {
      assert (a + b)[..|a + b| - 1] == a + b[..|b| - 1];
      SumAppend(a, b[..|b| - 1]);
    }
  }

  /** Extending a prefix by the next element adds that element. */
  lemma SumPrefix(xs: seq<nat>, j: nat)
    requires j < |xs|
    ensures Sum(xs[..j + 1]) == Sum(xs[..j]) + xs[j]
  {
    assert xs[..j + 1][..j] == xs[..j];
  }

  /** The midpoint of a "lo-hi minutes" range. */
  function Midpoint(r: (nat, nat)): real
  {
    (r.0 + r.1) as real / 2.0
  }

  /** The midpoints of the ranges, added up. */
  function MidpointTotal(rs: seq<(nat, nat)>): (x: real)
    ensures x >= 0.0
  {
    if rs == [] then 0.0 else MidpointTotal(rs[..|rs| - 1]) + Midpoint(rs[|rs| - 1])
  }

  lemma MidpointPrefix(rs: seq<(nat, nat)>, j: nat)
    requires j < |rs|
    ensures MidpointTotal(rs[..j + 1]) == MidpointTotal(rs[..j]) + Midpoint(rs[j])
  {
    assert rs[..j + 1][..j] == rs[..j];
  }

  // -------------------------------------------------------- pattern pieces

  /** `(\d+)` at `i`: the end of the digit run and its value. */
  function DigitsAt(t: string, i: nat): (r: Option<(nat, nat)>)
    ensures r.Some? <==> i < |t| && IsDigit(t[i])
    ensures r.Some? ==> i < r.value.0 <= |t| && r.value.0 == SkipDigits(t, i)
  {
    if i < |t| && IsDigit(t[i]) then
      var d := SkipDigits(t, i);
      assert forall k :: 0 <= k < d - i ==> t[i..d][k] == t[i + k];
      Some((d, DigitsValue(t[i..d])))
    else None
  }

  /** The word `w` at `c`, with a trailing "s" taken when `optionalS` (`ws?`): where it ends. */
  function WordEnd(t: string, c: nat, w: string, optionalS: bool): (r: Option<nat>)
    ensures r.Some? <==> OccursAt(t, w, c)
    ensures r.Some? ==> c + |w| <= r.value <= |t|
  {
    if OccursAt(t, w, c) then
      Some(if optionalS && c + |w| < |t| && t[c + |w|] == 's' then c + |w| + 1 else c + |w|)
    else None
  }

  /** `(?:phreatomagmatic|phreatic|magmatic)` at `b`: where it ends. */
  function TypeWordEnd(t: string, b: nat): (r: Option<nat>)
    ensures r.Some? ==> b < r.value <= |t|
  {
    if OccursAt(t, "phreatomagmatic", b) then Some(b + 15)
    else if OccursAt(t, "phreatic", b) then Some(b + 8)
    else if OccursAt(t, "magmatic", b) then Some(b + 8)
    else None
  }

  /** `(?:minor|major|small)` at `b`: where it ends. */
  function SizeWordEnd(t: string, b: nat): (r: Option<nat>)
    ensures r.Some? ==> b < r.value <= |t|
  {
    if OccursAt(t, "minor", b) || OccursAt(t, "major", b) || OccursAt(t, "small", b) then Some(b + 5)
    else None
  }

  // ----------------------------------------------------- eruption patterns

  /**
   * `(\d+)\s+(?:phreatomagmatic|phreatic|magmatic)?\s*eruptions?` at `i`.
   * A type word, when present, is always taken: without it "eruption"
   * would have to start where the type word does.
   */
  function EruptionAt(t: string, i: nat): (r: Option<(nat, nat)>)
    ensures r.Some? ==> DigitsAt(t, i).Some? && r.value.1 == DigitsAt(t, i).value.1
    ensures r.Some? ==> i < r.value.0 <= |t|
  {
    match DigitsAt(t, i)
    case None => None
    case Some(dv) =>
      var b := SkipSpaces(t, dv.0);
      if b == dv.0 then None
      else
        var c := match TypeWordEnd(t, b) case Some(e) => SkipSpaces(t, e) case None => b;
        match WordEnd(t, c, "eruption", true)
        case Some(e) => Some((e, dv.1))
        case None => None
  }

  /** `(\d+)\s+(?:minor|major|small)?\s*(?:phreatomagmatic|phreatic|magmatic)\s+eruptions?` at `i`. */
  function SizedEruptionAt(t: string, i: nat): (r: Option<(nat, nat)>)
    ensures r.Some? ==> DigitsAt(t, i).Some? && r.value.1 == DigitsAt(t, i).value.1
    ensures r.Some? ==> i < r.value.0 <= |t|
  {
    match DigitsAt(t, i)
    case None => None
    case Some(dv) =>
      var b := SkipSpaces(t, dv.0);
      if b == dv.0 then None
      else
        var c := match SizeWordEnd(t, b) case Some(e) => SkipSpaces(t, e) case None => b;
        match TypeWordEnd(t, c)
        case None => None
        case Some(e) =>
          var f := SkipSpaces(t, e);
          if f == e then None
          else match WordEnd(t, f, "eruption", true)
            case Some(g) => Some((g, dv.1))
            case None => None
  }

  /** `(\d+)\s+eruption\s+events?` at `i`. */
  function EruptionEventsAt(t: string, i: nat): (r: Option<(nat, nat)>)
    ensures r.Some? ==> DigitsAt(t, i).Some? && r.value.1 == DigitsAt(t, i).value.1
    ensures r.Some? ==> i < r.value.0 <= |t|
  {
    match DigitsAt(t, i)
    case None => None
    case Some(dv) =>
      var b := SkipSpaces(t, dv.0);
      if b == dv.0 || !OccursAt(t, "eruption", b) then None
      else
        var f := SkipSpaces(t, b + 8);
        if f == b + 8 then None
        else match WordEnd(t, f, "event", true)
          case Some(g) => Some((g, dv.1))
          case None => None
  }

  /** The three eruption patterns, in the order they are run. */
  const EruptionPatterns: seq<Matcher<nat>> := [EruptionAt, SizedEruptionAt, EruptionEventsAt]

  /** The captures of every pattern of `ps` run on its own over the whole text, one pattern after another. */
  function Captures(t: string, ps: seq<Matcher<nat>>): seq<nat>
  {
    if ps == [] then [] else Captures(t, ps[..|ps| - 1]) + Values(FindAll(t, ps[|ps| - 1], 0))
  }

  /** What one pattern contributes to the count: the sum of its captures. */
  function PatternTotal(t: string, m: Matcher<nat>): nat
  {
    Sum(Values(FindAll(t, m, 0)))
  }

  /**
   * `Eruption_Count`: the sum of all captures of the three patterns. The
   * count is the three patterns' totals added up, so a phrase matched by
   * two patterns is counted by both.
   */
  function EruptionCount(t: string): (r: nat)
    ensures r == PatternTotal(t, EruptionAt) + PatternTotal(t, SizedEruptionAt)
                 + PatternTotal(t, EruptionEventsAt)
  {
    var a := Values(FindAll(t, EruptionAt, 0));
    var b := Values(FindAll(t, SizedEruptionAt, 0));
    var c := Values(FindAll(t, EruptionEventsAt, 0));
    CapturesOfThree(t, EruptionAt, SizedEruptionAt, EruptionEventsAt);
    SumAppend(a, b);
    SumAppend(a + b, c);
    Sum(Captures(t, EruptionPatterns))
  }

  lemma CapturesOfThree(t: string, p: Matcher<nat>, q: Matcher<nat>, r: Matcher<nat>)
    ensures Captures(t, [p, q, r]) == Values(FindAll(t, p, 0)) + Values(FindAll(t, q, 0)) + Values(FindAll(t, r, 0))
  {
    CapturesSnoc(t, [], p);
    CapturesSnoc(t, [p], q);
    CapturesSnoc(t, [p, q], r);
    assert [] + [p] == [p] && [p] + [q] == [p, q] && [p, q] + [r] == [p, q, r];
    assert [] + Values(FindAll(t, p, 0)) == Values(FindAll(t, p, 0));
  }

  /** Running one more pattern appends its captures. */
  lemma CapturesSnoc(t: string, ps: seq<Matcher<nat>>, r: Matcher<nat>)
    ensures Captures(t, ps + [r]) == Captures(t, ps) + Values(FindAll(t, r, 0))
  {
    assert (ps + [r])[..|ps|] == ps;
  }

  /**
   * A sized-pattern match without a size word is also a match of the
   * first pattern at the same place, with the same capture: the source of
   * the double count.
   */
  lemma SizedWithoutSizeIsPlain(t: string, i: nat)
    requires SizedEruptionAt(t, i).Some?
    requires SizeWordEnd(t, SkipSpaces(t, DigitsAt(t, i).value.0)).None?
    ensures EruptionAt(t, i).Some? && EruptionAt(t, i).value.1 == SizedEruptionAt(t, i).value.1
  {
  }

  // ------------------------------------------------- the double count

  /** A report of `n` phreatic eruptions: "<n> phreatic eruption" and text without digits. */
  function PhreaticReport(n: nat, rest: string): string
  {
    NatToString(n) + " phreatic eruption" + rest
  }

  const PhreaticPhrase := " phreatic eruption"

  lemma PhreaticPhraseFacts()
    ensures |PhreaticPhrase| == 18 && NoDigits(PhreaticPhrase)
    ensures IsSpace(PhreaticPhrase[0]) && !IsSpace(PhreaticPhrase[1]) && PhreaticPhrase[7] == 'i'
    ensures IsSpace(PhreaticPhrase[9]) && !IsSpace(PhreaticPhrase[10])
    ensures PhreaticPhrase[1..9] == "phreatic" && PhreaticPhrase[10..18] == "eruption"
  {
    PhreaticPhraseWords();
    PhreaticPhraseNoDigits();
  }

  lemma PhreaticPhraseWords()
    ensures PhreaticPhrase == " " + "phreatic" + " " + "eruption"
    ensures PhreaticPhrase[1..9] == "phreatic" && PhreaticPhrase[10..18] == "eruption"
  {
  }

  lemma PhreaticPhraseNoDigits()
    ensures NoDigits(PhreaticPhrase)
  {
  }

  /** Where the number, the phrase and the rest sit in the report. */
  lemma PhreaticReportLayout(n: nat, rest: string)
    ensures var d, t := NatToString(n), PhreaticReport(n, rest);
      |t| == |d| + 18 + |rest| && t[..|d|] == d
      && (forall k :: 0 <= k < 18 ==> t[|d| + k] == PhreaticPhrase[k])
      && (forall j :: |d| + 18 <= j < |t| ==> t[j] == rest[j - |d| - 18])
  {
  }

  lemma PhreaticReportText(n: nat, rest: string)
    requires NoDigits(rest)
    ensures var d, t := NatToString(n), PhreaticReport(n, rest);
      |t| == |d| + 18 + |rest| && t[..|d|] == d
      && IsSpace(t[|d|]) && !IsSpace(t[|d| + 1]) && t[|d| + 7] == 'i'
      && OccursAt(t, "phreatic", |d| + 1) && IsSpace(t[|d| + 9]) && !IsSpace(t[|d| + 10])
      && OccursAt(t, "eruption", |d| + 10)
      && (forall j :: |d| <= j < |t| ==> !IsDigit(t[j]))
  {
    var d, t, w := NatToString(n), PhreaticReport(n, rest), PhreaticPhrase;
    PhreaticPhraseFacts();
    PhreaticReportLayout(n, rest);
    assert t[|d| + 1..|d| + 9] == w[1..9] by {
      assert forall k :: |d| + 1 <= k < |d| + 9 ==> t[|d| + 1..|d| + 9][k - |d| - 1] == t[k];
    }
    assert t[|d| + 10..|d| + 18] == w[10..18] by {
      assert forall k :: |d| + 10 <= k < |d| + 18 ==> t[|d| + 10..|d| + 18][k - |d| - 10] == t[k];
    }
    forall j | |d| <= j < |t|
      ensures !IsDigit(t[j])
    {
      if j < |d| + 18 {
        assert t[j] == w[j - |d|];
      }
    }
  }

  /** Inside the leading number, every pattern reads the number up to its end. */
  lemma PhreaticNumber(n: nat, rest: string, i: nat)
    requires NoDigits(rest)
    requires i < |NatToString(n)|
    ensures DigitsAt(PhreaticReport(n, rest), i) == Some((|NatToString(n)|, DigitsValue(NatToString(n)[i..])))
  {
    var d, t := NatToString(n), PhreaticReport(n, rest);
    PhreaticReportText(n, rest);
    assert t[i] == d[i];
    assert forall k :: i <= k < |d| ==> t[k] == d[k];
    assert SkipDigits(t, i) == |d|;
    assert t[i..|d|] == d[i..];
  }

  /** "phreatic" is read as the type word "phreatic" (it is not "phreatomagmatic"). */
  lemma PhreaticTypeWord(t: string, b: nat)
    requires OccursAt(t, "phreatic", b)
    ensures TypeWordEnd(t, b) == Some(b + 8)
  {
    assert t[b + 6] == t[b..b + 8][6] == 'i';
    if b + 15 <= |t| {
      assert t[b..b + 15][6] == t[b + 6];
    }
  }

  /** No size word starts with a 'p'. */
  lemma NoSizeWordAtP(t: string, b: nat)
    requires b < |t| && t[b] == 'p'
    ensures SizeWordEnd(t, b).None?
  {
    if b + 5 <= |t| {
      assert t[b..b + 5][0] == t[b];
    }
  }

  /** The words after the number: a type word, then "eruption", and no size word. */
  lemma PhreaticWords(n: nat, rest: string)
    requires NoDigits(rest)
    ensures var d, t := NatToString(n), PhreaticReport(n, rest);
      SkipSpaces(t, |d|) == |d| + 1 && SizeWordEnd(t, |d| + 1).None?
      && TypeWordEnd(t, |d| + 1) == Some(|d| + 9) && SkipSpaces(t, |d| + 9) == |d| + 10
      && WordEnd(t, |d| + 10, "eruption", true).Some?
  {
    var d, t := NatToString(n), PhreaticReport(n, rest);
    PhreaticReportText(n, rest);
    var b := |d| + 1;
    PhreaticTypeWord(t, b);
    assert t[b] == t[b..b + 8][0] == 'p';
    NoSizeWordAtP(t, b);
  }

  /** The first pattern matches the report at its start, capturing `n`. */
  lemma PhreaticPlainAtStart(n: nat, rest: string)
    requires NoDigits(rest)
    ensures var t, d := PhreaticReport(n, rest), NatToString(n);
      EruptionAt(t, 0).Some? && EruptionAt(t, 0).value.1 == n && EruptionAt(t, 0).value.0 > |d|
  {
    var d := NatToString(n);
    PhreaticNumber(n, rest, 0);
    assert d[0..] == d;
    PhreaticWords(n, rest);
  }

  /** The second pattern matches the report at its start too, capturing `n` again. */
  lemma PhreaticSizedAtStart(n: nat, rest: string)
    requires NoDigits(rest)
    ensures var t, d := PhreaticReport(n, rest), NatToString(n);
      SizedEruptionAt(t, 0).Some? && SizedEruptionAt(t, 0).value.1 == n && SizedEruptionAt(t, 0).value.0 > |d|
  {
    var d := NatToString(n);
    PhreaticNumber(n, rest, 0);
    assert d[0..] == d;
    PhreaticWords(n, rest);
  }

  /** The third pattern ("eruption event") matches nowhere in the report. */
  lemma PhreaticNoEvents(n: nat, rest: string)
    requires NoDigits(rest)
    ensures forall j :: 0 <= j <= |PhreaticReport(n, rest)| ==> EruptionEventsAt(PhreaticReport(n, rest), j).None?
  {
    var d, t := NatToString(n), PhreaticReport(n, rest);
    PhreaticReportText(n, rest);
    forall j | 0 <= j <= |t|
      ensures EruptionEventsAt(t, j).None?
    {
      if j < |d| {
        PhreaticNumber(n, rest, j);
        assert SkipSpaces(t, |d|) == |d| + 1;
        assert t[|d| + 1] == t[|d| + 1..|d| + 9][0] == 'p';
      }
    }
  }

  /**
   * As written, "<n> phreatic eruption" is counted twice: the plain pattern
   * and the sized pattern (whose size word is optional) both match it.
   */
  lemma PhreaticCountedTwice(n: nat, rest: string)
    requires NoDigits(rest)
    ensures EruptionCount(PhreaticReport(n, rest)) == 2 * n
  {
    var t := PhreaticReport(n, rest);
    PhreaticPlainTotal(n, rest);
    PhreaticSizedTotal(n, rest);
    PhreaticNoEvents(n, rest);
    FindAllNowhere(t, EruptionEventsAt, 0);
  }

  lemma PhreaticPlainTotal(n: nat, rest: string)
    requires NoDigits(rest)
    ensures PatternTotal(PhreaticReport(n, rest), EruptionAt) == n
  {
    var d, t := NatToString(n), PhreaticReport(n, rest);
    PhreaticReportText(n, rest);
    PhreaticPlainAtStart(n, rest);
    forall j | |d| <= j <= |t|
      ensures EruptionAt(t, j).None?
    {
      assert DigitsAt(t, j).None?;
    }
    FindAllOnlyAt(t, EruptionAt, 0);
    assert Sum([n]) == Sum([]) + n;
  }

  lemma PhreaticSizedTotal(n: nat, rest: string)
    requires NoDigits(rest)
    ensures PatternTotal(PhreaticReport(n, rest), SizedEruptionAt) == n
  {
    var d, t := NatToString(n), PhreaticReport(n, rest);
    PhreaticReportText(n, rest);
    PhreaticSizedAtStart(n, rest);
    forall j | |d| <= j <= |t|
      ensures SizedEruptionAt(t, j).None?
    {
      assert DigitsAt(t, j).None?;
    }
    FindAllOnlyAt(t, SizedEruptionAt, 0);
    assert Sum([n]) == Sum([]) + n;
  }

  /**
   * One eruption phrase per number: at each position the first of the three
   * patterns that matches there, so a phrase two patterns match counts once.
   */
  function AnyEruptionAt(t: string, i: nat): (r: Option<(nat, nat)>)
    ensures r.Some? ==> EruptionAt(t, i).Some? || SizedEruptionAt(t, i).Some? || EruptionEventsAt(t, i).Some?
    ensures r.None? <==> EruptionAt(t, i).None? && SizedEruptionAt(t, i).None? && EruptionEventsAt(t, i).None?
    ensures r.Some? ==> DigitsAt(t, i).Some? && r.value.1 == DigitsAt(t, i).value.1 && i < r.value.0 <= |t|
  {
    if EruptionAt(t, i).Some? then EruptionAt(t, i)
    else if SizedEruptionAt(t, i).Some? then SizedEruptionAt(t, i)
    else EruptionEventsAt(t, i)
  }

  /** The eruption count with each phrase counted once. */
  function EruptionCountOnce(t: string): nat
  {
    Sum(Values(FindAll(t, AnyEruptionAt, 0)))
  }

  /** The corrected count reads "<n> phreatic eruption" as `n` eruptions. */
  lemma PhreaticCountedOnce(n: nat, rest: string)
    requires NoDigits(rest)
    ensures EruptionCountOnce(PhreaticReport(n, rest)) == n
  {
    var d, t := NatToString(n), PhreaticReport(n, rest);
    PhreaticReportText(n, rest);
    PhreaticPlainAtStart(n, rest);
    forall j | |d| <= j <= |t|
      ensures AnyEruptionAt(t, j).None?
    {
      assert DigitsAt(t, j).None?;
    }
    FindAllOnlyAt(t, AnyEruptionAt, 0);
    assert Sum([n]) == Sum([]) + n;
  }

  /** Where only the plain pattern can match, the corrected count is the count as written. */
  lemma CountOnceWhenOnlyPlain(t: string)
    requires forall j :: 0 <= j <= |t| ==> SizedEruptionAt(t, j).None? && EruptionEventsAt(t, j).None?
    ensures EruptionCountOnce(t) == EruptionCount(t)
  {
    FindAllSame(t, AnyEruptionAt, EruptionAt, 0);
    FindAllNowhere(t, SizedEruptionAt, 0);
    FindAllNowhere(t, EruptionEventsAt, 0);
    CapturesOfThree(t, EruptionAt, SizedEruptionAt, EruptionEventsAt);
    var a := Values(FindAll(t, EruptionAt, 0));
    assert Captures(t, EruptionPatterns) == a + [] + [];
    assert a + [] + [] == a;
  }

  // ------------------------------------- a number followed by words

  /** A number followed by a text without digits: the number is read whole, and no other number follows. */
  lemma LeadingNumber(n: nat, u: string)
    requires NoDigits(u)
    ensures var d, t := NatToString(n), NatToString(n) + u;
      DigitsAt(t, 0) == Some((|d|, n)) && forall j :: |d| <= j <= |t| ==> DigitsAt(t, j).None?
  {
    var d, t := NatToString(n), NatToString(n) + u;
    assert forall k :: 0 <= k < |d| ==> t[k] == d[k];
    forall j | |d| <= j < |t|
      ensures !IsDigit(t[j])
    {
      assert t[j] == u[j - |d|];
    }
    assert forall k :: 0 <= k < |d| ==> IsDigit(t[k]);
    if |d| < |t| {
      assert !IsDigit(t[|d|]);
    }
    assert SkipDigits(t, 0) == |d|;
    assert t[0..|d|] == d;
  }

  /** When some pattern reads the leading number, the corrected count is that number. */
  lemma CountOnceOfLeading(n: nat, u: string)
    requires NoDigits(u)
    requires AnyEruptionAt(NatToString(n) + u, 0).Some?
    ensures EruptionCountOnce(NatToString(n) + u) == n
  {
    LeadingMatchOnly(n, u);
    assert Sum([n]) == Sum([]) + n;
  }

  /** A match at the leading number is the only one: no digit run follows it. */
  lemma LeadingMatchOnly(n: nat, u: string)
    requires NoDigits(u)
    requires AnyEruptionAt(NatToString(n) + u, 0).Some?
    ensures Values(FindAll(NatToString(n) + u, AnyEruptionAt, 0)) == [n]
  {
    var d, t := NatToString(n), NatToString(n) + u;
    LeadingNumber(n, u);
    var e := AnyEruptionAt(t, 0).value.0;
    forall j | e <= j <= |t|
      ensures AnyEruptionAt(t, j).None?
    {
      assert DigitsAt(t, j).None?;
    }
    FindAllOnlyAt(t, AnyEruptionAt, 0);
  }

  /** A type word at `c`: "phreatic" or "phreatomagmatic" is read whole. */
  lemma TypeWordAt(t: string, c: nat, ty: string)
    requires ty == "phreatic" || ty == "phreatomagmatic"
    requires OccursAt(t, ty, c)
    ensures TypeWordEnd(t, c) == Some(c + |ty|)
  {
    if ty == "phreatic" {
      PhreaticTypeWord(t, c);
    }
  }

  /** A size word at `b`: "minor" or "major" is read whole. */
  lemma SizeWordAt(t: string, b: nat, sz: string)
    requires sz == "minor" || sz == "major"
    requires OccursAt(t, sz, b)
    ensures SizeWordEnd(t, b) == Some(b + 5)
  {
  }

  /**
   * The sized pattern at `i`: the number, a space, a size word, a space, a
   * type word `len` long, a space and "eruption".
   */
  lemma SizedMatchAt(t: string, i: nat, len: nat)
    requires DigitsAt(t, i).Some?
    requires var e := DigitsAt(t, i).value.0;
      e + 16 + len <= |t| && t[e] == ' ' && !IsSpace(t[e + 1]) && SizeWordEnd(t, e + 1) == Some(e + 6)
      && t[e + 6] == ' ' && !IsSpace(t[e + 7]) && TypeWordEnd(t, e + 7) == Some(e + 7 + len)
      && t[e + 7 + len] == ' ' && OccursAt(t, "eruption", e + 8 + len)
    ensures SizedEruptionAt(t, i).Some?
  {
    var e := DigitsAt(t, i).value.0;
    assert SkipSpaces(t, e) == e + 1;
    assert SkipSpaces(t, e + 6) == e + 7;
    assert t[e + 8 + len] == t[e + 8 + len..e + 16 + len][0] == 'e';
    assert SkipSpaces(t, e + 7 + len) == e + 8 + len;
  }

  /** The plain pattern at `i`: the number, a space, a type word `len` long, a space and "eruption". */
  lemma PlainMatchAt(t: string, i: nat, len: nat)
    requires DigitsAt(t, i).Some?
    requires var e := DigitsAt(t, i).value.0;
      e + 10 + len <= |t| && t[e] == ' ' && !IsSpace(t[e + 1]) && TypeWordEnd(t, e + 1) == Some(e + 1 + len)
      && t[e + 1 + len] == ' ' && OccursAt(t, "eruption", e + 2 + len)
    ensures EruptionAt(t, i).Some?
  {
    var e := DigitsAt(t, i).value.0;
    assert SkipSpaces(t, e) == e + 1;
    assert t[e + 2 + len] == t[e + 2 + len..e + 10 + len][0] == 'e';
    assert SkipSpaces(t, e + 1 + len) == e + 2 + len;
  }

  /** A word occurs at `k` of the text after the number iff it occurs at `|d| + k` of the whole text. */
  lemma OccursShift(d: string, u: string, w: string, k: nat)
    ensures OccursAt(d + u, w, |d| + k) <==> OccursAt(u, w, k)
  {
    if k + |w| <= |u| {
      assert (d + u)[|d| + k..|d| + k + |w|] == u[k..k + |w|];
    }
  }

  lemma SizeWordShift(d: string, u: string, k: nat)
    ensures SizeWordEnd(d + u, |d| + k) == if SizeWordEnd(u, k).Some? then Some(|d| + SizeWordEnd(u, k).value) else None
  {
    OccursShift(d, u, "minor", k);
    OccursShift(d, u, "major", k);
    OccursShift(d, u, "small", k);
  }

  lemma TypeWordShift(d: string, u: string, k: nat)
    ensures TypeWordEnd(d + u, |d| + k) == if TypeWordEnd(u, k).Some? then Some(|d| + TypeWordEnd(u, k).value) else None
  {
    OccursShift(d, u, "phreatomagmatic", k);
    OccursShift(d, u, "phreatic", k);
    OccursShift(d, u, "magmatic", k);
  }

  /** "<n> <size> <type> eruption...": the sized pattern reads the number. */
  lemma SizedAtStart(n: nat, u: string, len: nat)
    requires |u| >= 16 + len && u[0] == ' ' && !IsSpace(u[1]) && SizeWordEnd(u, 1) == Some(6)
    requires u[6] == ' ' && !IsSpace(u[7]) && TypeWordEnd(u, 7) == Some(7 + len)
    requires u[7 + len] == ' ' && OccursAt(u, "eruption", 8 + len)
    requires NoDigits(u)
    ensures SizedEruptionAt(NatToString(n) + u, 0).Some?
  {
    var d, t := NatToString(n), NatToString(n) + u;
    LeadingNumber(n, u);
    SizeWordShift(d, u, 1);
    TypeWordShift(d, u, 7);
    OccursShift(d, u, "eruption", 8 + len);
    SizedMatchAt(t, 0, len);
  }

  /** "<n> phreatic eruption...": the plain pattern reads the number. */
  lemma PlainAtStart(n: nat, u: string, len: nat)
    requires |u| >= 10 + len && u[0] == ' ' && !IsSpace(u[1]) && TypeWordEnd(u, 1) == Some(1 + len)
    requires u[1 + len] == ' ' && OccursAt(u, "eruption", 2 + len)
    requires NoDigits(u)
    ensures EruptionAt(NatToString(n) + u, 0).Some?
  {
    var d, t := NatToString(n), NatToString(n) + u;
    LeadingNumber(n, u);
    TypeWordShift(d, u, 1);
    OccursShift(d, u, "eruption", 2 + len);
    PlainMatchAt(t, 0, len);
  }

  /** "0", the generator's text for no eruption, holds no eruption phrase. */
  lemma ZeroText()
    ensures EruptionCount("0") == 0 && EruptionCountOnce("0") == 0
  {
    var t := "0";
    assert DigitsAt(t, 0) == Some((1, 0));
    assert SkipSpaces(t, 1) == 1;
    ZeroTotal(t, EruptionAt);
    ZeroTotal(t, SizedEruptionAt);
    ZeroTotal(t, EruptionEventsAt);
    ZeroTotal(t, AnyEruptionAt);
  }

  /** A pattern that matches nowhere contributes nothing. */
  lemma ZeroTotal(t: string, m: Matcher<nat>)
    requires forall j :: 0 <= j <= |t| ==> m(t, j).None?
    ensures PatternTotal(t, m) == 0
  {
    FindAllNowhere(t, m, 0);
  }

  /** Inside the leading number, the digit run still ends where the number does. */
  lemma InsideLeadingNumber(n: nat, u: string, j: nat)
    requires NoDigits(u) && j < |NatToString(n)|
    ensures DigitsAt(NatToString(n) + u, j).Some? && DigitsAt(NatToString(n) + u, j).value.0 == |NatToString(n)|
  {
    var d, t := NatToString(n), NatToString(n) + u;
    assert forall k :: 0 <= k < |d| ==> IsDigit(t[k]) by {
      forall k | 0 <= k < |d| ensures IsDigit(t[k]) { assert t[k] == d[k]; }
    }
    if |d| < |t| {
      assert t[|d|] == u[0];
    }
    assert SkipDigits(t, j) == |d|;
  }

  /** The letters of " minor minor " that the patterns look at, from `e` on. */
  predicate MinorMinorAfter(t: string, e: nat)
  {
    e + 13 <= |t| && t[e] == ' ' && t[e + 1] == 'm' && t[e + 2] == 'i' && OccursAt(t, "minor", e + 1)
    && t[e + 6] == ' ' && t[e + 7] == 'm' && t[e + 8] == 'i'
  }

  lemma MinorMinorLetters(t: string, e: nat)
    requires OccursAt(t, " minor minor ", e)
    ensures MinorMinorAfter(t, e)
  {
    assert forall k :: e <= k < e + 13 ==> t[e..e + 13][k - e] == t[k];
    assert t[e + 1..e + 6] == t[e..e + 13][1..6];
  }

  /** After "<number> minor minor " none of the three patterns can go on. */
  lemma MinorMinorAt(t: string, i: nat)
    requires DigitsAt(t, i).Some?
    requires var e := DigitsAt(t, i).value.0; OccursAt(t, " minor minor ", e)
    ensures EruptionAt(t, i).None? && SizedEruptionAt(t, i).None? && EruptionEventsAt(t, i).None?
  {
    var e := DigitsAt(t, i).value.0;
    MinorMinorLetters(t, e);
    assert SkipSpaces(t, e) == e + 1;
    NoTypeWordAtMi(t, e + 1);
    NoWordAtM(t, e + 1, "eruption");
    MinorMinorSized(t, i);
  }

  lemma MinorMinorSized(t: string, i: nat)
    requires DigitsAt(t, i).Some?
    requires var e := DigitsAt(t, i).value.0; MinorMinorAfter(t, e)
    ensures SizedEruptionAt(t, i).None?
  {
    var e := DigitsAt(t, i).value.0;
    assert SkipSpaces(t, e) == e + 1;
    assert SizeWordEnd(t, e + 1) == Some(e + 6);
    assert SkipSpaces(t, e + 6) == e + 7;
    NoTypeWordAtMi(t, e + 7);
  }

  /** No type word starts with "mi". */
  lemma NoTypeWordAtMi(t: string, b: nat)
    requires b + 1 < |t| && t[b] == 'm' && t[b + 1] == 'i'
    ensures TypeWordEnd(t, b).None?
  {
    if b + 8 <= |t| {
      assert t[b..b + 8][0] == t[b] && t[b..b + 8][1] == t[b + 1];
    }
    if b + 15 <= |t| {
      assert t[b..b + 15][0] == t[b];
    }
  }

  /** A word that does not start with 'm' is not at a place holding an 'm'. */
  lemma NoWordAtM(t: string, b: nat, w: string)
    requires b < |t| && t[b] == 'm' && |w| > 0 && w[0] != 'm'
    ensures !OccursAt(t, w, b)
  {
    if b + |w| <= |t| {
      assert t[b..b + |w|][0] == t[b];
    }
  }

  /**
   * "<n> minor minor ..." holds no eruption phrase for any of the patterns
   * when nothing after the number is a digit.
   */
  lemma MinorMinorNowhere(n: nat, u: string)
    requires NoDigits(u) && OccursAt(u, " minor minor ", 0)
    ensures EruptionCount(NatToString(n) + u) == 0 && EruptionCountOnce(NatToString(n) + u) == 0
  {
    MinorMinorNoMatch(n, u);
    NoMatchNoCount(NatToString(n) + u);
  }

  /** No eruption pattern matches anywhere in a number followed by " minor minor ". */
  lemma MinorMinorNoMatch(n: nat, u: string)
    requires NoDigits(u) && OccursAt(u, " minor minor ", 0)
    ensures NoEruptionIn(NatToString(n) + u)
  {
    var d, t := NatToString(n), NatToString(n) + u;
    LeadingNumber(n, u);
    OccursShift(d, u, " minor minor ", 0);
    forall j | 0 <= j <= |t|
      ensures NoEruptionAt(t, j)
    {
      if j < |d| {
        InsideLeadingNumber(n, u, j);
        MinorMinorAt(t, j);
      } else {
        assert DigitsAt(t, j).None?;
      }
    }
  }

  /** None of the three eruption patterns matches at `j`. */
  predicate NoEruptionAt(t: string, j: nat)
  {
    EruptionAt(t, j).None? && SizedEruptionAt(t, j).None? && EruptionEventsAt(t, j).None?
  }

  /** No eruption pattern matches anywhere in `t`. */
  predicate NoEruptionIn(t: string)
  {
    forall j :: 0 <= j <= |t| ==> NoEruptionAt(t, j)
  }

  /** Where no eruption pattern matches, both counts are zero. */
  lemma NoMatchNoCount(t: string)
    requires NoEruptionIn(t)
    ensures EruptionCount(t) == 0 && EruptionCountOnce(t) == 0
  {
    NoPlainEruption(t);
    NoSizedEruption(t);
    NoEruptionEvents(t);
    NoEruptionOnce(t);
  }

  lemma NoPlainEruption(t: string)
    requires NoEruptionIn(t)
    ensures PatternTotal(t, EruptionAt) == 0
  {
    forall j | 0 <= j <= |t| ensures EruptionAt(t, j).None? { assert NoEruptionAt(t, j); }
    ZeroTotal(t, EruptionAt);
  }

  lemma NoSizedEruption(t: string)
    requires NoEruptionIn(t)
    ensures PatternTotal(t, SizedEruptionAt) == 0
  {
    forall j | 0 <= j <= |t| ensures SizedEruptionAt(t, j).None? { assert NoEruptionAt(t, j); }
    ZeroTotal(t, SizedEruptionAt);
  }

  lemma NoEruptionEvents(t: string)
    requires NoEruptionIn(t)
    ensures PatternTotal(t, EruptionEventsAt) == 0
  {
    forall j | 0 <= j <= |t| ensures EruptionEventsAt(t, j).None? { assert NoEruptionAt(t, j); }
    ZeroTotal(t, EruptionEventsAt);
  }

  lemma NoEruptionOnce(t: string)
    requires NoEruptionIn(t)
    ensures EruptionCountOnce(t) == 0
  {
    forall j | 0 <= j <= |t| ensures AnyEruptionAt(t, j).None? { assert NoEruptionAt(t, j); }
    ZeroTotal(t, AnyEruptionAt);
  }


  // ---------------------------------------------------------- severity

  function Max0(x: real): real { if x > 0.0 then x else 0.0 }

  /** The base severity: phreatomagmatic 2, else phreatic 1, else magmatic 3, else 1 for any count, else 0. */
  function BaseSeverity(t: string, count: nat): real
  {
    if Contains(t, "phreatomagmatic") then 2.0
    else if Contains(t, "phreatic") then 1.0
    else if Contains(t, "magmatic") then 3.0
    else if count > 0 then 1.0
    else 0.0
  }

  /** "minor" or "small" is written. */
  predicate Smaller(t: string) { Contains(t, "minor") || Contains(t, "small") }

  /** "major" or "large" is written. */
  predicate Larger(t: string) { Contains(t, "major") || Contains(t, "large") }

  /**
   * `Eruption_Severity_Score`: the base lowered by 0.5 (not below 0) for
   * minor/small, else raised by 1 for major/large. The contract gives the
   * score of each type band, plain, with minor/small and with major/large.
   */
  function Severity(t: string, count: nat): (r: real)
    ensures 0.0 <= r <= 4.0
    ensures r == 4.0 <==> !Contains(t, "phreatomagmatic") && !Contains(t, "phreatic") && Contains(t, "magmatic")
                          && !Contains(t, "minor") && !Contains(t, "small")
                          && (Contains(t, "major") || Contains(t, "large"))
    ensures Contains(t, "minor") || Contains(t, "small") ==> r <= 2.5
    ensures r == 0.0 ==> count == 0 || Contains(t, "minor") || Contains(t, "small")
    ensures Contains(t, "phreatomagmatic")
      ==> r == if Smaller(t) then 1.5 else if Larger(t) then 3.0 else 2.0
    ensures !Contains(t, "phreatomagmatic") && Contains(t, "phreatic")
      ==> r == if Smaller(t) then 0.5 else if Larger(t) then 2.0 else 1.0
    ensures !Contains(t, "phreatomagmatic") && !Contains(t, "phreatic") && Contains(t, "magmatic")
      ==> r == if Smaller(t) then 2.5 else if Larger(t) then 4.0 else 3.0
    ensures !Contains(t, "phreatomagmatic") && !Contains(t, "phreatic") && !Contains(t, "magmatic") && count > 0
      ==> r == if Smaller(t) then 0.5 else if Larger(t) then 2.0 else 1.0
    ensures !Contains(t, "phreatomagmatic") && !Contains(t, "phreatic") && !Contains(t, "magmatic") && count == 0
      ==> r == if Smaller(t) then 0.0 else if Larger(t) then 1.0 else 0.0
  {
    var base := BaseSeverity(t, count);
    if Smaller(t) then Max0(base - 0.5)
    else if Larger(t) then base + 1.0
    else base
  }

  // ---------------------------------------------------------- durations

  /** `(\d+)\s*unit` (with `s?` when `optionalS`) at `i`: the number. */
  function UnitAt(t: string, i: nat, unit: string, optionalS: bool): (r: Option<(nat, nat)>)
    ensures r.Some? ==> DigitsAt(t, i).Some? && r.value.1 == DigitsAt(t, i).value.1
    ensures r.Some? ==> i < r.value.0 <= |t|
  {
    match DigitsAt(t, i)
    case None => None
    case Some(dv) =>
      match WordEnd(t, SkipSpaces(t, dv.0), unit, optionalS)
      case Some(e) => Some((e, dv.1))
      case None => None
  }

  /** `(\d+)\s*[-–]\s*(\d+)\s*unit` (with `s?` when `optionalS`) at `i`: both numbers. */
  function RangeAt(t: string, i: nat, unit: string, optionalS: bool): (r: Option<(nat, (nat, nat))>)
    ensures r.Some? ==> DigitsAt(t, i).Some? && r.value.1.0 == DigitsAt(t, i).value.1
    ensures r.Some? ==> i < r.value.0 <= |t|
  {
    match DigitsAt(t, i)
    case None => None
    case Some(lo) =>
      var a := SkipSpaces(t, lo.0);
      if a < |t| && (t[a] == '-' || t[a] == '\U{2013}') then
        match DigitsAt(t, SkipSpaces(t, a + 1))
        case None => None
        case Some(hi) =>
          match WordEnd(t, SkipSpaces(t, hi.0), unit, optionalS)
          case Some(e) => Some((e, (lo.1, hi.1)))
          case None => None
      else None
  }

  function MinuteRangeAt(t: string, i: nat): Option<(nat, (nat, nat))> { RangeAt(t, i, "minute", true) }
  function MinutesAt(t: string, i: nat): Option<(nat, nat)> { UnitAt(t, i, "minute", true) }
  function SecondsAt(t: string, i: nat): Option<(nat, nat)> { UnitAt(t, i, "second", true) }

  /** The "lo-hi minute(s)" ranges. */
  function EruptionRanges(t: string): seq<(nat, nat)> { Values(FindAll(t, MinuteRangeAt, 0)) }

  /** The single "n minute(s)" figures left once the ranges are cut out. */
  function EruptionMinutes(t: string): seq<nat> { Values(FindAll(RemoveAll(t, MinuteRangeAt, 0), MinutesAt, 0)) }

  /** The "n second(s)" figures, read from the whole text. */
  function EruptionSeconds(t: string): seq<nat> { Values(FindAll(t, SecondsAt, 0)) }

  /** The eruption durations: the total in minutes and the number of instances. */
  datatype Durations = Durations(total: real, instances: nat)

  /**
   * Ranges give their midpoints and are cut out of the text; the single
   * minute figures are read from what remains; all seconds together, in
   * minutes, count as one more instance.
   */
  function EruptionDurations(t: string): (r: Durations)
    ensures r.total >= 0.0
    ensures r.instances == 0 ==> r.total == 0.0
  {
    DurationsFrom(EruptionRanges(t), EruptionMinutes(t), EruptionSeconds(t))
  }

  /** The durations the ranges, the single minute figures and the seconds figures add up to. */
  function DurationsFrom(ranges: seq<(nat, nat)>, minutes: seq<nat>, seconds: seq<nat>): (r: Durations)
    ensures r.total >= 0.0
    ensures r.instances == 0 ==> r.total == 0.0
  {
    Durations(MidpointTotal(ranges) + Sum(minutes) as real + Sum(seconds) as real / 60.0,
              |ranges| + |minutes| + Flag(|seconds| > 0))
  }

  /** The features `parse_eruption_info` returns (before its rounding to two places). */
  datatype EruptionInfo = EruptionInfo(count: nat, severity: real, totalMinutes: real, avgMinutes: real)

  function Average(d: Durations): real
  {
    if d.instances > 0 then d.total / d.instances as real else 0.0
  }

  /**
   * The features of a bulletin's eruption cell: the severity stays within
   * 0..4, the total is never negative, and the average lies between 0 and
   * the total.
   */
  function EruptionInfoOf(text: string): (r: EruptionInfo)
    ensures 0.0 <= r.severity <= 4.0
    ensures r.totalMinutes >= 0.0
    ensures 0.0 <= r.avgMinutes <= r.totalMinutes
    ensures r.totalMinutes == 0.0 ==> r.avgMinutes == 0.0
  {
    var t := Lower(text);
    var d := EruptionDurations(t);
    AverageOfDurations(d);
    AverageAtMostTotal(d);
    EruptionInfo(EruptionCount(t), Severity(t, EruptionCount(t)), d.total, Average(d))
  }

  /** An average over at least one instance is at most the total. */
  lemma AverageAtMostTotal(d: Durations)
    requires d.total >= 0.0
    ensures Average(d) <= d.total
  {
    if d.instances > 0 {
      var n := d.instances as real;
      assert n >= 1.0;
      assert d.total <= d.total * n;
      assert (d.total / n) * n == d.total;
    }
  }

  /** The average times the number of instances is the total, and both are 0 when nothing is found. */
  lemma AverageOfDurations(d: Durations)
    requires d.total >= 0.0
    requires d.instances == 0 ==> d.total == 0.0
    ensures d.instances > 0 ==> Average(d) * d.instances as real == d.total
    ensures d.instances == 0 ==> Average(d) == 0.0
    ensures Average(d) >= 0.0
  {
    if d.instances > 0 {
      var n := d.instances as real;
      assert n > 0.0;
      assert (d.total / n) * n == d.total;
    }
  }

  /** `parse_eruption_info`, step by step as the script runs it. */
  method ParseEruptionInfo(text: string) returns (r: EruptionInfo)
    ensures r == EruptionInfoOf(text)
  {
    var t := Lower(text);
    var count := CountEruptions(t);
    var severity: real := 0.0;
    if Contains(t, "phreatomagmatic") {
      severity := 2.0;
    } else if Contains(t, "phreatic") {
      severity := 1.0;
    } else if Contains(t, "magmatic") {
      severity := 3.0;
    } else if count > 0 {
      severity := 1.0;
    }
    if Contains(t, "minor") || Contains(t, "small") {
      severity := Max0(severity - 0.5);
    } else if Contains(t, "major") || Contains(t, "large") {
      severity := severity + 1.0;
    }
    var d := MeasureDurations(t);
    var avg: real := if d.instances > 0 then d.total / d.instances as real else 0.0;
    r := EruptionInfo(count, severity, d.total, avg);
  }

  /** The count step: every pattern's captures collected in turn, then added up. */
  method CountEruptions(t: string) returns (count: nat)
    ensures count == EruptionCount(t)
  {
    var matches := CollectCaptures(t, EruptionPatterns);
    count := AddUp(matches);
  }

  /** Each pattern's findall, in order, concatenated. */
  method CollectCaptures(t: string, patterns: seq<Matcher<nat>>) returns (matches: seq<nat>)
    ensures matches == Captures(t, patterns)
  {
    matches := [];
    for k := 0 to |patterns|
      invariant matches == Captures(t, patterns[..k])
    {
      assert patterns[..k + 1] == patterns[..k] + [patterns[k]];
      CapturesSnoc(t, patterns[..k], patterns[k]);
      matches := matches + Values(FindAll(t, patterns[k], 0));
    }
    assert patterns[..|patterns|] == patterns;
  }

  /** The sum of the captured numbers. */
  method AddUp(xs: seq<nat>) returns (s: nat)
    ensures s == Sum(xs)
  {
    s := 0;
    for j := 0 to |xs|
      invariant s == Sum(xs[..j])
    {
      SumPrefix(xs, j);
      s := s + xs[j];
    }
    assert xs[..|xs|] == xs;
  }

  /** The duration step: range midpoints, then single minutes from the rest, then all seconds as one instance. */
  method MeasureDurations(t: string) returns (d: Durations)
    ensures d == EruptionDurations(t)
  {
    // 1. ranges, each counted at its midpoint
    var ranges := EruptionRanges(t);
    var fromRanges := AddMidpoints(ranges);
    // 2. single minute figures from the text with the ranges cut out
    var minutes := EruptionMinutes(t);
    var fromMinutes := AddUp(minutes);
    // 3. seconds, from the whole text, as one instance
    var seconds := EruptionSeconds(t);
    var fromSeconds := AddUp(seconds);
    d := Durations(fromRanges + fromMinutes as real + fromSeconds as real / 60.0,
                   |ranges| + |minutes| + Flag(|seconds| > 0));
  }

  /** The sum of the midpoints of the ranges. */
  method AddMidpoints(rs: seq<(nat, nat)>) returns (total: real)
    ensures total == MidpointTotal(rs)
  {
    total := 0.0;
    for k := 0 to |rs|
      invariant total == MidpointTotal(rs[..k])
    {
      MidpointPrefix(rs, k);
      total := total + Midpoint(rs[k]);
    }
    assert rs[..|rs|] == rs;
  }

  // ------------------------------------------------ durations, worked out

  /** "<n> minutes", a single duration as the bulletins write it. */
  function MinutesPhrase(n: nat): string { NatToString(n) + " minutes" }

  /** "<lo>-<hi> minutes", a range of durations. */
  function RangePhrase(lo: nat, hi: nat): string { NatToString(lo) + "-" + MinutesPhrase(hi) }

  /**
   * A range followed by digit-free text is one instance, counted at its
   * midpoint: the single-minutes pattern does not read its upper bound
   * again, since the range is cut out first.
   */
  lemma RangeAlone(lo: nat, hi: nat, u: string)
    requires NoDigits(u)
    ensures EruptionDurations(RangePhrase(lo, hi) + u) == Durations((lo + hi) as real / 2.0, 1)
  {
    var d, e := NatToString(lo), NatToString(hi);
    assert RangePhrase(lo, hi) == d + "-" + (e + " minutes");
    SpelledRangeAlone(d, e, u);
  }

  /**
   * A range, digit-free words, then a single "<n> minutes": two instances,
   * the range at its midpoint and the single figure once.
   */
  lemma RangeThenMinutes(lo: nat, hi: nat, w: string, n: nat, u: string)
    requires NoDigits(w) && NoDigits(u)
    ensures EruptionDurations(RangePhrase(lo, hi) + w + MinutesPhrase(n) + u)
         == Durations((lo + hi) as real / 2.0 + n as real, 2)
  {
    var d, e, f := NatToString(lo), NatToString(hi), NatToString(n);
    assert RangePhrase(lo, hi) == d + "-" + (e + " minutes");
    assert MinutesPhrase(n) == f + " minutes";
    SpelledRangeThenMinutes(d, e, w, f, u);
  }

  /** A digit string: what `str(n)` produces, as the lemmas below need it. */
  predicate Numeral(d: string) { |d| >= 1 && AllDigits(d) }

  lemma SpelledRangeAlone(d: string, e: string, u: string)
    requires Numeral(d) && Numeral(e) && NoDigits(u)
    ensures EruptionDurations(d + "-" + (e + " minutes") + u)
         == Durations((DigitsValue(d) + DigitsValue(e)) as real / 2.0, 1)
  {
    RangeAloneParts(d, e, u);
    DurationsOf((DigitsValue(d), DigitsValue(e)), []);
  }

  lemma RangeAloneParts(d: string, e: string, u: string)
    requires Numeral(d) && Numeral(e) && NoDigits(u)
    ensures EruptionDurations(d + "-" + (e + " minutes") + u) == DurationsFrom([(DigitsValue(d), DigitsValue(e))], [], [])
  {
    var rp := d + "-" + (e + " minutes");
    var t := rp + u;
    Layout(rp, "", "", u);
    assert rp + "" + "" + u == t;
    RangeThenNoDigits(t, d, e);
    NoDigitsNoMinutes(u);
    DurationsByParts(t, [(DigitsValue(d), DigitsValue(e))], [], []);
  }

  lemma SpelledRangeThenMinutes(d: string, e: string, w: string, f: string, u: string)
    requires Numeral(d) && Numeral(e) && Numeral(f) && NoDigits(w) && NoDigits(u)
    ensures EruptionDurations(d + "-" + (e + " minutes") + w + (f + " minutes") + u)
         == Durations((DigitsValue(d) + DigitsValue(e)) as real / 2.0 + DigitsValue(f) as real, 2)
  {
    RangeThenMinutesParts(d, e, w, f, u);
    DurationsOf((DigitsValue(d), DigitsValue(e)), [DigitsValue(f)]);
  }

  lemma RangeThenMinutesParts(d: string, e: string, w: string, f: string, u: string)
    requires Numeral(d) && Numeral(e) && Numeral(f) && NoDigits(w) && NoDigits(u)
    ensures EruptionDurations(d + "-" + (e + " minutes") + w + (f + " minutes") + u)
         == DurationsFrom([(DigitsValue(d), DigitsValue(e))], [DigitsValue(f)], [])
  {
    var mp := f + " minutes";
    RangeCutBeforeMinutes(d, e, w, f, u);
    MinutesAfterCut(w, f, u);
    DurationsByParts(d + "-" + (e + " minutes") + w + mp + u, [(DigitsValue(d), DigitsValue(e))], [DigitsValue(f)], []);
  }

  /** The range is read and cut out, leaving the words and the single figure; no seconds are read. */
  lemma RangeCutBeforeMinutes(d: string, e: string, w: string, f: string, u: string)
    requires Numeral(d) && Numeral(e) && Numeral(f) && NoDigits(w) && NoDigits(u)
    ensures var t := d + "-" + (e + " minutes") + w + (f + " minutes") + u;
      EruptionRanges(t) == [(DigitsValue(d), DigitsValue(e))] && EruptionSeconds(t) == []
      && RemoveAll(t, MinuteRangeAt, 0) == w + (f + " minutes") + u
  {
    var rp, mp := d + "-" + (e + " minutes"), f + " minutes";
    Layout(rp, w, mp, u);
    var t := rp + w + mp + u;
    RangeThenMinutesAt(t, d, e, |rp| + |w|, f);
    RangeOnlyNoSeconds(t, |rp|, (DigitsValue(d), DigitsValue(e)));
  }

  /** With the range cut out, the single figure is read once. */
  lemma MinutesAfterCut(w: string, f: string, u: string)
    requires Numeral(f) && NoDigits(w) && NoDigits(u)
    ensures Values(FindAll(w + (f + " minutes") + u, MinutesAt, 0)) == [DigitsValue(f)]
  {
    var mp := f + " minutes";
    Layout("", w, mp, u);
    assert "" + w + mp + u == w + mp + u;
    SingleMinutesFacts(w + mp + u, |w|, f);
  }

  /** The durations of a text, from what each of its three steps reads. */
  lemma DurationsByParts(t: string, ranges: seq<(nat, nat)>, minutes: seq<nat>, seconds: seq<nat>)
    requires EruptionRanges(t) == ranges && EruptionSeconds(t) == seconds
    requires Values(FindAll(RemoveAll(t, MinuteRangeAt, 0), MinutesAt, 0)) == minutes
    ensures EruptionDurations(t) == DurationsFrom(ranges, minutes, seconds)
  {
  }

  /** Where `b` and `c` lie in `a + b + c + u`, and that `b` has no digit when it has none itself. */
  lemma Layout(a: string, b: string, c: string, u: string)
    ensures var t := a + b + c + u; var k := |a| + |b|;
      OccursAt(t, a, 0) && OccursAt(t, c, k) && t[|a|..] == b + c + u && t[k + |c|..] == u
      && (NoDigits(b) ==> forall i :: |a| <= i < k ==> !IsDigit(t[i]))
  {
    var t := a + b + c + u;
    var k := |a| + |b|;
    assert t[..|a|] == a;
    assert t[k..k + |c|] == c;
    assert t[|a|..] == b + c + u;
    assert t[k + |c|..] == u;
    forall i | |a| <= i < k
      ensures t[i] == b[i - |a|]
    {
    }
  }

  /** A range at the start, then no digit: the range alone, cut out; no seconds. */
  lemma RangeThenNoDigits(t: string, d: string, e: string)
    requires Numeral(d) && Numeral(e) && OccursAt(t, d + "-" + (e + " minutes"), 0)
    requires NoDigits(t[|d| + 1 + |e| + 8..])
    ensures EruptionRanges(t) == [(DigitsValue(d), DigitsValue(e))]
    ensures RemoveAll(t, MinuteRangeAt, 0) == t[|d| + 1 + |e| + 8..]
    ensures EruptionSeconds(t) == []
  {
    var k := |d| + 1 + |e| + 8;
    RangeThenNoDigitsAt(t, d, e);
    RangeOnlyNoSeconds(t, k, (DigitsValue(d), DigitsValue(e)));
  }

  /** The range `v` ends at `k`; no other range starts from `k` on and no seconds figure anywhere. */
  predicate RangeAloneAt(t: string, k: nat, v: (nat, nat))
  {
    0 < k <= |t| && MinuteRangeAt(t, 0).Some? && MinuteRangeAt(t, 0).value.0 == k
    && MinuteRangeAt(t, 0).value.1 == v
    && (forall j :: k <= j <= |t| ==> MinuteRangeAt(t, j).None?)
    && (forall j :: 0 <= j <= |t| ==> SecondsAt(t, j).None?)
  }

  lemma RangeThenNoDigitsAt(t: string, d: string, e: string)
    requires Numeral(d) && Numeral(e) && OccursAt(t, d + "-" + (e + " minutes"), 0)
    requires NoDigits(t[|d| + 1 + |e| + 8..])
    ensures RangeAloneAt(t, |d| + 1 + |e| + 8, (DigitsValue(d), DigitsValue(e)))
  {
    var k := |d| + 1 + |e| + 8;
    RangeSpelledAt(t, 0, d, e);
    TailNoMatch(t, k);
    forall j | 0 <= j <= |t|
      ensures SecondsAt(t, j).None?
    {
      if j < k {
        assert 0 <= j < 0 + k;
      } else {
        assert k <= j <= |t|;
      }
    }
  }

  /** The single range at the start, and no seconds anywhere: what the range and seconds steps read. */
  lemma RangeOnlyNoSeconds(t: string, k: nat, v: (nat, nat))
    requires RangeAloneAt(t, k, v)
    ensures EruptionRanges(t) == [v] && RemoveAll(t, MinuteRangeAt, 0) == t[k..] && EruptionSeconds(t) == []
  {
    RangeOnlyAtStart(t, k, v);
    FindAllNowhere(t, SecondsAt, 0);
  }

  /** A range at the start, digit-free words up to `a`, "<f> minutes" there, then no digit: only the range is read. */
  lemma RangeThenMinutesAt(t: string, d: string, e: string, a: nat, f: string)
    requires Numeral(d) && Numeral(e) && Numeral(f)
    requires OccursAt(t, d + "-" + (e + " minutes"), 0) && |d| + 1 + |e| + 8 <= a
    requires OccursAt(t, f + " minutes", a) && NoDigits(t[a + |f| + 8..])
    requires forall i :: |d| + 1 + |e| + 8 <= i < a ==> !IsDigit(t[i])
    ensures RangeAloneAt(t, |d| + 1 + |e| + 8, (DigitsValue(d), DigitsValue(e)))
  {
    var k := |d| + 1 + |e| + 8;
    RangeSpelledAt(t, 0, d, e);
    NoMatchFrom(t, k, a, f);
    forall j | 0 <= j <= |t|
      ensures SecondsAt(t, j).None?
    {
      if j < k {
        assert 0 <= j < 0 + k;
      } else {
        assert k <= j <= |t|;
      }
    }
  }

  /** Digit-free words from `k` up to `a`, "<f> minutes" there, then no digit: no range and no seconds start from `k` on. */
  lemma NoMatchFrom(t: string, k: nat, a: nat, f: string)
    requires Numeral(f) && k <= a && OccursAt(t, f + " minutes", a) && NoDigits(t[a + |f| + 8..])
    requires forall i :: k <= i < a ==> !IsDigit(t[i])
    ensures forall j :: k <= j <= |t| ==> MinuteRangeAt(t, j).None? && SecondsAt(t, j).None?
  {
    var b := a + |f| + 8;
    MinutesSpelledAt(t, a, f);
    RegionNoMatch(t, k, a);
    TailNoMatch(t, b);
    forall j | k <= j <= |t|
      ensures MinuteRangeAt(t, j).None? && SecondsAt(t, j).None?
    {
      if j < a {
        assert k <= j < a;
      } else if j < b {
        assert a <= j < b;
      } else {
        assert b <= j <= |t|;
      }
    }
  }

  /** Digit-free words up to `a`, "<f> minutes" there, then no digit: that one single figure. */
  lemma SingleMinutesFacts(r: string, a: nat, f: string)
    requires Numeral(f) && OccursAt(r, f + " minutes", a)
    requires (forall i :: 0 <= i < a ==> !IsDigit(r[i])) && NoDigits(r[a + |f| + 8..])
    ensures Values(FindAll(r, MinutesAt, 0)) == [DigitsValue(f)]
  {
    MinutesSpelledAt(r, a, f);
    RegionNoMatch(r, 0, a);
    TailNoMatch(r, a + |f| + 8);
    FindAllOnlyAt(r, MinutesAt, a);
  }

  /** Text without digits holds no single-minutes figure. */
  lemma NoDigitsNoMinutes(u: string)
    requires NoDigits(u)
    ensures FindAll(u, MinutesAt, 0) == []
  {
    assert u[0..] == u;
    TailNoMatch(u, 0);
    FindAllNowhere(u, MinutesAt, 0);
  }

  /** A range that is the only one, at the very start: read once, and cut out. */
  lemma RangeOnlyAtStart(t: string, e: nat, v: (nat, nat))
    requires 0 < e <= |t| && MinuteRangeAt(t, 0).Some? && MinuteRangeAt(t, 0).value.0 == e
    requires MinuteRangeAt(t, 0).value.1 == v
    requires forall j :: e <= j <= |t| ==> MinuteRangeAt(t, j).None?
    ensures EruptionRanges(t) == [v] && RemoveAll(t, MinuteRangeAt, 0) == t[e..]
  {
    RemoveAllOnlyAt(t, MinuteRangeAt, 0);
    FindAllOnlyAt(t, MinuteRangeAt, 0);
  }

  /** The durations of one range, at most one single figure and no seconds. */
  lemma DurationsOf(v: (nat, nat), minutes: seq<nat>)
    requires |minutes| <= 1
    ensures DurationsFrom([v], minutes, []) == Durations(Midpoint(v) + Sum(minutes) as real, 1 + |minutes|)
  {
    assert [v][..0] == [];
    assert MidpointTotal([v]) == Midpoint(v);
    assert Sum([]) as real / 60.0 == 0.0;
    if minutes != [] {
      assert minutes[..|minutes| - 1] == [];
    }
  }

  /** "<d> minutes" at `p`: the single-minutes pattern reads `d`, and no range or seconds start inside it. */
  lemma MinutesSpelledAt(t: string, p: nat, d: string)
    requires Numeral(d) && OccursAt(t, d + " minutes", p)
    ensures MinutesFigureAt(t, p, p + |d| + 8, DigitsValue(d))
    ensures NoneStartIn(t, p, p + |d| + 8)
  {
    MinutesLayout(t, p, d);
    MinutesAfterRun(t, p, d);
  }

  /** A digit string at `p`, then " minutes". */
  predicate RunThenMinutes(t: string, p: nat, d: string)
  {
    Numeral(d) && OccursAt(t, d, p) && OccursAt(t, " minutes", p + |d|) && p + |d| < |t| && t[p + |d|] == ' '
  }

  /** A digit string then " minutes" at `p`: a number run, read as one single-minutes figure. */
  lemma MinutesAfterRun(t: string, p: nat, d: string)
    requires RunThenMinutes(t, p, d)
    ensures MinutesFigureAt(t, p, p + |d| + 8, DigitsValue(d))
    ensures NoneStartIn(t, p, p + |d| + 8)
  {
    NumberRunOf(t, p, d);
    MinutesRead(t, p, p + |d|, DigitsValue(d));
  }

  /** "<d>-<e> minutes" at `p`: the range pattern reads both bounds, and no seconds start inside it. */
  lemma RangeSpelledAt(t: string, p: nat, d: string, e: string)
    requires Numeral(d) && Numeral(e) && OccursAt(t, d + "-" + (e + " minutes"), p)
    ensures MinuteRangeAt(t, p) == Some((p + |d| + 1 + |e| + 8, (DigitsValue(d), DigitsValue(e))))
    ensures forall j :: p <= j < p + |d| + 1 + |e| + 8 ==> SecondsAt(t, j).None?
  {
    RangeLayout(t, p, d, e);
    NumberRunOf(t, p, d);
    RangeAfterRun(t, p, d, e);
  }

  /** A number run, a dash, a digit string and " minutes": one range, and no seconds start inside. */
  lemma RangeAfterRun(t: string, p: nat, d: string, e: string)
    requires Numeral(d) && Numeral(e) && NumberRun(t, p, p + |d|, DigitsValue(d))
    requires var x := p + |d|; var y := x + 1 + |e|;
      y < |t| && t[x] == '-' && OccursAt(t, e, x + 1) && OccursAt(t, " minutes", y) && t[y] == ' '
    ensures MinuteRangeAt(t, p) == Some((p + |d| + 1 + |e| + 8, (DigitsValue(d), DigitsValue(e))))
    ensures forall j :: p <= j < p + |d| + 1 + |e| + 8 ==> SecondsAt(t, j).None?
  {
    var x := p + |d|;
    NumberRunOf(t, x + 1, e);
    RangeRead(t, p, x, DigitsValue(d), x + 1 + |e|, DigitsValue(e));
  }

  /** Where the pieces of "<d>-<e> minutes" lie when the phrase occurs at `p`. */
  lemma RangeLayout(t: string, p: nat, d: string, e: string)
    requires OccursAt(t, d + "-" + (e + " minutes"), p)
    ensures var x := p + |d|; var y := x + 1 + |e|;
      OccursAt(t, d, p) && t[x] == '-' && OccursAt(t, e, x + 1) && OccursAt(t, " minutes", y)
      && y < |t| && t[y] == ' '
  {
    OccursAtSplit(t, d + "-", e + " minutes", p);
    OccursAtSplit(t, d, "-", p);
    MinutesLayout(t, p + |d| + 1, e);
  }

  /** Where the pieces of "<d> minutes" lie when the phrase occurs at `p`. */
  lemma MinutesLayout(t: string, p: nat, d: string)
    requires OccursAt(t, d + " minutes", p)
    ensures OccursAt(t, d, p) && OccursAt(t, " minutes", p + |d|) && p + |d| < |t| && t[p + |d|] == ' '
  {
    OccursAtSplit(t, d, " minutes", p);
    assert t[p + |d|] == t[p + |d|..p + |d| + 8][0];
  }

  /** A digit string at `p`, followed by a non-digit, is a number run. */
  lemma NumberRunOf(t: string, p: nat, d: string)
    requires Numeral(d) && OccursAt(t, d, p) && p + |d| < |t| && !IsDigit(t[p + |d|])
    ensures NumberRun(t, p, p + |d|, DigitsValue(d))
  {
    SpelledDigits(t, p, d);
    DigitRunEnds(t, p, p + |d|);
  }

  /** The digit run at `p` ends at `x` and reads `n`; from inside it, the run read also ends at `x`. */
  predicate NumberRun(t: string, p: nat, x: nat, n: nat)
  {
    DigitsAt(t, p) == Some((x, n)) && forall j :: p <= j < x ==> DigitsAt(t, j).Some? && DigitsAt(t, j).value.0 == x
  }

  /** The single-minutes pattern at `p` reads `n` and ends at `e`. */
  predicate MinutesFigureAt(t: string, p: nat, e: nat, n: nat)
  {
    MinutesAt(t, p) == Some((e, n))
  }

  /** No duration range and no seconds figure starts anywhere from `a` up to `b`. */
  predicate NoneStartIn(t: string, a: nat, b: nat)
  {
    forall j :: a <= j < b ==> MinuteRangeAt(t, j).None? && SecondsAt(t, j).None?
  }

  /** A number run then " minutes": one single-minutes figure, and nothing else starts inside. */
  lemma MinutesRead(t: string, p: nat, x: nat, n: nat)
    requires NumberRun(t, p, x, n) && OccursAt(t, " minutes", x)
    ensures SkipSpaces(t, x) == x + 1 && WordEnd(t, x + 1, "minute", true) == Some(x + 8)
    ensures MinutesFigureAt(t, p, x + 8, n)
    ensures NoneStartIn(t, p, x + 8)
  {
    MinutesWordAt(t, x);
    forall j | p <= j < x
      ensures MinuteRangeAt(t, j).None? && SecondsAt(t, j).None?
    {
      NoRangeAfter(t, j, x + 1);
      NoSecondsAfter(t, j, x + 1);
    }
  }

  /** Two number runs joined by a dash, then " minutes": one range, and no seconds start inside. */
  lemma RangeRead(t: string, p: nat, x: nat, lo: nat, y: nat, hi: nat)
    requires NumberRun(t, p, x, lo) && x < |t| && t[x] == '-'
    requires NumberRun(t, x + 1, y, hi) && OccursAt(t, " minutes", y)
    ensures MinuteRangeAt(t, p) == Some((y + 8, (lo, hi)))
    ensures forall j :: p <= j < y + 8 ==> SecondsAt(t, j).None?
  {
    MinutesRead(t, x + 1, y, hi);
    SpacesBefore(t, x);
    SpacesBefore(t, x + 1);
    RangeReads(t, p, x, lo, y, hi, y + 1, y + 8);
    assert !OccursAt(t, "second", x) by { assert t[x] != "second"[0]; }
    forall j | p <= j < x
      ensures SecondsAt(t, j).None?
    {
      NoSecondsAfter(t, j, x);
    }
  }

  /** The range pattern, step by step: the lower bound, the dash, the upper bound, the word. */
  lemma RangeReads(t: string, p: nat, x: nat, lo: nat, y: nat, hi: nat, c: nat, e: nat)
    requires DigitsAt(t, p) == Some((x, lo)) && SkipSpaces(t, x) == x && x < |t| && t[x] == '-'
    requires SkipSpaces(t, x + 1) == x + 1 && DigitsAt(t, x + 1) == Some((y, hi))
    requires SkipSpaces(t, y) == c && WordEnd(t, c, "minute", true) == Some(e)
    ensures MinuteRangeAt(t, p) == Some((e, (lo, hi)))
  {
  }

  /** No space is skipped before a character that is not one. */
  lemma SpacesBefore(t: string, x: nat)
    requires x < |t| && (t[x] == '-' || IsDigit(t[x]))
    ensures SkipSpaces(t, x) == x
  {
  }

  /** A number followed by a word starting with "m" is no range. */
  lemma NoRangeAfter(t: string, j: nat, c: nat)
    requires DigitsAt(t, j).Some? && SkipSpaces(t, DigitsAt(t, j).value.0) == c && c < |t| && t[c] == 'm'
    ensures MinuteRangeAt(t, j).None?
  {
  }

  /** A number not followed by "second" is no seconds figure. */
  lemma NoSecondsAfter(t: string, j: nat, c: nat)
    requires DigitsAt(t, j).Some? && SkipSpaces(t, DigitsAt(t, j).value.0) == c && !OccursAt(t, "second", c)
    ensures SecondsAt(t, j).None?
  {
  }

  /** " minutes" at `e`: what the duration patterns see after a number. */
  lemma MinutesWordAt(t: string, e: nat)
    requires OccursAt(t, " minutes", e)
    ensures SkipSpaces(t, e) == e + 1 && t[e + 1] == 'm'
    ensures WordEnd(t, e + 1, "minute", true) == Some(e + 8) && !OccursAt(t, "second", e + 1)
    ensures forall j :: e <= j < e + 8 ==> !IsDigit(t[j])
  {
    var w := t[e..e + 8];
    assert w == " minutes";
    assert t[e + 1..e + 7] == w[1..7];
    assert w[1..7] == "minute";
    assert t[e] == w[0] && t[e + 1] == w[1] && t[e + 7] == w[7];
    assert !OccursAt(t, "second", e + 1) by { assert "second"[0] != t[e + 1]; }
    forall j | e <= j < e + 8
      ensures !IsDigit(t[j])
    {
      assert t[j] == w[j - e];
    }
  }

  /** No duration pattern starts at or after `p` when no digit follows it. */
  lemma TailNoMatch(t: string, p: nat)
    requires p <= |t| && NoDigits(t[p..])
    ensures forall j :: p <= j <= |t| ==> MinuteRangeAt(t, j).None? && MinutesAt(t, j).None? && SecondsAt(t, j).None?
  {
    forall j | p <= j < |t|
      ensures !IsDigit(t[j])
    {
      assert t[j] == t[p..][j - p];
    }
  }

  /** No duration pattern starts in a stretch of the text without digits. */
  lemma RegionNoMatch(t: string, lo: nat, hi: nat)
    requires hi <= |t| && forall k :: lo <= k < hi ==> !IsDigit(t[k])
    ensures forall j :: lo <= j < hi ==> MinuteRangeAt(t, j).None? && MinutesAt(t, j).None? && SecondsAt(t, j).None?
  {
  }

  // ------------------------------------------------------------ seismicity

  /** `(\d+)\s+phrase s?` at `i`: the number. */
  function CountPhraseAt(t: string, i: nat, phrase: string): (r: Option<(nat, nat)>)
    ensures r.Some? ==> DigitsAt(t, i).Some? && r.value.1 == DigitsAt(t, i).value.1
    ensures r.Some? ==> i < r.value.0 <= |t|
  {
    match DigitsAt(t, i)
    case None => None
    case Some(dv) =>
      var b := SkipSpaces(t, dv.0);
      if b == dv.0 then None
      else match WordEnd(t, b, phrase, true)
        case Some(e) => Some((e, dv.1))
        case None => None
  }

  function EarthquakesAt(t: string, i: nat): Option<(nat, nat)> { CountPhraseAt(t, i, "volcanic earthquake") }
  function TremorsAt(t: string, i: nat): Option<(nat, nat)> { CountPhraseAt(t, i, "volcanic tremor") }
  function TremorRangeAt(t: string, i: nat): Option<(nat, (nat, nat))> { RangeAt(t, i, "minutes", false) }
  function TremorMinutesAt(t: string, i: nat): Option<(nat, nat)> { UnitAt(t, i, "minutes", false) }

  /** A number written out at `p` and not followed by a digit is the digit run read there. */
  lemma NumberAt(t: string, p: nat, n: nat)
    requires OccursAt(t, NatToString(n), p)
    requires p + |NatToString(n)| < |t| ==> !IsDigit(t[p + |NatToString(n)|])
    ensures DigitsAt(t, p) == Some((p + |NatToString(n)|, n))
    ensures forall j :: p <= j < p + |NatToString(n)| ==>
      DigitsAt(t, j).Some? && DigitsAt(t, j).value.0 == p + |NatToString(n)|
  {
    var d := NatToString(n);
    var e := p + |d|;
    SpelledDigits(t, p, d);
    DigitRunEnds(t, p, e);
  }

  /** A digit string spelled at `p` puts a digit at each of its positions. */
  lemma SpelledDigits(t: string, p: nat, d: string)
    requires OccursAt(t, d, p) && AllDigits(d)
    ensures t[p..p + |d|] == d && forall k :: p <= k < p + |d| ==> IsDigit(t[k])
  {
    forall k | p <= k < p + |d|
      ensures IsDigit(t[k])
    {
      assert t[p..p + |d|][k - p] == t[k];
    }
  }

  /** Inside a maximal run of digits, the run is read to its end. */
  lemma DigitRunEnds(t: string, p: nat, e: nat)
    requires p <= e <= |t| && (forall k :: p <= k < e ==> IsDigit(t[k])) && (e < |t| ==> !IsDigit(t[e]))
    ensures forall j :: p <= j < e ==> SkipDigits(t, j) == e
  {
  }

  /** A number spelled at `p`, then a space and a word: what the count-phrase lemmas need of the text. */
  predicate NumberThenWord(t: string, p: nat, n: nat)
  {
    var e := p + |NatToString(n)|;
    OccursAt(t, NatToString(n), p) && e + 1 < |t| && t[e] == ' ' && !IsSpace(t[e + 1])
  }

  /** "<n> <phrase>" at `p`: the count phrase pattern reads `n` there. */
  lemma PhraseAfterNumber(t: string, p: nat, n: nat, phrase: string)
    requires NumberThenWord(t, p, n) && OccursAt(t, phrase, p + |NatToString(n)| + 1)
    ensures CountPhraseAt(t, p, phrase).Some? && CountPhraseAt(t, p, phrase).value.1 == n
  {
    var e := p + |NatToString(n)|;
    NumberAt(t, p, n);
    assert SkipSpaces(t, e) == e + 1;
    CountPhraseReadsNumber(t, p, n, phrase);
  }

  /** "<n> <word>" at `p`, the word not the phrase: the pattern reads nothing inside the number. */
  lemma OtherWordAfterNumber(t: string, p: nat, n: nat, phrase: string)
    requires NumberThenWord(t, p, n) && !OccursAt(t, phrase, p + |NatToString(n)| + 1)
    ensures forall j :: p <= j < p + |NatToString(n)| ==> CountPhraseAt(t, j, phrase).None?
  {
    var e := p + |NatToString(n)|;
    NumberAt(t, p, n);
    assert SkipSpaces(t, e) == e + 1;
    CountPhraseNoneInside(t, p, e, phrase);
  }

  /** With the phrase after the space, the pattern reads the number. */
  lemma CountPhraseReadsNumber(t: string, p: nat, n: nat, phrase: string)
    requires DigitsAt(t, p) == Some((p + |NatToString(n)|, n))
    requires var e := p + |NatToString(n)|; e + 1 < |t| && SkipSpaces(t, e) == e + 1 && OccursAt(t, phrase, e + 1)
    ensures CountPhraseAt(t, p, phrase).Some? && CountPhraseAt(t, p, phrase).value.1 == n
  {
  }

  /** Without the phrase after the space, no position inside the number starts a match. */
  lemma CountPhraseNoneInside(t: string, p: nat, e: nat, phrase: string)
    requires forall j :: p <= j < e ==> DigitsAt(t, j).Some? && DigitsAt(t, j).value.0 == e
    requires e + 1 < |t| && SkipSpaces(t, e) == e + 1 && !OccursAt(t, phrase, e + 1)
    ensures forall j :: p <= j < e ==> CountPhraseAt(t, j, phrase).None?
  {
    forall j | p <= j < e
      ensures CountPhraseAt(t, j, phrase).None?
    {
      assert DigitsAt(t, j).value.0 == e;
    }
  }

  /** The words after a number, as the count-phrase pattern needs them: a space, then a word. */
  predicate SpacedWords(u: string)
  {
    |u| >= 2 && u[0] == ' ' && !IsSpace(u[1])
  }

  /** A count phrase right after a leading number is the first one found. */
  lemma FirstOfLeadingPhrase(n: nat, u: string, phrase: string, m: Matcher<nat>)
    requires SpacedWords(u) && OccursAt(u, phrase, 1)
    requires forall s, i :: m(s, i) == CountPhraseAt(s, i, phrase)
    ensures First(NatToString(n) + u, m) == Some(n)
  {
    var t := NatToString(n) + u;
    LaterPhraseSome("", n, u, phrase);
    assert "" + t == t;
    assert m(t, 0) == CountPhraseAt(t, 0, phrase);
    FirstAt(t, m, 0);
  }

  /** A number and then digit-free words without the phrase: the phrase is found nowhere. */
  lemma NoPhraseAfterNumber(n: nat, u: string, phrase: string, m: Matcher<nat>)
    requires SpacedWords(u) && NoDigits(u) && !OccursAt(u, phrase, 1)
    requires forall s, i :: m(s, i) == CountPhraseAt(s, i, phrase)
    ensures First(NatToString(n) + u, m) == None
  {
    var d, t := NatToString(n), NatToString(n) + u;
    assert t[|d|] == u[0] && t[|d| + 1] == u[1];
    assert OccursAt(t, d, 0) by { assert t[..|d|] == d; }
    OccursShift(d, u, phrase, 1);
    OtherWordAfterNumber(t, 0, n, phrase);
    forall j | 0 <= j <= |t|
      ensures m(t, j).None?
    {
      if |d| <= j < |t| {
        assert t[j] == u[j - |d|];
      }
    }
  }

  /**
   * "<e> <words without the phrase><n> <phrase>...": the first phrase found
   * is the second number's.
   */
  lemma FirstOfLaterPhrase(e: nat, u1: string, n: nat, u2: string, phrase: string, m: Matcher<nat>)
    requires SpacedWords(u1) && NoDigits(u1) && !OccursAt(u1, phrase, 1) && 1 + |phrase| <= |u1|
    requires SpacedWords(u2) && OccursAt(u2, phrase, 1)
    requires forall s, i :: m(s, i) == CountPhraseAt(s, i, phrase)
    ensures First(NatToString(e) + u1 + (NatToString(n) + u2), m) == Some(n)
  {
    var de, dn := NatToString(e), NatToString(n);
    var a, b := de + u1, dn + u2;
    var t := a + b;
    LaterPhraseNone(e, u1, b, phrase, m);
    assert NatToString(e) + u1 + (NatToString(n) + u2) == t;
    LaterPhraseSome(a, n, u2, phrase);
    assert m(t, |a|) == CountPhraseAt(t, |a|, phrase);
    FirstAt(t, m, |a|);
  }

  lemma LaterPhraseNone(e: nat, u1: string, b: string, phrase: string, m: Matcher<nat>)
    requires SpacedWords(u1) && NoDigits(u1) && !OccursAt(u1, phrase, 1) && 1 + |phrase| <= |u1|
    requires forall s, i :: m(s, i) == CountPhraseAt(s, i, phrase)
    ensures forall j :: 0 <= j < |NatToString(e) + u1| ==> m(NatToString(e) + u1 + b, j).None?
  {
    var d := NatToString(e);
    var t := d + u1 + b;
    NumberThenOtherWords(d, u1, b, phrase);
    OtherWordAfterNumber(t, 0, e, phrase);
    WordsHoldNoNumber(d, u1, b);
    forall j | 0 <= j < |d + u1|
      ensures m(t, j).None?
    {
      assert m(t, j) == CountPhraseAt(t, j, phrase);
    }
  }

  /** The text a number, a space and another word make, as the count-phrase lemmas need it. */
  lemma NumberThenOtherWords(d: string, u1: string, b: string, phrase: string)
    requires SpacedWords(u1) && !OccursAt(u1, phrase, 1) && 1 + |phrase| <= |u1|
    ensures var t := d + u1 + b;
      OccursAt(t, d, 0) && |d| + 1 < |t| && t[|d|] == ' ' && !IsSpace(t[|d| + 1]) && !OccursAt(t, phrase, |d| + 1)
  {
    var t := d + u1 + b;
    assert t[|d|] == u1[0] && t[|d| + 1] == u1[1];
    assert t[..|d|] == d;
    assert t[|d| + 1..|d| + 1 + |phrase|] == u1[1..1 + |phrase|];
  }

  /** No digit run starts in the words after the number. */
  lemma WordsHoldNoNumber(d: string, u1: string, b: string)
    requires NoDigits(u1)
    ensures forall j :: |d| <= j < |d + u1| ==> DigitsAt(d + u1 + b, j).None?
  {
    var t := d + u1 + b;
    forall j | |d| <= j < |d + u1|
      ensures DigitsAt(t, j).None?
    {
      assert t[j] == u1[j - |d|];
    }
  }

  lemma LaterPhraseSome(a: string, n: nat, u2: string, phrase: string)
    requires SpacedWords(u2) && OccursAt(u2, phrase, 1)
    ensures var t := a + (NatToString(n) + u2);
      CountPhraseAt(t, |a|, phrase).Some? && CountPhraseAt(t, |a|, phrase).value.1 == n
  {
    NumberThenPhrase(a, NatToString(n), u2, phrase);
    PhraseAfterNumber(a + (NatToString(n) + u2), |a|, n, phrase);
  }

  /** The text a number, a space and the phrase make after `a`, as the count-phrase lemmas need it. */
  lemma NumberThenPhrase(a: string, d: string, u2: string, phrase: string)
    requires SpacedWords(u2) && OccursAt(u2, phrase, 1)
    ensures var t, e := a + (d + u2), |a| + |d|;
      OccursAt(t, d, |a|) && e + 1 < |t| && t[e] == ' ' && !IsSpace(t[e + 1]) && OccursAt(t, phrase, e + 1)
  {
    var t := a + (d + u2);
    var e := |a| + |d|;
    assert t[e] == u2[0] && t[e + 1] == u2[1];
    assert t[|a|..e] == d;
    assert t[e + 1..e + 1 + |phrase|] == u2[1..1 + |phrase|];
  }

  /** The features `parse_seismicity_advanced` returns. */
  datatype SeismicityInfo = SeismicityInfo(
    earthquakes: nat, tremors: nat, tremorMinutes: real, longTremor: nat, weakTremor: nat)

  /** Some range ends above an hour. */
  predicate LongRange(rs: seq<(nat, nat)>) { exists k :: 0 <= k < |rs| && rs[k].1 > 60 }

  /** Some single duration is above an hour. */
  predicate LongSingle(ms: seq<nat>) { exists k :: 0 <= k < |ms| && ms[k] > 60 }

  lemma LongRangePrefix(rs: seq<(nat, nat)>, j: nat)
    requires j < |rs|
    ensures LongRange(rs[..j + 1]) <==> LongRange(rs[..j]) || rs[j].1 > 60
  {
    assert rs[..j + 1][j] == rs[j];
    assert forall k :: 0 <= k < j ==> rs[..j + 1][k] == rs[..j][k];
  }

  lemma LongSinglePrefix(ms: seq<nat>, j: nat)
    requires j < |ms|
    ensures LongSingle(ms[..j + 1]) <==> LongSingle(ms[..j]) || ms[j] > 60
  {
    assert ms[..j + 1][j] == ms[j];
    assert forall k :: 0 <= k < j ==> ms[..j + 1][k] == ms[..j][k];
  }

  function TremorRanges(t: string): seq<(nat, nat)> { Values(FindAll(t, TremorRangeAt, 0)) }

  function TremorSingles(t: string): seq<nat>
  {
    Values(FindAll(RemoveAll(t, TremorRangeAt, 0), TremorMinutesAt, 0))
  }

  /**
   * The first earthquake and tremor counts (0 when absent), the range
   * midpoints plus the single durations left once the ranges are cut out,
   * a long-tremor flag when any of those exceeds 60 minutes, and a
   * weak-tremor flag for the phrase "weak volcanic tremor".
   */
  function SeismicityOf(text: string): (r: SeismicityInfo)
    ensures r.tremorMinutes >= 0.0
    ensures r.longTremor == 1 <==> LongRange(TremorRanges(Lower(text))) || LongSingle(TremorSingles(Lower(text)))
    ensures r.longTremor <= 1 && r.weakTremor <= 1
    ensures r.weakTremor == 1 <==> Contains(Lower(text), "weak volcanic tremor")
  {
    var t := Lower(text);
    SeismicityInfo(
      First(t, EarthquakesAt).GetOr(0),
      First(t, TremorsAt).GetOr(0),
      MidpointTotal(TremorRanges(t)) + Sum(TremorSingles(t)) as real,
      Flag(LongRange(TremorRanges(t)) || LongSingle(TremorSingles(t))),
      Flag(Contains(t, "weak volcanic tremor")))
  }

  /** `parse_seismicity_advanced`, step by step as the script runs it. */
  method ParseSeismicityAdvanced(text: string) returns (r: SeismicityInfo)
    ensures r == SeismicityOf(text)
  {
    var t := Lower(text);
    var earthquakes := First(t, EarthquakesAt).GetOr(0);
    var tremors := First(t, TremorsAt).GetOr(0);
    var total, long := TremorDurations(t);
    var weak := Flag(Contains(t, "weak volcanic tremor"));
    r := SeismicityInfo(earthquakes, tremors, total, long, weak);
  }

  /** The duration step: range midpoints, then the single durations left once the ranges are cut out. */
  method TremorDurations(t: string) returns (total: real, long: nat)
    ensures total == MidpointTotal(TremorRanges(t)) + Sum(TremorSingles(t)) as real
    ensures long == Flag(LongRange(TremorRanges(t)) || LongSingle(TremorSingles(t)))
  {
    var ranges := TremorRanges(t);
    var rangeLong: bool;
    total, rangeLong := RangeMinutes(ranges);
    var singles := TremorSingles(t);
    var minutes, singleLong := SingleMinutes(singles);
    long := Flag(rangeLong || singleLong);
    total := total + minutes as real;
  }

  /** The loop over the ranges: the sum of their midpoints, and whether one ends above an hour. */
  method RangeMinutes(ranges: seq<(nat, nat)>) returns (total: real, long: bool)
    ensures total == MidpointTotal(ranges) && long == LongRange(ranges)
  {
    total := 0.0;
    long := false;
    for k := 0 to |ranges|
      invariant total == MidpointTotal(ranges[..k])
      invariant long == LongRange(ranges[..k])
    {
      MidpointPrefix(ranges, k);
      LongRangePrefix(ranges, k);
      total := total + Midpoint(ranges[k]);
      if ranges[k].1 > 60 {
        long := true;
      }
    }
    assert ranges[..|ranges|] == ranges;
  }

  /** The loop over the single durations: their sum, and whether one is above an hour. */
  method SingleMinutes(singles: seq<nat>) returns (minutes: nat, long: bool)
    ensures minutes == Sum(singles) && long == LongSingle(singles)
  {
    minutes := 0;
    long := false;
    for k := 0 to |singles|
      invariant minutes == Sum(singles[..k])
      invariant long == LongSingle(singles[..k])
    {
      SumPrefix(singles, k);
      LongSinglePrefix(singles, k);
      minutes := minutes + singles[k];
      if singles[k] > 60 {
        long := true;
      }
    }
    assert singles[..|singles|] == singles;
  }
}
