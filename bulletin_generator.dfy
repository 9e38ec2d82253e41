/**
 * Turning forecast figures back into bulletin text
 * (reverse_forecast_to_bulletin.py): the eruption, seismicity, SO2, plume
 * and ground-deformation cells of one forecast row, and the enhanced
 * generator's alert-level clip.
 *
 * The forecast figures are real numbers; Python's `round` is
 * round-half-to-even (`RoundHalfEven`). Each generated cell is paired with
 * the parser that reads that cell back (dm_v0.5.py), and the lemmas say
 * what the parser recovers.
 */
module BulletinGenerator {
  import opened Wrappers
  import opened Text
  import opened Numbers
  import opened Scan
  import CellFeatures
  import EventFeatures

  /** `max(0, round(x))`: a forecast figure as a whole count. */
  function CountOf(x: real): (n: nat)
    ensures x <= 0.0 ==> n == 0
    ensures n > 0 ==> x - 1.0 / 2.0 <= n as real <= x + 1.0 / 2.0
  {
    var r := RoundHalfEven(x);
    if r > 0 then r else 0
  }

  /** A whole, non-negative figure is its own count. */
  lemma CountOfWhole(k: nat)
    ensures CountOf(k as real) == k
  {
    RoundWhole(k);
  }

  /** A number followed by a text lower-cases to the number and the lower-cased text. */
  lemma LowerAfterNumber(n: nat, w: string, lw: string)
    requires LowersTo(w, lw)
    ensures Lower(NatToString(n) + w) == NatToString(n) + lw
  {
    var d := NatToString(n);
    LowerAppend(d, w);
    assert forall i :: 0 <= i < |d| ==> !IsUpper(d[i]) by {
      forall i | 0 <= i < |d| ensures !IsUpper(d[i]) { assert IsDigit(d[i]); }
    }
    LowerNoUpper(d);
  }

  // ------------------------------------------------------------ eruption

  /** The eruption type named for a severity score. */
  function EruptionType(severity: real): string
  {
    if severity >= 2.5 then "Phreatomagmatic"
    else if severity >= 1.5 then "Phreatic"
    else if severity >= 0.5 then "Minor Phreatic"
    else "Phreatic"
  }

  /** The size word put before the type. */
  function Descriptor(severity: real): string
  {
    if severity < 1.0 then "Minor "
    else if severity > 2.0 then "Major "
    else ""
  }

  /** "event" for exactly one, "events" otherwise. */
  function EventNoun(n: nat): string
  {
    if n == 1 then "Eruption event" else "Eruption events"
  }

  /**
   * `reverse_eruption`: "0" for no eruption, otherwise
   * "<n> <descriptor><type> Eruption event(s)".
   */
  function ReverseEruption(count: real, severity: real): (r: string)
    ensures r == "0" <==> CountOf(count) == 0
  {
    var n := CountOf(count);
    if n == 0 then "0"
    else NatToString(n) + " " + Descriptor(severity) + EruptionType(severity) + " " + EventNoun(n)
  }

  /** The type text already names the size: a second "Minor " doubles it. */
  function FixedDescriptor(severity: real): (r: string)
    ensures !(0.5 <= severity < 1.0) ==> r == Descriptor(severity)
  {
    if 0.5 <= severity < 1.0 then "" else Descriptor(severity)
  }

  /** `reverse_eruption` with the size named once. */
  function ReverseEruptionFixed(count: real, severity: real): (r: string)
    ensures r == "0" <==> CountOf(count) == 0
    ensures !(0.5 <= severity < 1.0) ==> r == ReverseEruption(count, severity)
  {
    var n := CountOf(count);
    if n == 0 then "0"
    else NatToString(n) + " " + FixedDescriptor(severity) + EruptionType(severity) + " " + EventNoun(n)
  }

  /** The lower-cased words after the number, as each severity band words them (size named once). */
  function FixedWords(severity: real): string
  {
    if severity >= 2.5 then " major phreatomagmatic"
    else if severity > 2.0 then " major phreatic"
    else if severity >= 1.5 then " phreatic"
    else " minor phreatic"
  }

  /** The lower-cased noun: " eruption event" for one, " eruption events" otherwise. */
  function NounWords(n: nat): string
  {
    if n == 1 then " eruption event" else " eruption events"
  }

  lemma LowerNoun(n: nat)
    ensures LowersTo(" " + EventNoun(n), NounWords(n))
  {
  }

  lemma LowerFixedHead(severity: real)
    ensures LowersTo(" " + FixedDescriptor(severity) + EruptionType(severity), FixedWords(severity))
  {
    if severity >= 2.5 {
      HeadVeryStrong(severity);
    } else if severity > 2.0 {
      HeadStrong(severity);
    } else if severity >= 1.5 {
      HeadPlain(severity);
    } else {
      HeadMinor(severity);
    }
  }

  lemma HeadVeryStrong(severity: real)
    requires severity >= 2.5
    ensures LowersTo(" " + FixedDescriptor(severity) + EruptionType(severity), FixedWords(severity))
  {
    assert " " + FixedDescriptor(severity) + EruptionType(severity) == " Major Phreatomagmatic";
    LowerMajorPhreatomagmatic();
  }

  lemma HeadStrong(severity: real)
    requires 2.0 < severity < 2.5
    ensures LowersTo(" " + FixedDescriptor(severity) + EruptionType(severity), FixedWords(severity))
  {
    assert " " + FixedDescriptor(severity) + EruptionType(severity) == " Major Phreatic";
    LowerMajorPhreatic();
  }

  lemma HeadPlain(severity: real)
    requires 1.5 <= severity <= 2.0
    ensures LowersTo(" " + FixedDescriptor(severity) + EruptionType(severity), FixedWords(severity))
  {
    assert " " + FixedDescriptor(severity) + EruptionType(severity) == " Phreatic";
    LowerPhreatic();
  }

  lemma HeadMinor(severity: real)
    requires severity < 1.5
    ensures LowersTo(" " + FixedDescriptor(severity) + EruptionType(severity), FixedWords(severity))
  {
    assert " " + FixedDescriptor(severity) + EruptionType(severity) == " Minor Phreatic";
    LowerMinorPhreatic();
  }

  lemma LowerMajorPhreatomagmatic() ensures LowersTo(" Major Phreatomagmatic", " major phreatomagmatic") { }
  lemma LowerMajorPhreatic() ensures LowersTo(" Major Phreatic", " major phreatic") { }
  lemma LowerPhreatic() ensures LowersTo(" Phreatic", " phreatic") { }
  lemma LowerMinorPhreatic() ensures LowersTo(" Minor Phreatic", " minor phreatic") { }

  /** The noun words are " eruption" and an ending without digits. */
  lemma NounFacts(n: nat)
    ensures var nw := NounWords(n);
      |nw| >= 9 && nw[0] == ' ' && nw[1..9] == "eruption" && NoDigits(nw)
  {
  }

  /** The requirements of the sized pattern on the words after the number. */
  predicate SizedShape(u: string, len: nat)
  {
    |u| >= 16 + len && u[0] == ' ' && !IsSpace(u[1]) && EventFeatures.SizeWordEnd(u, 1) == Some(6)
    && u[6] == ' ' && !IsSpace(u[7]) && EventFeatures.TypeWordEnd(u, 7) == Some(7 + len)
    && u[7 + len] == ' ' && OccursAt(u, "eruption", 8 + len) && NoDigits(u)
  }

  /** " <size> <type>" then the noun has the sized shape. */
  lemma SizedWords(head: string, sz: string, ty: string, n: nat)
    requires sz == "minor" || sz == "major"
    requires ty == "phreatic" || ty == "phreatomagmatic"
    requires head == " " + sz + " " + ty && NoDigits(head)
    ensures SizedShape(head + NounWords(n), |ty|)
  {
    var nw := NounWords(n);
    var u := head + nw;
    NounFacts(n);
    HeadThenNoun(head, sz, ty, nw);
    EventFeatures.SizeWordAt(u, 1, sz);
    EventFeatures.TypeWordAt(u, 7, ty);
    NoDigitsAppend(head, nw);
  }

  /** Where each word of " <size> <type>" and of the noun after it stands. */
  lemma HeadThenNoun(head: string, sz: string, ty: string, nw: string)
    requires |sz| == 5 && |ty| >= 1 && head == " " + sz + " " + ty
    requires |nw| >= 9 && nw[0] == ' ' && nw[1..9] == "eruption"
    ensures var u := head + nw;
      |u| >= 16 + |ty| && u[0] == ' ' && OccursAt(u, sz, 1) && u[1] == sz[0] && u[6] == ' '
      && OccursAt(u, ty, 7) && u[7] == ty[0] && u[7 + |ty|] == ' ' && OccursAt(u, "eruption", 8 + |ty|)
  {
    var u := head + nw;
    forall k | 0 <= k < 5 ensures u[1 + k] == sz[k] { assert u[1 + k] == head[1 + k]; }
    assert u[1..6] == sz;
    forall k | 0 <= k < |ty| ensures u[7 + k] == ty[k] { assert u[7 + k] == head[7 + k]; }
    assert u[7..7 + |ty|] == ty;
    forall j | 8 + |ty| <= j < 16 + |ty| ensures u[j] == nw[j - |head|] { }
    assert u[8 + |ty|..16 + |ty|] == nw[1..9];
  }

  lemma MajorPhreatomagmaticWords(n: nat)
    ensures SizedShape(" major phreatomagmatic" + NounWords(n), 15)
  {
    SizedWords(" major phreatomagmatic", "major", "phreatomagmatic", n);
  }

  lemma MajorPhreaticWords(n: nat)
    ensures SizedShape(" major phreatic" + NounWords(n), 8)
  {
    SizedWords(" major phreatic", "major", "phreatic", n);
  }

  lemma MinorPhreaticWords(n: nat)
    ensures SizedShape(" minor phreatic" + NounWords(n), 8)
  {
    SizedWords(" minor phreatic", "minor", "phreatic", n);
  }

  /** " phreatic" then the noun: what the plain pattern needs. */
  lemma PlainWords(n: nat)
    ensures var u := " phreatic" + NounWords(n);
      |u| >= 18 && u[0] == ' ' && !IsSpace(u[1]) && EventFeatures.TypeWordEnd(u, 1) == Some(9)
      && u[9] == ' ' && OccursAt(u, "eruption", 10) && NoDigits(u)
  {
    var nw := NounWords(n);
    var u := " phreatic" + nw;
    NounFacts(n);
    assert u[1..9] == "phreatic";
    EventFeatures.TypeWordAt(u, 1, "phreatic");
    assert u[10..18] == nw[1..9];
  }

  /** The cell is the number, then the words before the noun, then the noun. */
  lemma CellRegrouped(num: string, descriptor: string, kind: string, noun: string)
    ensures num + " " + descriptor + kind + " " + noun == num + ((" " + descriptor + kind) + (" " + noun))
  {
  }

  /** The lower-cased cell, once the count is positive, is the number then the band's words. */
  lemma LowerFixedCell(count: real, severity: real)
    requires CountOf(count) > 0
    ensures var n := CountOf(count);
      Lower(ReverseEruptionFixed(count, severity)) == NatToString(n) + (FixedWords(severity) + NounWords(n))
  {
    var n := CountOf(count);
    var head := " " + FixedDescriptor(severity) + EruptionType(severity);
    var noun := " " + EventNoun(n);
    LowerFixedHead(severity);
    LowerNoun(n);
    LowersToAppend(head, FixedWords(severity), noun, NounWords(n));
    CellRegrouped(NatToString(n), FixedDescriptor(severity), EruptionType(severity), EventNoun(n));
    LowerAfterNumber(n, head + noun, FixedWords(severity) + NounWords(n));
  }

  /** Words of the sized shape after a number are read as that number of eruptions. */
  lemma SizedCountedOnce(n: nat, u: string, len: nat)
    requires SizedShape(u, len)
    ensures EventFeatures.EruptionCountOnce(NatToString(n) + u) == n
  {
    EventFeatures.SizedAtStart(n, u, len);
    EventFeatures.CountOnceOfLeading(n, u);
  }

  /** " phreatic" and the noun after a number are read as that number of eruptions. */
  lemma PlainCountedOnce(n: nat)
    ensures EventFeatures.EruptionCountOnce(NatToString(n) + (" phreatic" + NounWords(n))) == n
  {
    var u := " phreatic" + NounWords(n);
    PlainWords(n);
    EventFeatures.PlainAtStart(n, u, 8);
    EventFeatures.CountOnceOfLeading(n, u);
  }

  /** The cell for no eruption, "0", is read as none. */
  lemma ZeroCell()
    ensures EventFeatures.EruptionCountOnce(Lower("0")) == 0
  {
    LowerAfterNumber(0, "", "");
    assert NatToString(0) + "" == "0";
    EventFeatures.ZeroText();
  }

  /**
   * The corrected cell reads back, case-insensitively, as exactly the
   * number of eruptions it was generated from, in every severity band.
   */
  lemma FixedEruptionRoundTrip(count: real, severity: real)
    ensures EventFeatures.EruptionCountOnce(Lower(ReverseEruptionFixed(count, severity))) == CountOf(count)
  {
    var n := CountOf(count);
    if n == 0 {
      ZeroCell();
    } else {
      LowerFixedCell(count, severity);
      if severity >= 2.5 {
        MajorPhreatomagmaticWords(n);
        SizedCountedOnce(n, " major phreatomagmatic" + NounWords(n), 15);
      } else if severity > 2.0 {
        MajorPhreaticWords(n);
        SizedCountedOnce(n, " major phreatic" + NounWords(n), 8);
      } else if severity >= 1.5 {
        PlainCountedOnce(n);
      } else {
        MinorPhreaticWords(n);
        SizedCountedOnce(n, " minor phreatic" + NounWords(n), 8);
      }
    }
  }

  // As written, the 0.5 to 1.0 band puts "Minor " before "Minor Phreatic".

  lemma LowerMinorMinorPhreatic() ensures LowersTo(" Minor Minor Phreatic", " minor minor phreatic") { }

  /** In the 0.5 to 1.0 band the words before the noun lower-case to " minor minor phreatic". */
  lemma LowerMinorMinorHead(severity: real)
    requires 0.5 <= severity < 1.0
    ensures LowersTo(" " + Descriptor(severity) + EruptionType(severity), " minor minor phreatic")
  {
    assert " " + Descriptor(severity) + EruptionType(severity) == " Minor Minor Phreatic";
    LowerMinorMinorPhreatic();
  }

  /** " minor minor phreatic" and the noun: no digits, and it starts with " minor minor ". */
  lemma MinorMinorWords(n: nat)
    ensures var u := " minor minor phreatic" + NounWords(n);
      NoDigits(u) && OccursAt(u, " minor minor ", 0)
  {
    var u := " minor minor phreatic" + NounWords(n);
    NounFacts(n);
    assert u[0..13] == " minor minor ";
    assert forall i :: 21 <= i < |u| ==> u[i] == NounWords(n)[i - 21];
  }

  /** As written, the lower-cased cell of the 0.5 to 1.0 band. */
  lemma LowerMinorMinorCell(count: real, severity: real)
    requires 0.5 <= severity < 1.0 && CountOf(count) > 0
    ensures var n := CountOf(count);
      Lower(ReverseEruption(count, severity)) == NatToString(n) + (" minor minor phreatic" + NounWords(n))
  {
    var n := CountOf(count);
    var head := " " + Descriptor(severity) + EruptionType(severity);
    var noun := " " + EventNoun(n);
    LowerMinorMinorHead(severity);
    LowerNoun(n);
    LowersToAppend(head, " minor minor phreatic", noun, NounWords(n));
    CellRegrouped(NatToString(n), Descriptor(severity), EruptionType(severity), EventNoun(n));
    LowerAfterNumber(n, head + noun, " minor minor phreatic" + NounWords(n));
  }

  /**
   * As written, a cell in the 0.5 to 1.0 severity band reads "<n> Minor Minor
   * Phreatic Eruption event(s)", and the parser finds no eruption in it at all.
   */
  lemma MinorMinorReadsZero(count: real, severity: real)
    requires 0.5 <= severity < 1.0 && CountOf(count) > 0
    ensures EventFeatures.EruptionCount(Lower(ReverseEruption(count, severity))) == 0
    ensures EventFeatures.EruptionCountOnce(Lower(ReverseEruption(count, severity))) == 0
  {
    var n := CountOf(count);
    LowerMinorMinorCell(count, severity);
    MinorMinorWords(n);
    EventFeatures.MinorMinorNowhere(n, " minor minor phreatic" + NounWords(n));
  }

  /** " phreatic" and the noun after a number is the phreatic report the parser double counts. */
  lemma PhreaticWordsReport(n: nat)
    ensures NatToString(n) + (" phreatic" + NounWords(n))
      == EventFeatures.PhreaticReport(n, if n == 1 then " event" else " events")
  {
    var rest := if n == 1 then " event" else " events";
    assert " phreatic" + NounWords(n) == " phreatic eruption" + rest;
  }

  /**
   * In the 1.5 to 2.0 band the cell reads "<n> Phreatic Eruption event(s)",
   * which both the plain and the sized pattern match: the parser as written
   * counts it twice.
   */
  lemma PhreaticCellCountedTwice(count: real, severity: real)
    requires 1.5 <= severity <= 2.0 && CountOf(count) > 0
    ensures EventFeatures.EruptionCount(Lower(ReverseEruption(count, severity))) == 2 * CountOf(count)
  {
    var n := CountOf(count);
    var rest := if n == 1 then " event" else " events";
    assert NoDigits(rest) by {
      if n == 1 { assert NoDigits(" event"); } else { assert NoDigits(" events"); }
    }
    assert Lower(ReverseEruption(count, severity)) == EventFeatures.PhreaticReport(n, rest) by {
      assert ReverseEruptionFixed(count, severity) == ReverseEruption(count, severity);
      LowerFixedCell(count, severity);
      assert FixedWords(severity) == " phreatic";
      PhreaticWordsReport(n);
    }
    EventFeatures.PhreaticCountedTwice(n, rest);
  }

  // ---------------------------------------------------------- seismicity

  /** "" for exactly one, "s" otherwise. */
  function Plural(n: nat): string { if n == 1 then "" else "s" }

  function QuakeWords(n: nat): string { " volcanic earthquake" + Plural(n) }
  function TremorWords(n: nat): string { " volcanic tremor" + Plural(n) }

  /**
   * `reverse_seismicity` on rounded counts: "0 volcanic earthquakes" when
   * both are zero, otherwise the earthquake phrase, the tremor phrase, or
   * both joined by " including ".
   */
  function SeismicityText(earthquakes: nat, tremors: nat): (r: string)
    ensures |r| > 0 && IsDigit(r[0])
    ensures tremors == 0 ==> |NatToString(earthquakes)| <= |r| && r[..|NatToString(earthquakes)|] == NatToString(earthquakes)
  {
    if earthquakes == 0 && tremors == 0 then
      assert NatToString(0) == [DigitChar(0)];
      "0 volcanic earthquakes"
    else if tremors == 0 then NatToString(earthquakes) + QuakeWords(earthquakes)
    else if earthquakes == 0 then NatToString(tremors) + TremorWords(tremors)
    else NatToString(earthquakes) + QuakeWords(earthquakes) + " including " + NatToString(tremors) + TremorWords(tremors)
  }

  /** `reverse_seismicity`, building its list of parts as the script does. */
  method ReverseSeismicity(earthquakesForecast: real, tremorsForecast: real) returns (r: string)
    ensures r == SeismicityText(CountOf(earthquakesForecast), CountOf(tremorsForecast))
  {
    var earthquakes := CountOf(earthquakesForecast);
    var tremors := CountOf(tremorsForecast);
    if earthquakes == 0 && tremors == 0 {
      return "0 volcanic earthquakes";
    }
    var parts: seq<string> := [];
    if earthquakes > 0 {
      parts := parts + [NatToString(earthquakes) + QuakeWords(earthquakes)];
    }
    if tremors > 0 {
      parts := parts + [NatToString(tremors) + TremorWords(tremors)];
    }
    if earthquakes == 0 && tremors > 0 {
      r := Join(parts, " including ");
    } else if earthquakes > 0 && tremors > 0 {
      r := parts[0] + " including " + parts[1];
    } else {
      r := parts[0];
    }
  }

  /** What the count-phrase pattern needs of the words after a number. */
  predicate PhraseWords(u: string)
  {
    EventFeatures.SpacedWords(u) && NoDigits(u) && LowersTo(u, u)
  }

  lemma QuakeWordsFacts(n: nat)
    ensures var u := QuakeWords(n);
      PhraseWords(u) && OccursAt(u, "volcanic earthquake", 1) && !OccursAt(u, "volcanic tremor", 1)
  {
    var u := QuakeWords(n);
    assert u[1..20] == "volcanic earthquake";
    assert u[1..16][9] == u[10];
  }

  lemma TremorWordsFacts(n: nat)
    ensures var u := TremorWords(n);
      PhraseWords(u) && OccursAt(u, "volcanic tremor", 1) && |u| < 20
  {
    var u := TremorWords(n);
    assert u[1..16] == "volcanic tremor";
  }

  /** The earthquake words, then " including ", lead up to the tremor number. */
  lemma JoinWordsFacts(n: nat)
    ensures var u := QuakeWords(n) + " including ";
      PhraseWords(u) && OccursAt(u, "volcanic earthquake", 1) && !OccursAt(u, "volcanic tremor", 1)
  {
    var q, b := QuakeWords(n), " including ";
    var u := q + b;
    QuakeWordsFacts(n);
    assert NoDigits(b) && LowersTo(b, b);
    NoDigitsAppend(q, b);
    LowersToAppend(q, q, b, b);
    assert u[0] == q[0] && u[1] == q[1];
    assert u[1..20] == q[1..20];
    assert u[1..16] == q[1..16];
  }

  /** The earthquake phrase alone is read as `n` earthquakes and no tremors. */
  lemma QuakeOnlyCell(n: nat)
    ensures var r := EventFeatures.SeismicityOf(NatToString(n) + QuakeWords(n));
      r.earthquakes == n && r.tremors == 0
  {
    var u := QuakeWords(n);
    QuakeWordsFacts(n);
    LowerAfterNumber(n, u, u);
    EventFeatures.FirstOfLeadingPhrase(n, u, "volcanic earthquake", EventFeatures.EarthquakesAt);
    EventFeatures.NoPhraseAfterNumber(n, u, "volcanic tremor", EventFeatures.TremorsAt);
  }

  /** The tremor phrase alone is read as no earthquakes and `n` tremors. */
  lemma TremorOnlyCell(n: nat)
    ensures var r := EventFeatures.SeismicityOf(NatToString(n) + TremorWords(n));
      r.earthquakes == 0 && r.tremors == n
  {
    var u := TremorWords(n);
    TremorWordsFacts(n);
    LowerAfterNumber(n, u, u);
    EventFeatures.FirstOfLeadingPhrase(n, u, "volcanic tremor", EventFeatures.TremorsAt);
    EventFeatures.NoPhraseAfterNumber(n, u, "volcanic earthquake", EventFeatures.EarthquakesAt);
  }

  /** Lower-casing leaves the two-phrase cell as it is. */
  lemma BothLower(e: nat, n: nat)
    ensures var a, b := NatToString(e) + (QuakeWords(e) + " including "), NatToString(n) + TremorWords(n);
      Lower(a + b) == a + b
  {
    var u1, u2 := QuakeWords(e) + " including ", TremorWords(n);
    JoinWordsFacts(e);
    TremorWordsFacts(n);
    LowerAppend(NatToString(e) + u1, NatToString(n) + u2);
    LowerAfterNumber(e, u1, u1);
    LowerAfterNumber(n, u2, u2);
  }

  /** A word found in a text is still found once more text follows. */
  lemma OccursBefore(u: string, b: string, w: string, k: nat)
    requires OccursAt(u, w, k)
    ensures OccursAt(u + b, w, k)
  {
    assert (u + b)[k..k + |w|] == u[k..k + |w|];
  }

  /** A count phrase after the leading number is found first, whatever follows the words. */
  lemma LeadingPhraseThenMore(e: nat, u: string, b: string, phrase: string, m: Matcher<nat>)
    requires EventFeatures.SpacedWords(u) && OccursAt(u, phrase, 1)
    requires forall s, i :: m(s, i) == EventFeatures.CountPhraseAt(s, i, phrase)
    ensures First(NatToString(e) + u + b, m) == Some(e)
  {
    OccursBefore(u, b, phrase, 1);
    assert (u + b)[0] == u[0] && (u + b)[1] == u[1];
    EventFeatures.FirstOfLeadingPhrase(e, u + b, phrase, m);
    assert NatToString(e) + (u + b) == NatToString(e) + u + b;
  }

  /** In the two-phrase cell the first earthquake count is the leading one. */
  lemma BothQuakes(e: nat, b: string)
    ensures First(NatToString(e) + (QuakeWords(e) + " including ") + b, EventFeatures.EarthquakesAt) == Some(e)
  {
    JoinWordsFacts(e);
    LeadingPhraseThenMore(e, QuakeWords(e) + " including ", b, "volcanic earthquake", EventFeatures.EarthquakesAt);
  }

  /** In the two-phrase cell the first tremor count is the one after " including ". */
  lemma BothTremors(e: nat, n: nat)
    ensures First(NatToString(e) + (QuakeWords(e) + " including ") + (NatToString(n) + TremorWords(n)), EventFeatures.TremorsAt) == Some(n)
  {
    JoinWordsFacts(e);
    TremorWordsFacts(n);
    EventFeatures.FirstOfLaterPhrase(e, QuakeWords(e) + " including ", n, TremorWords(n), "volcanic tremor", EventFeatures.TremorsAt);
  }

  /** "<e> volcanic earthquake(s) including <n> volcanic tremor(s)" is read as `e` earthquakes and `n` tremors. */
  lemma BothCell(e: nat, n: nat)
    ensures var r := EventFeatures.SeismicityOf(NatToString(e) + (QuakeWords(e) + " including ") + (NatToString(n) + TremorWords(n)));
      r.earthquakes == e && r.tremors == n
  {
    BothLower(e, n);
    BothQuakes(e, NatToString(n) + TremorWords(n));
    BothTremors(e, n);
  }

  /**
   * The seismicity cell reads back, through the seismicity parser, as the
   * earthquake and tremor counts it was generated from.
   */
  lemma SeismicityRoundTrip(earthquakes: nat, tremors: nat)
    ensures EventFeatures.SeismicityOf(SeismicityText(earthquakes, tremors)).earthquakes == earthquakes
    ensures EventFeatures.SeismicityOf(SeismicityText(earthquakes, tremors)).tremors == tremors
  {
    if earthquakes == 0 && tremors == 0 {
      QuietText();
      QuakeOnlyCell(0);
    } else if tremors == 0 {
      QuakeOnlyCell(earthquakes);
    } else if earthquakes == 0 {
      TremorOnlyCell(tremors);
    } else {
      BothText(earthquakes, tremors);
      BothCell(earthquakes, tremors);
    }
  }

  /** With nothing forecast the cell is the zero-earthquake cell. */
  lemma QuietText()
    ensures SeismicityText(0, 0) == NatToString(0) + QuakeWords(0)
  {
  }

  /** With both forecast the cell joins the earthquake cell and the tremor cell with " including ". */
  lemma BothText(earthquakes: nat, tremors: nat)
    requires earthquakes > 0 && tremors > 0
    ensures SeismicityText(earthquakes, tremors)
      == NatToString(earthquakes) + (QuakeWords(earthquakes) + " including ") + (NatToString(tremors) + TremorWords(tremors))
  {
  }

  // ----------------------------------------------------------------- SO2

  /** `max(1, round(x))`: a positive flux is written as at least one tonne. */
  function AtLeastOne(r: int): (n: nat)
    ensures n >= 1 && (r >= 1 ==> n == r)
  {
    if r >= 1 then r else 1
  }

  /**
   * `reverse_so2`: "Below detection limit" for a flux of zero or less,
   * otherwise the rounded flux with comma thousands separators, the unit and
   * the date the figure refers to.
   */
  function ReverseSo2(flux: real): (r: string)
    ensures r == "Below detection limit" <==> flux <= 0.0
    ensures flux > 0.0 ==> |r| > 0 && IsDigit(r[0])
  {
    if flux <= 0.0 then "Below detection limit"
    else
      var figure := FormatThousands(AtLeastOne(RoundHalfEven(flux)));
      var text := figure + " tonnes / day (15 July 2025)";
      assert text[0] == figure[0];
      assert text[0] != "Below detection limit"[0];
      text
  }

  /** The date note after the unit holds no letter b. */
  lemma DateNoteFacts()
    ensures CellFeatures.NoLetterB(" (15 July 2025)")
  {
  }

  /** A text that lower-cases to the detection-limit phrase is read as no flux. */
  lemma So2OfLimitPhrase(w: string)
    requires LowersTo(w, "below detection limit")
    ensures CellFeatures.So2(Some(w)) == Some(0)
  {
    var lw := "below detection limit";
    assert Lower(w) == lw;
    assert lw[0..|lw|] == lw;
    ContainsSlice(lw, lw, 0);
  }

  lemma LowerLimitPhrase() ensures LowersTo("Below detection limit", "below detection limit") { }

  /**
   * The SO2 cell reads back, through the SO2 parser, as zero for no flux
   * and as the written whole number of tonnes otherwise.
   */
  lemma So2RoundTrip(flux: real)
    ensures CellFeatures.So2(Some(ReverseSo2(flux)))
      == Some(if flux <= 0.0 then 0 else AtLeastOne(RoundHalfEven(flux)))
  {
    if flux <= 0.0 {
      LowerLimitPhrase();
      So2OfLimitPhrase("Below detection limit");
    } else {
      var n := AtLeastOne(RoundHalfEven(flux));
      DateNoteFacts();
      assert FormatThousands(n) + " tonnes / day (15 July 2025)" == FormatThousands(n) + " tonnes / day" + " (15 July 2025)";
      CellFeatures.So2OfGrouped(n, " (15 July 2025)");
    }
  }

  /** A whole flux of at least one tonne a day is read back exactly. */
  lemma So2WholeRoundTrip(n: nat)
    requires n >= 1
    ensures CellFeatures.So2(Some(ReverseSo2(n as real))) == Some(n)
  {
    RoundWhole(n);
    So2RoundTrip(n as real);
  }

  // --------------------------------------------------------------- plume

  /** The directions the generator draws the drift from. */
  const Directions: seq<string> := ["northeast", "north", "south", "east", "west", "southeast", "southwest", "northwest"]

  /** The height part: "<h> meters tall" for a positive height, nothing otherwise. */
  function HeightPart(height: nat): seq<string>
  {
    if height > 0 then [NatToString(height) + " meters tall"] else []
  }

  /** The strength part: voluminous from 3, moderate from 2, weak from 1, nothing below. */
  function StrengthPart(strength: int): seq<string>
  {
    if strength >= 3 then ["Voluminous emission"]
    else if strength >= 2 then ["Moderate emission"]
    else if strength >= 1 then ["Weak emission"]
    else []
  }

  /** The parts of the plume cell: height, strength, then the drift when anything came before it. */
  function PlumeParts(height: nat, strength: int, drift: string): seq<string>
  {
    var ps := HeightPart(height) + StrengthPart(strength);
    if ps == [] then [] else ps + [drift + " drift"]
  }

  /** `reverse_plume` on the rounded height and strength and the chosen drift. */
  function PlumeText(height: nat, strength: int, drift: string): (r: string)
    ensures r != "None observed" ==> |r| >= 6 && r[|r| - 6..] == " drift"
  {
    var ps := PlumeParts(height, strength, drift);
    if ps == [] then "None observed"
    else
      JoinSnoc(HeightPart(height) + StrengthPart(strength), drift + " drift", "; ");
      Join(ps, "; ")
  }

  /**
   * `reverse_plume`, appending its parts one after another. The drift the
   * script draws at random is a parameter here.
   */
  method ReversePlume(heightForecast: real, strengthForecast: real, drift: string) returns (r: string)
    ensures r == PlumeText(CountOf(heightForecast), RoundHalfEven(strengthForecast), drift)
  {
    var height := CountOf(heightForecast);
    var strength := RoundHalfEven(strengthForecast);
    var parts: seq<string> := [];
    if height > 0 {
      parts := parts + [NatToString(height) + " meters tall"];
    }
    if strength >= 3 {
      parts := parts + ["Voluminous emission"];
    } else if strength >= 2 {
      parts := parts + ["Moderate emission"];
    } else if strength >= 1 {
      parts := parts + ["Weak emission"];
    }
    assert parts == HeightPart(height) + StrengthPart(strength);
    if |parts| > 0 {
      parts := parts + [drift + " drift"];
    }
    if |parts| == 0 {
      return "None observed";
    }
    r := Join(parts, "; ");
  }

  /** Joining one more piece adds the separator and the piece at the end. */
  lemma {:induction false} JoinSnoc(ps: seq<string>, x: string, sep: string)
    requires |ps| >= 1
    ensures Join(ps + [x], sep) == Join(ps, sep) + sep + x
    decreases |ps|
  {
    if |ps| == 1 {
      assert ps + [x] == [ps[0], x];
      assert Join([x], sep) == x;
    } else {
      assert (ps + [x])[1..] == ps[1..] + [x];
      JoinSnoc(ps[1..], x, sep);
    }
  }

  /** The joined text starts with the first piece. */
  lemma JoinHead(ps: seq<string>, sep: string)
    requires |ps| >= 1 && |ps[0]| >= 1
    ensures |Join(ps, sep)| >= 1 && Join(ps, sep)[0] == ps[0][0]
  {
  }

  /** The plume cell says "None observed" exactly when there is no height and the strength is below one. */
  lemma PlumeNoneIff(height: nat, strength: int, drift: string)
    ensures PlumeText(height, strength, drift) == "None observed" <==> height == 0 && strength < 1
  {
    var ps := PlumeParts(height, strength, drift);
    if ps != [] {
      assert |ps[0]| >= 1 && ps[0][0] != 'N' by {
        if height > 0 {
          assert IsDigit(NatToString(height)[0]);
        }
      }
      JoinHead(ps, "; ");
      assert PlumeText(height, strength, drift)[0] != "None observed"[0];
    }
  }

  /** Whenever the plume cell is not "None observed", it ends with "; <drift> drift". */
  lemma PlumeEndsWithDrift(height: nat, strength: int, drift: string)
    requires height > 0 || strength >= 1
    ensures PlumeText(height, strength, drift)
      == Join(HeightPart(height) + StrengthPart(strength), "; ") + "; " + (drift + " drift")
  {
    JoinSnoc(HeightPart(height) + StrengthPart(strength), drift + " drift", "; ");
  }

  /** With a height, the plume cell is the height, " meters", then the rest of the cell. */
  lemma PlumeTextWithHeight(height: nat, strength: int, drift: string)
    requires height > 0
    ensures PlumeText(height, strength, drift)
      == NatToString(height) + " meters" + (" tall; " + Join(StrengthPart(strength) + [drift + " drift"], "; "))
  {
    var ps := PlumeParts(height, strength, drift);
    assert ps == [NatToString(height) + " meters tall"] + (StrengthPart(strength) + [drift + " drift"]);
    assert ps[1..] == StrengthPart(strength) + [drift + " drift"];
  }

  /** A positive plume height reads back, through the plume-height parser, as itself. */
  lemma PlumeHeightRoundTrip(height: nat, strength: int, drift: string)
    requires height > 0
    ensures CellFeatures.PlumeHeight(Some(PlumeText(height, strength, drift))) == height
  {
    var d := NatToString(height);
    var rest := " tall; " + Join(StrengthPart(strength) + [drift + " drift"], "; ");
    PlumeTextWithHeight(height, strength, drift);
    CellFeatures.MetersTextFacts(d, rest);
    assert forall i :: 0 <= i < |d| ==> d[i] != ',' by {
      assert forall i :: 0 <= i < |d| ==> IsDigit(d[i]);
    }
    assert RemoveChar(d, ',') == d;
    CellFeatures.HeightOfDigits(d, RemoveChar(rest, ','));
    CellFeatures.HeightOfText(d + " meters" + rest, d);
  }

  /** What comes before the strength words: the height part and its separator, when there is a height. */
  function HeightLead(height: nat): string
  {
    if height > 0 then NatToString(height) + " meters tall; " else ""
  }

  /** The height part, joined with one more piece, is the height lead and that piece. */
  lemma LeadJoin(height: nat, w: string)
    ensures Join(HeightPart(height) + [w], "; ") == HeightLead(height) + w
  {
    if height > 0 {
      assert HeightPart(height) + [w] == [NatToString(height) + " meters tall", w];
    } else {
      assert HeightPart(height) + [w] == [w];
    }
  }

  /** With a strength of one or more, the cell is the height lead, the strength words, then the drift. */
  lemma PlumeTextWithStrength(height: nat, strength: int, drift: string)
    requires strength >= 1
    ensures PlumeText(height, strength, drift) == HeightLead(height) + StrengthPart(strength)[0] + ("; " + drift + " drift")
  {
    var w := StrengthPart(strength)[0];
    assert StrengthPart(strength) == [w];
    PlumeEndsWithDrift(height, strength, drift);
    LeadJoin(height, w);
    DriftRegroup(HeightLead(height) + w, drift);
  }

  /** The drift part regrouped, as the plume lemmas state it. */
  lemma DriftRegroup(a: string, drift: string)
    ensures a + "; " + (drift + " drift") == a + ("; " + drift + " drift")
  {
  }

  /** A word kept inside a text is found, lower-cased, in the lower-cased text. */
  lemma LowerKeepsWord(p: string, w: string, lw: string, q: string)
    requires LowersTo(w, lw)
    ensures Contains(Lower(p + w + q), lw)
  {
    LowerAppend(p + w, q);
    LowerAppend(p, w);
    assert Lower(w) == lw;
    var l := Lower(p) + lw + Lower(q);
    assert l[|Lower(p)|..|Lower(p)| + |lw|] == lw;
    ContainsSlice(l, lw, |Lower(p)|);
  }

  /** No letter `c`, in either case: the lower-cased text has no `c`. */
  predicate Lacks(s: string, c: char)
  {
    forall i :: 0 <= i < |s| ==> LowerChar(s[i]) != c
  }

  lemma LacksAppend(a: string, b: string, c: char)
    requires Lacks(a, c) && Lacks(b, c)
    ensures Lacks(a + b, c)
  {
    assert forall i :: |a| <= i < |a + b| ==> (a + b)[i] == b[i - |a|];
  }

  /** A text that lacks one letter of a word cannot hold the word once lower-cased. */
  lemma LacksWord(s: string, w: string, k: nat)
    requires k < |w| && Lacks(s, w[k])
    ensures !Contains(Lower(s), w)
  {
    var l := Lower(s);
    forall i: nat | i + |w| <= |l|
      ensures !OccursAt(l, w, i)
    {
      assert l[i..i + |w|][k] == l[i + k];
    }
  }

  /** Every m, in either case, is followed by a letter other than o. */
  predicate NoMBeforeO(s: string)
  {
    forall i :: 0 <= i < |s| && LowerChar(s[i]) == 'm' ==> i + 1 < |s| && LowerChar(s[i + 1]) != 'o'
  }

  lemma NoMBeforeOAppend(a: string, b: string)
    requires NoMBeforeO(a) && NoMBeforeO(b)
    ensures NoMBeforeO(a + b)
  {
    assert forall i :: 0 <= i < |a| ==> (a + b)[i] == a[i];
    assert forall i :: |a| <= i < |a + b| ==> (a + b)[i] == b[i - |a|];
  }

  /** Without an m before an o, the lower-cased text cannot hold "moderate". */
  lemma NoModerate(s: string)
    requires NoMBeforeO(s)
    ensures !Contains(Lower(s), "moderate")
  {
    var l := Lower(s);
    forall i: nat | i + 8 <= |l|
      ensures !OccursAt(l, "moderate", i)
    {
      assert l[i..i + 8][0] == l[i] && l[i..i + 8][1] == l[i + 1];
    }
  }

  lemma MetersTallLetters()
    ensures Lacks(" meters tall; ", 'v') && Lacks(" meters tall; ", 'k') && NoMBeforeO(" meters tall; ")
  {
  }

  lemma DriftWordLetters()
    ensures Lacks(" drift", 'v') && Lacks(" drift", 'm') && Lacks(" drift", 'k')
  {
  }

  lemma EmissionLetters()
    ensures Lacks("Weak emission", 'v') && NoMBeforeO("Weak emission") && Lacks("Moderate emission", 'v')
    ensures Lacks("; ", 'v') && NoMBeforeO("; ")
  {
  }

  lemma NoneObservedLetters()
    ensures Lacks("None observed", 'l') && Lacks("None observed", 'k') && NoMBeforeO("None observed")
  {
  }

  /** The generator's directions have no v, m or k. */
  lemma DirectionLetters(drift: string)
    requires drift in Directions
    ensures Lacks(drift, 'v') && Lacks(drift, 'm') && Lacks(drift, 'k')
  {
  }

  /** The digits of a number have no letter. */
  lemma DigitsLack(d: string, c: char)
    requires AllDigits(d) && !IsDigit(c)
    ensures Lacks(d, c)
  {
    forall i | 0 <= i < |d|
      ensures LowerChar(d[i]) != c
    {
      assert IsDigit(d[i]);
    }
  }

  /** What comes before the strength words has no v or k, and no m before an o. */
  lemma HeightLeadLetters(height: nat)
    ensures Lacks(HeightLead(height), 'v') && Lacks(HeightLead(height), 'k') && NoMBeforeO(HeightLead(height))
  {
    if height > 0 {
      var d := NatToString(height);
      DigitsLack(d, 'v');
      DigitsLack(d, 'k');
      DigitsLack(d, 'm');
      MetersTallLetters();
      LacksAppend(d, " meters tall; ", 'v');
      LacksAppend(d, " meters tall; ", 'k');
      NoMBeforeOAppend(d, " meters tall; ");
    }
  }

  /** The drift part, for one of the generator's directions, has no v, m or k. */
  lemma DriftPartLetters(drift: string)
    requires drift in Directions
    ensures Lacks(drift + " drift", 'v') && Lacks(drift + " drift", 'm') && Lacks(drift + " drift", 'k')
  {
    DirectionLetters(drift);
    DriftWordLetters();
    LacksAppend(drift, " drift", 'v');
    LacksAppend(drift, " drift", 'm');
    LacksAppend(drift, " drift", 'k');
  }

  lemma LowerVoluminous() ensures LowersTo("Voluminous", "voluminous") { }
  lemma LowerModerate() ensures LowersTo("Moderate", "moderate") { }

  /** A strength word and what follows it, inside the cell, is found lower-cased in the lower-cased cell. */
  lemma StrengthWordKept(lead: string, w: string, lw: string, more: string, tail: string)
    requires LowersTo(w, lw)
    ensures Contains(Lower(lead + (w + more) + tail), lw)
  {
    LowerKeepsWord(lead, w, lw, more + tail);
    assert lead + (w + more) + tail == lead + w + (more + tail);
  }

  /** The voluminous cell holds "voluminous" once lower-cased. */
  lemma VoluminousCellWords(height: nat, drift: string)
    ensures Contains(Lower(HeightLead(height) + "Voluminous emission" + ("; " + drift + " drift")), "voluminous")
  {
    LowerVoluminous();
    assert "Voluminous emission" == "Voluminous" + " emission";
    StrengthWordKept(HeightLead(height), "Voluminous", "voluminous", " emission", "; " + drift + " drift");
  }

  /** A voluminous plume is read back as strength 3. */
  lemma VoluminousRoundTrip(height: nat, strength: int, drift: string)
    requires strength >= 3
    ensures CellFeatures.PlumeStrength(Some(PlumeText(height, strength, drift))) == 3
  {
    PlumeTextWithStrength(height, strength, drift);
    VoluminousCellWords(height, drift);
    StrengthThreeOf(HeightLead(height) + "Voluminous emission" + ("; " + drift + " drift"));
  }

  /** A text with "voluminous", once lower-cased, is read as strength 3. */
  lemma StrengthThreeOf(t: string)
    requires Contains(Lower(t), "voluminous")
    ensures CellFeatures.PlumeStrength(Some(t)) == 3
  {
    assert CellFeatures.Str(Some(t)) == t;
  }

  /** The moderate cell, with one of the generator's drifts, holds "moderate" and not "voluminous" once lower-cased. */
  lemma ModerateCellWords(height: nat, drift: string)
    requires drift in Directions
    ensures var text := HeightLead(height) + "Moderate emission" + ("; " + drift + " drift");
      Contains(Lower(text), "moderate") && !Contains(Lower(text), "voluminous")
  {
    var text := HeightLead(height) + "Moderate emission" + ("; " + drift + " drift");
    LowerModerate();
    assert "Moderate emission" == "Moderate" + " emission";
    StrengthWordKept(HeightLead(height), "Moderate", "moderate", " emission", "; " + drift + " drift");
    EmissionLetters();
    StrengthCellLacksV(height, "Moderate emission", drift);
    LacksWord(text, "voluminous", 0);
  }

  /** A strength cell with words without a v, and one of the generator's drifts, has no v. */
  lemma StrengthCellLacksV(height: nat, words: string, drift: string)
    requires Lacks(words, 'v') && drift in Directions
    ensures Lacks(HeightLead(height) + words + ("; " + drift + " drift"), 'v')
  {
    var tail := "; " + drift + " drift";
    HeightLeadLetters(height);
    DriftPartLetters(drift);
    EmissionLetters();
    assert tail == "; " + (drift + " drift");
    LacksAppend("; ", drift + " drift", 'v');
    LacksAppend(HeightLead(height), words, 'v');
    LacksAppend(HeightLead(height) + words, tail, 'v');
  }

  /** A strength cell with words without an m before an o, and one of the generator's drifts, has none either. */
  lemma StrengthCellNoMBeforeO(height: nat, words: string, drift: string)
    requires NoMBeforeO(words) && drift in Directions
    ensures NoMBeforeO(HeightLead(height) + words + ("; " + drift + " drift"))
  {
    var tail := "; " + drift + " drift";
    HeightLeadLetters(height);
    DriftPartLetters(drift);
    EmissionLetters();
    assert tail == "; " + (drift + " drift");
    NoMBeforeOAppend("; ", drift + " drift");
    NoMBeforeOAppend(HeightLead(height), words);
    NoMBeforeOAppend(HeightLead(height) + words, tail);
  }

  /** A moderate plume, with the drift one of the generator's directions, is read back as strength 2. */
  lemma ModerateRoundTrip(height: nat, strength: int, drift: string)
    requires strength == 2 && drift in Directions
    ensures CellFeatures.PlumeStrength(Some(PlumeText(height, strength, drift))) == 2
  {
    PlumeTextWithStrength(height, strength, drift);
    ModerateCellWords(height, drift);
    StrengthTwoOf(HeightLead(height) + "Moderate emission" + ("; " + drift + " drift"));
  }

  /** A text with "moderate" and without "voluminous", once lower-cased, is read as strength 2. */
  lemma StrengthTwoOf(t: string)
    requires Contains(Lower(t), "moderate") && !Contains(Lower(t), "voluminous")
    ensures CellFeatures.PlumeStrength(Some(t)) == 2
  {
    assert CellFeatures.Str(Some(t)) == t;
  }

  lemma LowerWeak() ensures LowersTo("Weak", "weak") { }

  /** The weak cell, with one of the generator's drifts, holds "weak" but neither "moderate" nor "voluminous". */
  lemma WeakCellWords(height: nat, drift: string)
    requires drift in Directions
    ensures var text := HeightLead(height) + "Weak emission" + ("; " + drift + " drift");
      Contains(Lower(text), "weak") && !Contains(Lower(text), "moderate") && !Contains(Lower(text), "voluminous")
  {
    var text := HeightLead(height) + "Weak emission" + ("; " + drift + " drift");
    LowerWeak();
    assert "Weak emission" == "Weak" + " emission";
    StrengthWordKept(HeightLead(height), "Weak", "weak", " emission", "; " + drift + " drift");
    EmissionLetters();
    StrengthCellLacksV(height, "Weak emission", drift);
    LacksWord(text, "voluminous", 0);
    StrengthCellNoMBeforeO(height, "Weak emission", drift);
    NoModerate(text);
  }

  /** A weak plume, with the drift one of the generator's directions, is read back as strength 1. */
  lemma WeakRoundTrip(height: nat, strength: int, drift: string)
    requires strength == 1 && drift in Directions
    ensures CellFeatures.PlumeStrength(Some(PlumeText(height, strength, drift))) == 1
  {
    PlumeTextWithStrength(height, strength, drift);
    WeakCellWords(height, drift);
    assert CellFeatures.Str(Some(HeightLead(height) + "Weak emission" + ("; " + drift + " drift")))
        == HeightLead(height) + "Weak emission" + ("; " + drift + " drift");
  }

  /** Below strength 1 with a height, the cell is the height lead and the drift. */
  lemma PlumeTextWithoutStrength(height: nat, strength: int, drift: string)
    requires height > 0 && strength < 1
    ensures PlumeText(height, strength, drift) == HeightLead(height) + (drift + " drift")
  {
    PlumeEndsWithDrift(height, strength, drift);
    assert HeightPart(height) + StrengthPart(strength) == [NatToString(height) + " meters tall"];
  }

  /** Two parts without v or k, the second also without m, join to a text without k, m before o or "voluminous". */
  lemma JoinedLetters(a: string, b: string)
    requires Lacks(a, 'v') && Lacks(a, 'k') && NoMBeforeO(a)
    requires Lacks(b, 'v') && Lacks(b, 'm') && Lacks(b, 'k')
    ensures Lacks(a + b, 'k') && NoMBeforeO(a + b) && !Contains(Lower(a + b), "voluminous")
  {
    LacksAppend(a, b, 'v');
    LacksAppend(a, b, 'k');
    NoMBeforeOAppend(a, b);
    LacksWord(a + b, "voluminous", 0);
  }

  /** A cell without strength words has no k, no m before an o, and no "voluminous". */
  lemma NoStrengthCellLetters(height: nat, strength: int, drift: string)
    requires strength < 1 && drift in Directions
    ensures var text := PlumeText(height, strength, drift);
      Lacks(text, 'k') && NoMBeforeO(text) && !Contains(Lower(text), "voluminous")
  {
    var text := PlumeText(height, strength, drift);
    if height > 0 {
      PlumeTextWithoutStrength(height, strength, drift);
      HeightLeadLetters(height);
      DriftPartLetters(drift);
      JoinedLetters(HeightLead(height), drift + " drift");
    } else {
      PlumeNoneIff(height, strength, drift);
      NoneObservedLetters();
      LacksWord("None observed", "voluminous", 2);
    }
  }

  /** Below strength 1, with the drift one of the generator's directions, the cell is read back as strength 0. */
  lemma NoStrengthRoundTrip(height: nat, strength: int, drift: string)
    requires strength < 1 && drift in Directions
    ensures CellFeatures.PlumeStrength(Some(PlumeText(height, strength, drift))) == 0
  {
    var text := PlumeText(height, strength, drift);
    NoStrengthCellLetters(height, strength, drift);
    LacksWord(text, "weak", 3);
    NoModerate(text);
    assert CellFeatures.Str(Some(text)) == text;
  }

  // ---------------------------------------------------- ground deformation

  const CalderaPlace := " of the Taal Caldera"
  const FlankPlace := " of the southeastern flank of the Taal Volcano Island"

  /**
   * `reverse_ground_deformation`: deflation of the caldera and inflation of
   * the flank from alert level 1, the reverse below it.
   */
  function ReverseGroundDeformation(alert: real): (r: string)
    ensures |r| > 19 && (r[..19] == "Long-term deflation" <==> alert >= 1.0)
    ensures r[..19] == "Long-term deflation" || r[..19] == "Long-term inflation"
  {
    if alert >= 1.0 then
      var r := "Long-term deflation" + CalderaPlace + "; " + ("short-term inflation" + FlankPlace);
      assert r[..19] == "Long-term deflation";
      r
    else
      var r := "Long-term inflation" + CalderaPlace + "; " + ("short-term deflation" + FlankPlace);
      assert r[..19] == "Long-term inflation" != "Long-term deflation";
      r
  }

  lemma LowerCalderaPlace() ensures LowersTo(CalderaPlace, " of the taal caldera") { }
  lemma LowerLongDeflation() ensures LowersTo("Long-term deflation", "long-term deflation") { }
  lemma LowerLongInflation() ensures LowersTo("Long-term inflation", "long-term inflation") { }
  lemma LowerShortInflation() ensures LowersTo("short-term inflation", "short-term inflation") { }
  lemma LowerShortDeflation() ensures LowersTo("short-term deflation", "short-term deflation") { }

  /** A text holding both phrases, lower-cased, contains each of them. */
  lemma BothPhrasesKept(a: string, la: string, sep: string, b: string, lb: string, tail: string)
    requires LowersTo(a, la) && LowersTo(b, lb)
    ensures Contains(Lower(a + sep + (b + tail)), la) && Contains(Lower(a + sep + (b + tail)), lb)
  {
    LowerKeepsWord("", a, la, sep + (b + tail));
    LowerKeepsWord(a + sep, b, lb, tail);
    TwoPhrasesGrouped(a, sep, b, tail);
  }

  /** The text of two phrases, grouped around the first and around the second. */
  lemma TwoPhrasesGrouped(a: string, sep: string, b: string, tail: string)
    ensures "" + a + (sep + (b + tail)) == a + sep + (b + tail)
    ensures a + sep + b + tail == a + sep + (b + tail)
  {
  }

  /** The caldera phrase of the deflation sentence, lower-cased. */
  lemma DeflatedCaldera()
    ensures LowersTo("Long-term deflation" + CalderaPlace, "long-term deflation of the taal caldera")
  {
    LowerLongDeflation();
    LowerCalderaPlace();
    LowersToAppend("Long-term deflation", "long-term deflation", CalderaPlace, " of the taal caldera");
    assert "long-term deflation" + " of the taal caldera" == "long-term deflation of the taal caldera";
  }

  /** The caldera phrase of the inflation sentence, lower-cased. */
  lemma InflatedCaldera()
    ensures LowersTo("Long-term inflation" + CalderaPlace, "long-term inflation of the taal caldera")
  {
    LowerLongInflation();
    LowerCalderaPlace();
    LowersToAppend("Long-term inflation", "long-term inflation", CalderaPlace, " of the taal caldera");
    assert "long-term inflation" + " of the taal caldera" == "long-term inflation of the taal caldera";
  }

  /** A lower-cased text holding a long phrase holds its leading words. */
  lemma LeadingWordsKept(t: string, phrase: string, lead: nat)
    requires Contains(t, phrase) && lead <= |phrase|
    ensures Contains(t, phrase[..lead])
  {
    assert phrase[..lead][0..lead] == phrase[..lead];
    ContainsSlice(phrase, phrase[..lead], 0);
    ContainsTrans(t, phrase, phrase[..lead]);
  }

  /** What the deformation parser reads from a text with caldera deflation and flank inflation. */
  lemma DeflationFlags(t: string)
    requires Contains(Lower(t), "long-term deflation of the taal caldera")
    requires Contains(Lower(t), "short-term inflation")
    ensures var g := CellFeatures.GroundDeformation(t);
      g.calderaTrend == -1 && g.ltDeflation == 1 && g.stInflation == 1
  {
    var p := "long-term deflation of the taal caldera";
    LeadingWordsKept(Lower(t), p, 19);
    assert p[..19] == "long-term deflation";
    assert p[32..39] == "caldera";
    ContainsSlice(p, "caldera", 32);
    ContainsTrans(Lower(t), p, "caldera");
  }

  /** What the deformation parser reads from a text with caldera inflation and flank deflation. */
  lemma InflationFlags(t: string)
    requires Contains(Lower(t), "long-term inflation of the taal caldera")
    requires Contains(Lower(t), "short-term deflation")
    ensures var g := CellFeatures.GroundDeformation(t);
      g.ltInflation == 1 && g.stDeflation == 1
  {
    var p := "long-term inflation of the taal caldera";
    LeadingWordsKept(Lower(t), p, 19);
    assert p[..19] == "long-term inflation";
  }

  /**
   * The deformation cell reads back, through the deformation parser, as
   * long-term deflation of the caldera with short-term flank inflation from
   * alert level 1, and as long-term inflation with short-term flank
   * deflation below it.
   */
  lemma DeformationRoundTrip(alert: real)
    ensures var g := CellFeatures.GroundDeformation(ReverseGroundDeformation(alert));
      (alert >= 1.0 ==> g.calderaTrend == -1 && g.ltDeflation == 1 && g.stInflation == 1)
      && (alert < 1.0 ==> g.ltInflation == 1 && g.stDeflation == 1)
  {
    if alert >= 1.0 {
      DeflatedCaldera();
      LowerShortInflation();
      BothPhrasesKept("Long-term deflation" + CalderaPlace, "long-term deflation of the taal caldera", "; ",
                      "short-term inflation", "short-term inflation", FlankPlace);
      DeflationFlags(ReverseGroundDeformation(alert));
    } else {
      InflatedCaldera();
      LowerShortDeflation();
      BothPhrasesKept("Long-term inflation" + CalderaPlace, "long-term inflation of the taal caldera", "; ",
                      "short-term deflation", "short-term deflation", FlankPlace);
      InflationFlags(ReverseGroundDeformation(alert));
    }
  }

  // --------------------------------------------------------- alert level

  /** `np.clip(round(alert), 1, 5)`: the enhanced generator's alert level. */
  function ClipAlert(alert: real): (level: int)
    ensures 1 <= level <= 5
    ensures 1 <= RoundHalfEven(alert) <= 5 ==> level == RoundHalfEven(alert)
    ensures RoundHalfEven(alert) < 1 ==> level == 1
    ensures RoundHalfEven(alert) > 5 ==> level == 5
  {
    var r := RoundHalfEven(alert);
    if r < 1 then 1 else if r > 5 then 5 else r
  }
}

