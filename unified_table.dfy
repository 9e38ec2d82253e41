/**
 * The unified parser of a bulletin's iframe page (webscraper.py): the
 * table after the PARAMETERS heading, the alert table of the page's first
 * row and, as a fallback, every table of the page are read row by row and
 * merged into eight fields that all start at "0"; then the CSV row written
 * for each bulletin.
 *
 * The page is abstracted to what the parser reads from it: for each table
 * its text and its rows, for each cell the stripped texts of the elements
 * the parser looks up in it.
 */
module UnifiedTable {
  import opened Wrappers
  import opened Text
  import opened Numbers
  import opened Scan

  /** A `txt-no-eq` paragraph: its stripped text, and that of its `txt-vq` span when it has one. */
  datatype Paragraph = Paragraph(text: string, span: Option<string>)

  /**
   * A table cell: the stripped text of its first `<b>`, its own stripped
   * text, that of its `bold txtleft newfont` paragraph and its `txt-no-eq`
   * paragraph, each when present.
   */
  datatype Cell = Cell(bold: Option<string>, text: string, data: Option<string>, count: Option<Paragraph>)

  /** A table row: its `td`/`th` cells in order. */
  datatype Row = Row(cells: seq<Cell>)

  /** A table: its whole text and its rows. */
  datatype Table = Table(text: string, rows: seq<Row>)

  /**
   * What the parser finds on a page: the table after the PARAMETERS
   * heading, the table in the second column of the first row, and all the
   * tables of the page in document order.
   */
  datatype Page = Page(parameters: Option<Table>, rowOne: Option<Table>, tables: seq<Table>)

  datatype Key =
    | AlertLevel | Eruption | Seismicity | Acidity | Temperature
    | SulfurDioxideFlux | Plume | GroundDeformation

  /** The eight keys, in the order of the result and of the CSV columns. */
  const Keys: seq<Key> :=
    [AlertLevel, Eruption, Seismicity, Acidity, Temperature, SulfurDioxideFlux, Plume, GroundDeformation]

  /** The fields read so far, by key. */
  type Fields = map<Key, string>

  /** The key lower-cased with its underscores as spaces: what the fallback looks for in a table's text. */
  function SearchName(k: Key): string
  {
    match k
    case AlertLevel => "alert level"
    case Eruption => "eruption"
    case Seismicity => "seismicity"
    case Acidity => "acidity"
    case Temperature => "temperature"
    case SulfurDioxideFlux => "sulfur dioxide flux"
    case Plume => "plume"
    case GroundDeformation => "ground deformation"
  }

  /** The parameter names looked for in a first cell without a bold element, in this order. */
  const ParameterNames: seq<string> :=
    ["Alert Level", "Eruption", "Seismicity", "Acidity", "Temperature",
     "Sulfur Dioxide Flux", "Plume", "Ground Deformation"]

  /** The index of the first of `names` whose lower-cased form occurs in `lt`. */
  function FirstNameIn(names: seq<string>, lt: string): (r: Option<nat>)
    ensures r.Some? ==> r.value < |names| && Contains(lt, Lower(names[r.value]))
    ensures r.Some? ==> forall j :: 0 <= j < r.value ==> !Contains(lt, Lower(names[j]))
    ensures r.None? ==> forall j :: 0 <= j < |names| ==> !Contains(lt, Lower(names[j]))
  {
    if names == [] then None
    else if Contains(lt, Lower(names[0])) then Some(0)
    else match FirstNameIn(names[1..], lt)
      case Some(j) => Some(j + 1)
      case None => None
  }

  /**
   * The parameter a first cell names: the text of its bold element, or else
   * the first known parameter name its text contains, ignoring case.
   */
  function ParameterName(c: Cell): (r: Option<string>)
    ensures c.bold.Some? ==> r == c.bold
    ensures c.bold.None? && r.Some? ==>
              exists j :: 0 <= j < |ParameterNames| && r.value == ParameterNames[j]
                          && Contains(Lower(c.text), Lower(ParameterNames[j]))
                          && forall i :: 0 <= i < j ==> !Contains(Lower(c.text), Lower(ParameterNames[i]))
    ensures c.bold.None? && r.None? ==>
              forall j :: 0 <= j < |ParameterNames| ==> !Contains(Lower(c.text), Lower(ParameterNames[j]))
  {
    if c.bold.Some? then c.bold
    else match FirstNameIn(ParameterNames, Lower(c.text))
      case Some(j) => Some(ParameterNames[j])
      case None => None
  }

  /** A second cell's value: its data paragraph, else its count paragraph, else its whole text. */
  function CellData(c: Cell): string
  {
    if c.data.Some? then c.data.value
    else if c.count.Some? then c.count.value.text
    else c.text
  }

  /** The index of the first digit in `s` at or after `from` (where `re.search(r'(\d+)', s)` starts). */
  function FirstDigitAt(s: string, from: nat): (r: Option<nat>)
    decreases |s| - from
    ensures r.Some? ==> from <= r.value < |s| && IsDigit(s[r.value])
    ensures r.Some? ==> forall j :: from <= j < r.value ==> !IsDigit(s[j])
    ensures r.None? ==> forall j :: from <= j < |s| ==> !IsDigit(s[j])
  {
    if from >= |s| then None
    else if IsDigit(s[from]) then Some(from)
    else FirstDigitAt(s, from + 1)
  }

  /** The first run of digits in `s`, if it has one. */
  function FirstDigits(s: string): (r: Option<string>)
    ensures r.Some? ==> |r.value| > 0 && AllDigits(r.value)
    ensures r.Some? ==> exists i :: FirstDigitAt(s, 0) == Some(i) && r.value == s[i..SkipDigits(s, i)]
    ensures r.None? <==> NoDigits(s)
  {
    match FirstDigitAt(s, 0)
    case Some(i) => Some(s[i..SkipDigits(s, i)])
    case None => None
  }

  /**
   * The key a lower-cased parameter name maps to, the keywords tried in a
   * fixed order, and the value stored under it: for the alert level the
   * first run of digits of the value when there is one, otherwise the value
   * itself.
   */
  function KeyOfLowerName(n: string, value: string): (r: Option<(Key, string)>)
    ensures r.Some? && r.value.0 != AlertLevel ==> r.value.1 == value
    ensures r.Some? && r.value.0 == AlertLevel && !NoDigits(value) ==>
              exists i :: FirstDigitAt(value, 0) == Some(i) && r.value.1 == value[i..SkipDigits(value, i)]
    ensures r.Some? && r.value.0 == AlertLevel && NoDigits(value) ==> r.value.1 == value
  {
    if Contains(n, "alert") && Contains(n, "level") then
      Some((AlertLevel, FirstDigits(value).GetOr(value)))
    else if Contains(n, "eruption") then Some((Eruption, value))
    else if Contains(n, "seismic") then Some((Seismicity, value))
    else if Contains(n, "acid") then Some((Acidity, value))
    else if Contains(n, "temperature") then Some((Temperature, value))
    else if Contains(n, "sulfur") || Contains(n, "dioxide") then Some((SulfurDioxideFlux, value))
    else if Contains(n, "plume") then Some((Plume, value))
    else if Contains(n, "ground") && Contains(n, "deformation") then Some((GroundDeformation, value))
    else None
  }

  /** The key a parameter name maps to, compared without regard to case. */
  function KeyOf(name: string, value: string): (r: Option<(Key, string)>)
    ensures r.Some? && r.value.0 != AlertLevel ==> r.value.1 == value
    ensures r.Some? && r.value.0 == AlertLevel && !NoDigits(value) ==>
              exists i :: FirstDigitAt(value, 0) == Some(i) && r.value.1 == value[i..SkipDigits(value, i)]
    ensures r.Some? && r.value.0 == AlertLevel && NoDigits(value) ==> r.value.1 == value
  {
    KeyOfLowerName(Lower(name), value)
  }

  /** `a` occurs in a string of the form `p + a + q`. */
  lemma ContainsMiddle(s: string, p: string, a: string, q: string)
    requires s == p + a + q
    ensures Contains(s, a)
  {
    assert OccursAt(s, a, |p|);
  }

  /** A keyword with a letter that `s` lacks does not occur in `s`. */
  lemma LacksLetter(s: string, w: string, c: char)
    requires c in w && c !in s
    ensures !Contains(s, w)
  {
    var j :| 0 <= j < |w| && w[j] == c;
    forall i: nat | i + |w| <= |s|
      ensures !OccursAt(s, w, i)
    {
      assert s[i..i + |w|][j] == s[i + j];
    }
  }

  /** A name that lower-cases to `ln` is keyed as `ln` itself. */
  lemma KeyOfLowered(name: string, ln: string, value: string)
    requires LowersTo(name, ln)
    ensures Lower(name) == ln
    ensures KeyOf(name, value) == (
      if Contains(ln, "alert") && Contains(ln, "level") then Some((AlertLevel, FirstDigits(value).GetOr(value)))
      else if Contains(ln, "eruption") then Some((Eruption, value))
      else if Contains(ln, "seismic") then Some((Seismicity, value))
      else if Contains(ln, "acid") then Some((Acidity, value))
      else if Contains(ln, "temperature") then Some((Temperature, value))
      else if Contains(ln, "sulfur") || Contains(ln, "dioxide") then Some((SulfurDioxideFlux, value))
      else if Contains(ln, "plume") then Some((Plume, value))
      else if Contains(ln, "ground") && Contains(ln, "deformation") then Some((GroundDeformation, value))
      else None)
  {
    assert Lower(name) == ln;
  }

  lemma AlertLevelLower() ensures LowersTo(ParameterNames[0], "alert level") {}
  lemma EruptionLower() ensures LowersTo(ParameterNames[1], "eruption") {}
  lemma SeismicityLower() ensures LowersTo(ParameterNames[2], "seismicity") {}
  lemma AcidityLower() ensures LowersTo(ParameterNames[3], "acidity") {}
  lemma TemperatureLower() ensures LowersTo(ParameterNames[4], "temperature") {}
  lemma SulfurLower() ensures LowersTo(ParameterNames[5], "sulfur dioxide flux") {}
  lemma PlumeLower() ensures LowersTo(ParameterNames[6], "plume") {}
  lemma GroundLower() ensures LowersTo(ParameterNames[7], "ground deformation") {}

  /** Which keyword of the chain a name holds first decides its key. */
  lemma KeyedAlert(n: string, value: string)
    requires Contains(n, "alert") && Contains(n, "level")
    ensures KeyOfLowerName(n, value).Some? && KeyOfLowerName(n, value).value.0 == AlertLevel
  {
  }

  lemma KeyedEruption(n: string, value: string)
    requires !Contains(n, "alert") && Contains(n, "eruption")
    ensures KeyOfLowerName(n, value) == Some((Eruption, value))
  {
  }

  lemma KeyedSeismic(n: string, value: string)
    requires !Contains(n, "alert") && !Contains(n, "eruption") && Contains(n, "seismic")
    ensures KeyOfLowerName(n, value) == Some((Seismicity, value))
  {
  }

  lemma KeyedAcid(n: string, value: string)
    requires !Contains(n, "alert") && !Contains(n, "eruption") && !Contains(n, "seismic") && Contains(n, "acid")
    ensures KeyOfLowerName(n, value) == Some((Acidity, value))
  {
  }

  lemma KeyedTemperature(n: string, value: string)
    requires !Contains(n, "alert") && !Contains(n, "eruption") && !Contains(n, "seismic") && !Contains(n, "acid")
    requires Contains(n, "temperature")
    ensures KeyOfLowerName(n, value) == Some((Temperature, value))
  {
  }

  lemma KeyedSulfur(n: string, value: string)
    requires !Contains(n, "alert") && !Contains(n, "eruption") && !Contains(n, "seismic") && !Contains(n, "acid")
    requires !Contains(n, "temperature") && Contains(n, "sulfur")
    ensures KeyOfLowerName(n, value) == Some((SulfurDioxideFlux, value))
  {
  }

  lemma KeyedPlume(n: string, value: string)
    requires !Contains(n, "alert") && !Contains(n, "eruption") && !Contains(n, "seismic") && !Contains(n, "acid")
    requires !Contains(n, "temperature") && !Contains(n, "sulfur") && !Contains(n, "dioxide") && Contains(n, "plume")
    ensures KeyOfLowerName(n, value) == Some((Plume, value))
  {
  }

  lemma KeyedGround(n: string, value: string)
    requires !Contains(n, "alert") && !Contains(n, "eruption") && !Contains(n, "seismic") && !Contains(n, "acid")
    requires !Contains(n, "temperature") && !Contains(n, "sulfur") && !Contains(n, "dioxide") && !Contains(n, "plume")
    requires Contains(n, "ground") && Contains(n, "deformation")
    ensures KeyOfLowerName(n, value) == Some((GroundDeformation, value))
  {
  }

  lemma AlertLevelWords(n: string)
    requires n == "alert level"
    ensures Contains(n, "alert") && Contains(n, "level")
  {
    ContainsMiddle(n, "", "alert", " level");
    ContainsMiddle(n, "alert ", "level", "");
  }

  lemma AlertLevelKeyed(name: string, value: string)
    requires LowersTo(name, "alert level")
    ensures KeyOf(name, value).Some? && KeyOf(name, value).value.0 == AlertLevel
  {
    assert Lower(name) == "alert level";
    AlertLevelWords(Lower(name));
    KeyedAlert(Lower(name), value);
  }

  lemma EruptionWords(n: string)
    requires n == "eruption"
    ensures !Contains(n, "alert") && Contains(n, "eruption")
  {
    LacksLetter(n, "alert", 'a');
    ContainsMiddle(n, "", "eruption", "");
  }

  lemma EruptionKeyed(name: string, value: string)
    requires LowersTo(name, "eruption")
    ensures KeyOf(name, value) == Some((Eruption, value))
  {
    assert Lower(name) == "eruption";
    EruptionWords(Lower(name));
    KeyedEruption(Lower(name), value);
  }

  lemma SeismicityWords(n: string)
    requires n == "seismicity"
    ensures !Contains(n, "alert") && !Contains(n, "eruption") && Contains(n, "seismic")
  {
    LacksLetter(n, "alert", 'a');
    LacksLetter(n, "eruption", 'r');
    ContainsMiddle(n, "", "seismic", "ity");
  }

  lemma SeismicityKeyed(name: string, value: string)
    requires LowersTo(name, "seismicity")
    ensures KeyOf(name, value) == Some((Seismicity, value))
  {
    assert Lower(name) == "seismicity";
    SeismicityWords(Lower(name));
    KeyedSeismic(Lower(name), value);
  }

  lemma AcidityWords(n: string)
    requires n == "acidity"
    ensures !Contains(n, "alert") && !Contains(n, "eruption") && !Contains(n, "seismic") && Contains(n, "acid")
  {
    LacksLetter(n, "alert", 'l');
    LacksLetter(n, "eruption", 'r');
    LacksLetter(n, "seismic", 's');
    ContainsMiddle(n, "", "acid", "ity");
  }

  lemma AcidityKeyed(name: string, value: string)
    requires LowersTo(name, "acidity")
    ensures KeyOf(name, value) == Some((Acidity, value))
  {
    assert Lower(name) == "acidity";
    AcidityWords(Lower(name));
    KeyedAcid(Lower(name), value);
  }

  lemma TemperatureWords(n: string)
    requires n == "temperature"
    ensures !Contains(n, "alert") && !Contains(n, "eruption") && !Contains(n, "seismic") && !Contains(n, "acid") && Contains(n, "temperature")
  {
    LacksLetter(n, "alert", 'l');
    LacksLetter(n, "eruption", 'o');
    LacksLetter(n, "seismic", 's');
    LacksLetter(n, "acid", 'c');
    ContainsMiddle(n, "", "temperature", "");
  }

  lemma TemperatureKeyed(name: string, value: string)
    requires LowersTo(name, "temperature")
    ensures KeyOf(name, value) == Some((Temperature, value))
  {
    assert Lower(name) == "temperature";
    TemperatureWords(Lower(name));
    KeyedTemperature(Lower(name), value);
  }

  lemma SulfurLacksAlert(n: string)
    requires n == "sulfur dioxide flux"
    ensures !Contains(n, "alert") && !Contains(n, "eruption")
  {
    LacksLetter(n, "alert", 'a');
    LacksLetter(n, "eruption", 'p');
  }

  lemma SulfurLacks(n: string)
    requires n == "sulfur dioxide flux"
    ensures !Contains(n, "alert") && !Contains(n, "eruption") && !Contains(n, "seismic") && !Contains(n, "acid")
    ensures !Contains(n, "temperature")
  {
    SulfurLacksAlert(n);
    LacksLetter(n, "seismic", 'm');
    LacksLetter(n, "acid", 'a');
    LacksLetter(n, "temperature", 't');
  }

  lemma SulfurWords(n: string)
    requires n == "sulfur dioxide flux"
    ensures !Contains(n, "alert") && !Contains(n, "eruption") && !Contains(n, "seismic") && !Contains(n, "acid") && !Contains(n, "temperature") && Contains(n, "sulfur")
  {
    SulfurLacks(n);
    ContainsMiddle(n, "", "sulfur", " dioxide flux");
  }

  lemma SulfurKeyed(name: string, value: string)
    requires LowersTo(name, "sulfur dioxide flux")
    ensures KeyOf(name, value) == Some((SulfurDioxideFlux, value))
  {
    assert Lower(name) == "sulfur dioxide flux";
    SulfurWords(Lower(name));
    KeyedSulfur(Lower(name), value);
  }

  lemma PlumeWords(n: string)
    requires n == "plume"
    ensures !Contains(n, "alert") && !Contains(n, "eruption") && !Contains(n, "seismic") && !Contains(n, "acid") && !Contains(n, "temperature") && !Contains(n, "sulfur") && !Contains(n, "dioxide") && Contains(n, "plume")
  {
    LacksLetter(n, "alert", 'a');
    LacksLetter(n, "eruption", 'r');
    LacksLetter(n, "seismic", 's');
    LacksLetter(n, "acid", 'a');
    LacksLetter(n, "temperature", 't');
    LacksLetter(n, "sulfur", 's');
    LacksLetter(n, "dioxide", 'd');
    ContainsMiddle(n, "", "plume", "");
  }

  lemma PlumeKeyed(name: string, value: string)
    requires LowersTo(name, "plume")
    ensures KeyOf(name, value) == Some((Plume, value))
  {
    assert Lower(name) == "plume";
    PlumeWords(Lower(name));
    KeyedPlume(Lower(name), value);
  }

  lemma GroundLacksAlert(n: string)
    requires n == "ground deformation"
    ensures !Contains(n, "alert") && !Contains(n, "eruption")
  {
    LacksLetter(n, "alert", 'l');
    LacksLetter(n, "eruption", 'p');
  }

  lemma GroundLacksFirst(n: string)
    requires n == "ground deformation"
    ensures !Contains(n, "alert") && !Contains(n, "eruption") && !Contains(n, "seismic") && !Contains(n, "acid")
  {
    GroundLacksAlert(n);
    LacksLetter(n, "seismic", 's');
    LacksLetter(n, "acid", 'c');
  }

  lemma GroundLacks(n: string)
    requires n == "ground deformation"
    ensures !Contains(n, "alert") && !Contains(n, "eruption") && !Contains(n, "seismic") && !Contains(n, "acid")
    ensures !Contains(n, "temperature") && !Contains(n, "sulfur") && !Contains(n, "dioxide") && !Contains(n, "plume")
  {
    GroundLacksFirst(n);
    LacksLetter(n, "temperature", 'p');
    LacksLetter(n, "sulfur", 's');
    LacksLetter(n, "dioxide", 'x');
    LacksLetter(n, "plume", 'p');
  }

  lemma GroundWords(n: string)
    requires n == "ground deformation"
    ensures !Contains(n, "alert") && !Contains(n, "eruption") && !Contains(n, "seismic") && !Contains(n, "acid") && !Contains(n, "temperature") && !Contains(n, "sulfur") && !Contains(n, "dioxide") && !Contains(n, "plume") && Contains(n, "ground") && Contains(n, "deformation")
  {
    GroundLacks(n);
    ContainsMiddle(n, "", "ground", " deformation");
    ContainsMiddle(n, "ground ", "deformation", "");
  }

  lemma GroundKeyed(name: string, value: string)
    requires LowersTo(name, "ground deformation")
    ensures KeyOf(name, value) == Some((GroundDeformation, value))
  {
    assert Lower(name) == "ground deformation";
    GroundWords(Lower(name));
    KeyedGround(Lower(name), value);
  }

  /** The `i`-th parameter name is keyed to the `i`-th field. */
  predicate NameKeysTo(i: nat, value: string)
    requires i < |ParameterNames|
  {
    KeyOf(ParameterNames[i], value).Some? && KeyOf(ParameterNames[i], value).value.0 == Keys[i]
  }

  lemma AlertLevelNameKeyed(value: string)
    ensures NameKeysTo(0, value)
  {
    AlertLevelLower();
    AlertLevelKeyed(ParameterNames[0], value);
  }

  lemma EruptionNameKeyed(value: string)
    ensures NameKeysTo(1, value)
  {
    EruptionLower();
    EruptionKeyed(ParameterNames[1], value);
  }

  lemma SeismicityNameKeyed(value: string)
    ensures NameKeysTo(2, value)
  {
    SeismicityLower();
    SeismicityKeyed(ParameterNames[2], value);
  }

  lemma AcidityNameKeyed(value: string)
    ensures NameKeysTo(3, value)
  {
    AcidityLower();
    AcidityKeyed(ParameterNames[3], value);
  }

  lemma TemperatureNameKeyed(value: string)
    ensures NameKeysTo(4, value)
  {
    TemperatureLower();
    TemperatureKeyed(ParameterNames[4], value);
  }

  lemma SulfurNameKeyed(value: string)
    ensures NameKeysTo(5, value)
  {
    SulfurLower();
    SulfurKeyed(ParameterNames[5], value);
  }

  lemma PlumeNameKeyed(value: string)
    ensures NameKeysTo(6, value)
  {
    PlumeLower();
    PlumeKeyed(ParameterNames[6], value);
  }

  lemma GroundNameKeyed(value: string)
    ensures NameKeysTo(7, value)
  {
    GroundLower();
    GroundKeyed(ParameterNames[7], value);
  }

  lemma FirstNamesKeyed(i: nat, value: string)
    requires i < 4
    ensures NameKeysTo(i, value)
  {
    if i == 0 {
      AlertLevelNameKeyed(value);
    } else if i == 1 {
      EruptionNameKeyed(value);
    } else if i == 2 {
      SeismicityNameKeyed(value);
    } else {
      AcidityNameKeyed(value);
    }
  }

  lemma LastNamesKeyed(i: nat, value: string)
    requires 4 <= i < 8
    ensures NameKeysTo(i, value)
  {
    if i == 4 {
      TemperatureNameKeyed(value);
    } else if i == 5 {
      SulfurNameKeyed(value);
    } else if i == 6 {
      PlumeNameKeyed(value);
    } else {
      GroundNameKeyed(value);
    }
  }

  /** Each parameter name the parser looks for is keyed to the field of the same name, in the same order. */
  lemma NamesKeyed(value: string)
    ensures forall i :: 0 <= i < |ParameterNames| ==> NameKeysTo(i, value)
  {
    forall i | 0 <= i < |ParameterNames|
      ensures NameKeysTo(i, value)
    {
      if i < 4 {
        FirstNamesKeyed(i, value);
      } else {
        LastNamesKeyed(i, value);
      }
    }
  }

  /** The end of the line from `i`: as far as `.+` reaches, `.` not matching a newline. */
  function LineEnd(s: string, i: nat): (e: nat)
    requires i <= |s|
    ensures i <= e <= |s|
    ensures forall k :: i <= k < e ==> s[k] != '\n'
    ensures e < |s| ==> s[e] == '\n'
  {
    SkipWhile(s, i, c => c != '\n')
  }

  /** A string with no newline in it. */
  predicate OneLine(s: string)
  {
    forall i :: 0 <= i < |s| ==> s[i] != '\n'
  }

  /**
   * Where `.+` starts after the digits ending at `k` and the blanks ending at
   * `j`: the latest position, from `j` back to `k`, holding a character
   * other than a newline.
   */
  function RestStart(s: string, k: nat, j: nat): (r: Option<nat>)
    ensures r.Some? ==> k <= r.value <= j && r.value < |s| && s[r.value] != '\n'
    ensures r.Some? ==> forall q :: r.value < q <= j && q < |s| ==> s[q] == '\n'
    ensures r.None? ==> forall q :: k <= q <= j && q < |s| ==> s[q] == '\n'
    decreases j
  {
    if j < k then None
    else if j < |s| && s[j] != '\n' then Some(j)
    else if j == 0 then None
    else RestStart(s, k, j - 1)
  }

  /**
   * `re.match(r'(\d+)\s*(.+)', s)` as written: its two groups. The digits
   * and the blanks are taken greedily and given back one at a time until
   * `.+` has a character other than a newline to start on; this can take
   * the last digit of a bare number as the description.
   */
  function NumberRestAsWritten(s: string): (r: Option<(string, string)>)
    ensures r.Some? ==> |r.value.0| > 0 && AllDigits(r.value.0) && StartsWith(s, r.value.0)
    ensures r.Some? ==> |r.value.1| > 0 && OneLine(r.value.1)
    ensures SkipDigits(s, 0) == 0 ==> r.None?
  {
    var k := SkipDigits(s, 0);
    if k == 0 then None
    else
      var j := SkipSpaces(s, k);
      match RestStart(s, k, j)
      case Some(p) => Some(Groups(s, k, p))
      case None => if k >= 2 then Some(Groups(s, k - 1, k - 1)) else None
  }

  /** The two groups of a match whose number is the first `n` digits and whose description starts at `p`. */
  function Groups(s: string, n: nat, p: nat): (r: (string, string))
    requires 0 < n <= SkipDigits(s, 0) && n <= p < |s| && s[p] != '\n'
    ensures r.0 == s[..n] && AllDigits(r.0) && StartsWith(s, r.0)
    ensures |r.1| > 0 && OneLine(r.1)
  {
    (s[..n], s[p..LineEnd(s, p)])
  }

  /**
   * The same match with the leading number kept whole, as the parser's
   * handling of a bare number shows it intends: a number with nothing after
   * it does not match, and the bare-number branch then supplies the default
   * description.
   */
  function NumberRest(s: string): (r: Option<(string, string)>)
    ensures r.Some? ==> r.value.0 == s[..SkipDigits(s, 0)] && |r.value.0| > 0
    ensures r.Some? ==> |r.value.1| > 0 && OneLine(r.value.1)
    ensures r.None? <==> SkipDigits(s, 0) == 0 || forall p :: SkipDigits(s, 0) <= p < |s| ==> s[p] == '\n'
  {
    var k := SkipDigits(s, 0);
    if k == 0 then None
    else
      var j := SkipSpaces(s, k);
      match RestStart(s, k, j)
      case Some(p) => Some(Groups(s, k, p))
      case None => None
  }

  /** Where the corrected match succeeds, the match as written gives the same groups. */
  lemma NumberRestAgrees(s: string)
    requires NumberRest(s).Some?
    ensures NumberRestAsWritten(s) == NumberRest(s)
  {
  }

  /** "number description", from the two groups of the match. */
  function Spaced(g: (string, string)): string
  {
    g.0 + " " + Strip(g.1)
  }

  /**
   * The seismicity text of a `txt-no-eq` paragraph, given the match of its
   * text: the number beside the span's description; or the match's number
   * and description; or the leading number with the rest of the text or the
   * default description. None when the paragraph gives nothing and the
   * cell's own text is used instead.
   */
  function CountParagraphValue(p: Paragraph, split: Option<(string, string)>): Option<string>
  {
    match p.span
    case Some(desc) =>
      var numeric := Strip(if desc == "" then p.text else ReplaceAll(p.text, desc, ""));
      Some(if numeric != "" && desc != "" then numeric + " " + desc else if numeric != "" then numeric else desc)
    case None =>
      match split
      case Some(g) => Some(Spaced(g))
      case None =>
        var k := SkipDigits(p.text, 0);
        if k == 0 then None
        else
          var rest := Strip(p.text[k..]);
          Some(if rest != "" then p.text[..k] + " " + rest else p.text[..k] + " volcanic earthquakes")
  }

  /** A seismicity cell's text, given the matches of its paragraph's text and of its own text. */
  function SeismicityFrom(c: Cell, countSplit: Option<(string, string)>, cellSplit: Option<(string, string)>): string
  {
    var fromCount := if c.count.Some? then CountParagraphValue(c.count.value, countSplit) else None;
    if fromCount.Some? then fromCount.value
    else match cellSplit
      case Some(g) => Spaced(g)
      case None => c.text
  }

  /** The seismicity cell's text as the parser computes it: what the table reader uses. */
  function SeismicityAsWritten(c: Cell): string
  {
    SeismicityFrom(c, if c.count.Some? then NumberRestAsWritten(c.count.value.text) else None, NumberRestAsWritten(c.text))
  }

  /** The seismicity cell's text with the leading number kept whole: the evidently intended reading. */
  function SeismicityText(c: Cell): string
  {
    SeismicityFrom(c, if c.count.Some? then NumberRest(c.count.value.text) else None, NumberRest(c.text))
  }

  /** Deleting a description from just after a number leaves the number. */
  lemma DeleteAfterNumber(d: string, desc: string)
    requires AllDigits(d) && |desc| > 0 && !IsDigit(desc[0])
    ensures ReplaceAll(d + desc, desc, "") == d
  {
    var t := d + desc;
    forall j | 0 <= j < |d| ensures !OccursAt(t, desc, j) {
      assert t[j..j + |desc|][0] == t[j];
    }
    assert OccursAt(t, desc, |d|);
    assert IndexOf(t, desc, 0) == Some(|d|);
    assert t[|d| + |desc|..] == [];
    assert t[..|d|] == d;
  }

  /** A number has no blanks to strip. */
  lemma StripNumber(n: nat)
    ensures Strip(NatToString(n)) == NatToString(n)
  {
    var d := NatToString(n);
    assert forall i :: 0 <= i < |d| ==> !IsSpace(d[i]);
    StripUnchanged(d);
  }

  /** A count cell whose span holds the description reads as the number, a space and the description. */
  lemma SpanCountRoundTrip(c: Cell, n: nat, desc: string)
    requires |desc| > 0 && NoDigits(desc)
    requires c.count == Some(Paragraph(NatToString(n) + desc, Some(desc)))
    ensures SeismicityText(c) == NatToString(n) + " " + desc
    ensures SeismicityAsWritten(c) == NatToString(n) + " " + desc
  {
    DeleteAfterNumber(NatToString(n), desc);
    StripNumber(n);
  }

  /** A run of digits to the end of the text is skipped to the end. */
  lemma {:induction false} SkipDigitsToEnd(s: string, i: nat)
    requires i <= |s| && forall k :: i <= k < |s| ==> IsDigit(s[k])
    ensures SkipDigits(s, i) == |s|
    decreases |s| - i
  {
    if i < |s| {
      SkipDigitsToEnd(s, i + 1);
    }
  }

  /** The matches of "number description": the number, and the description to the end of its line. */
  lemma NumberSpaceRest(n: nat, desc: string)
    requires |desc| > 0 && !IsSpace(desc[0]) && OneLine(desc)
    ensures NumberRest(NatToString(n) + " " + desc) == Some((NatToString(n), desc))
  {
    var d := NatToString(n);
    var t := d + " " + desc;
    SkipDigitsAt(t, d);
    assert t[|d|] == ' ' && t[|d| + 1] == desc[0];
    assert SkipSpaces(t, |d|) == |d| + 1;
    assert RestStart(t, |d|, |d| + 1) == Some(|d| + 1);
    assert forall k :: |d| + 1 <= k < |t| ==> t[k] == desc[k - |d| - 1];
    assert LineEnd(t, |d| + 1) == |t|;
    assert t[|d| + 1..|t|] == desc;
    assert t[..|d|] == d;
  }

  /** A count paragraph "number description" reads back as itself. */
  lemma PlainCountRoundTrip(c: Cell, n: nat, desc: string)
    requires |desc| > 0 && !IsSpace(desc[0]) && !IsSpace(desc[|desc| - 1]) && OneLine(desc)
    requires c.count == Some(Paragraph(NatToString(n) + " " + desc, None))
    ensures SeismicityText(c) == NatToString(n) + " " + desc
    ensures SeismicityAsWritten(c) == NatToString(n) + " " + desc
  {
    NumberSpaceRest(n, desc);
    NumberRestAgrees(NatToString(n) + " " + desc);
    StripUnchanged(desc);
  }

  /** A bare count matches neither group pair once the number is kept whole. */
  lemma BareNumberRest(n: nat)
    ensures NumberRest(NatToString(n)) == None
    ensures SkipDigits(NatToString(n), 0) == |NatToString(n)|
  {
    SkipDigitsToEnd(NatToString(n), 0);
  }

  /** A bare count reads as the count with the default description. */
  lemma BareCountDefault(c: Cell, n: nat)
    requires c.count == Some(Paragraph(NatToString(n), None))
    ensures SeismicityText(c) == NatToString(n) + " volcanic earthquakes"
  {
    var d := NatToString(n);
    BareNumberRest(n);
    assert d[|d|..] == [];
    assert d[..|d|] == d;
  }

  /**
   * As written, a bare count of two digits or more has its last digit taken
   * as the description: "12" reads as "1 2".
   */
  lemma BareCountSplitAsWritten(c: Cell, n: nat)
    requires n >= 10
    requires c.count == Some(Paragraph(NatToString(n), None))
    ensures var d := NatToString(n); SeismicityAsWritten(c) == d[..|d| - 1] + " " + d[|d| - 1..]
  {
    var d := NatToString(n);
    BareNumberRest(n);
    assert |d| >= 2;
    assert RestStart(d, |d|, |d|) == None;
    assert LineEnd(d, |d| - 1) == |d|;
    assert !IsSpace(d[|d| - 1]);
    StripUnchanged(d[|d| - 1..]);
  }

  /** The count 12 on its own, as written, reads "1 2". */
  lemma TwelveReadsOneTwo()
    ensures SeismicityAsWritten(Cell(None, "12", None, Some(Paragraph("12", None)))) == "1 2"
  {
    var c := Cell(None, "12", None, Some(Paragraph("12", None)));
    assert NatToString(12) == "12";
    BareCountSplitAsWritten(c, 12);
  }

  /**
   * What one row of a table contributes, keyed: nothing for a row of fewer
   * than two cells, a first cell naming no parameter or a name no key
   * matches, or an empty value.
   */
  function RowEntry(row: Row): (r: Option<(Key, string)>)
    ensures r.Some? ==> r.value.1 != ""
  {
    if |row.cells| < 2 then None
    else match ParameterName(row.cells[0])
      case None => None
      case Some(name) =>
        if name == "" then None
        else
          var value := if Contains(Lower(name), "seismic") then SeismicityAsWritten(row.cells[1]) else CellData(row.cells[1]);
          match KeyOf(name, value)
          case Some(kv) => if kv.1 != "" then Some(kv) else None
          case None => None
  }

  /** The fields after one more entry: its key set to its value, when it has one. */
  function Apply(fields: Fields, e: Option<(Key, string)>): Fields
  {
    match e
    case Some(kv) => fields[kv.0 := kv.1]
    case None => fields
  }

  /** The fields a run of entries gives, a later entry overwriting an earlier one with the same key. */
  function FieldsOf(entries: seq<Option<(Key, string)>>): (r: Fields)
    ensures forall k :: k in r ==> exists i :: 0 <= i < |entries| && entries[i] == Some((k, r[k]))
  {
    if entries == [] then map[]
    else
      var init := FieldsOf(entries[..|entries| - 1]);
      assert forall i :: 0 <= i < |entries| - 1 ==> entries[..|entries| - 1][i] == entries[i];
      Apply(init, entries[|entries| - 1])
  }

  /** An entry sets its key in the result unless a later entry has the same key. */
  lemma {:induction false} FieldsOfLast(entries: seq<Option<(Key, string)>>, i: nat, k: Key, v: string)
    requires i < |entries| && entries[i] == Some((k, v))
    requires forall j :: i < j < |entries| ==> entries[j].None? || entries[j].value.0 != k
    ensures k in FieldsOf(entries) && FieldsOf(entries)[k] == v
    decreases |entries|
  {
    var init := entries[..|entries| - 1];
    if i < |entries| - 1 {
      assert init[i] == entries[i];
      assert forall j :: i < j < |init| ==> init[j] == entries[j];
      FieldsOfLast(init, i, k, v);
    }
  }

  /** What each row of a table contributes, in order. */
  function RowEntries(rows: seq<Row>): (r: seq<Option<(Key, string)>>)
    ensures |r| == |rows| && forall i :: 0 <= i < |rows| ==> r[i] == RowEntry(rows[i])
  {
    seq(|rows|, i requires 0 <= i < |rows| => RowEntry(rows[i]))
  }

  /** The fields a table's rows give. */
  function TableFields(rows: seq<Row>): (r: Fields)
    ensures forall k :: k in r ==> r[k] != ""
  {
    TableFieldsFilled(rows);
    FieldsOf(RowEntries(rows))
  }

  /** Every field a table gives carries a value, since every row entry does. */
  lemma TableFieldsFilled(rows: seq<Row>)
    ensures forall k :: k in FieldsOf(RowEntries(rows)) ==> FieldsOf(RowEntries(rows))[k] != ""
  {
    var e := RowEntries(rows);
    var r := FieldsOf(e);
    forall k | k in r
      ensures r[k] != ""
    {
      var i :| 0 <= i < |e| && e[i] == Some((k, r[k]));
      assert e[i] == RowEntry(rows[i]);
    }
  }

  /**
   * Each value a table gives comes from a row with that key, and a row's
   * value is kept unless a later row has the same key.
   */
  lemma TableFieldsRows(rows: seq<Row>, i: nat)
    requires i < |rows| && RowEntry(rows[i]).Some?
    ensures var (k, v) := RowEntry(rows[i]).value;
            (forall j :: i < j < |rows| ==> RowEntry(rows[j]).None? || RowEntry(rows[j]).value.0 != k) ==>
              k in TableFields(rows) && TableFields(rows)[k] == v
    ensures forall k :: k in TableFields(rows) ==>
              exists j :: 0 <= j < |rows| && RowEntry(rows[j]) == Some((k, TableFields(rows)[k]))
  {
    var (k, v) := RowEntry(rows[i]).value;
    if forall j :: i < j < |rows| ==> RowEntry(rows[j]).None? || RowEntry(rows[j]).value.0 != k {
      TableFieldsLast(rows, i, k, v);
    }
    TableFieldsFromRows(rows);
  }

  lemma TableFieldsLast(rows: seq<Row>, i: nat, k: Key, v: string)
    requires i < |rows| && RowEntry(rows[i]) == Some((k, v))
    requires forall j :: i < j < |rows| ==> RowEntry(rows[j]).None? || RowEntry(rows[j]).value.0 != k
    ensures k in TableFields(rows) && TableFields(rows)[k] == v
  {
    FieldsOfLast(RowEntries(rows), i, k, v);
  }

  lemma TableFieldsFromRows(rows: seq<Row>)
    ensures forall k :: k in TableFields(rows) ==>
              exists j :: 0 <= j < |rows| && RowEntry(rows[j]) == Some((k, TableFields(rows)[k]))
  {
    var e := RowEntries(rows);
    assert forall k :: k in FieldsOf(e) ==> exists j :: 0 <= j < |e| && e[j] == Some((k, FieldsOf(e)[k]));
  }

  /** One row of `parse_table_data`'s loop. */
  method ReadRow(row: Row, fields: Fields) returns (result: Fields)
    ensures result == Apply(fields, RowEntry(row))
  {
    result := fields;
    if |row.cells| >= 2 {
      var name := ParameterName(row.cells[0]);
      if name.Some? && name.value != "" {
        var value;
        if Contains(Lower(name.value), "seismic") {
          value := SeismicityAsWritten(row.cells[1]);
        } else {
          value := CellData(row.cells[1]);
        }
        var entry := KeyOf(name.value, value);
        RowEntryNamed(row, name.value, value, fields);
        if entry.Some? && entry.value.1 != "" {
          result := result[entry.value.0 := entry.value.1];
        }
      } else {
        RowEntryUnnamed(row, fields);
      }
    } else {
      RowEntryUnnamed(row, fields);
    }
  }

  /** A row with fewer than two cells, or without a parameter name, has no entry and changes nothing. */
  lemma RowEntryUnnamed(row: Row, fields: Fields)
    requires |row.cells| < 2 || ParameterName(row.cells[0]).None? || ParameterName(row.cells[0]).value == ""
    ensures RowEntry(row).None? && Apply(fields, RowEntry(row)) == fields
  {
  }

  /** The entry of a row with a non-empty parameter name: the key of that name and the row's value, if any. */
  lemma RowEntryNamed(row: Row, name: string, value: string, fields: Fields)
    requires |row.cells| >= 2 && ParameterName(row.cells[0]) == Some(name) && name != ""
    requires value == if Contains(Lower(name), "seismic") then SeismicityAsWritten(row.cells[1]) else CellData(row.cells[1])
    ensures var e := KeyOf(name, value);
      Apply(fields, RowEntry(row)) == if e.Some? && e.value.1 != "" then fields[e.value.0 := e.value.1] else fields
  {
    RowEntryOf(row, name, value);
  }

  /** A named row's entry, given the value read from its second cell. */
  lemma RowEntryOf(row: Row, name: string, value: string)
    requires |row.cells| >= 2 && ParameterName(row.cells[0]) == Some(name) && name != ""
    requires value == if Contains(Lower(name), "seismic") then SeismicityAsWritten(row.cells[1]) else CellData(row.cells[1])
    ensures RowEntry(row) == if KeyOf(name, value).Some? && KeyOf(name, value).value.1 != "" then KeyOf(name, value) else None
  {
  }

  /** `parse_table_data`: the rows read in order into a fresh result. */
  method ParseTableData(table: Table) returns (result: Fields)
    ensures result == TableFields(table.rows)
  {
    ghost var entries := RowEntries(table.rows);
    result := map[];
    var i := 0;
    while i < |table.rows|
      invariant i <= |table.rows|
      invariant result == FieldsOf(entries[..i])
    {
      result := ReadRow(table.rows[i], result);
      assert entries[..i + 1][..i] == entries[..i];
      i := i + 1;
    }
    assert entries[..|table.rows|] == entries;
  }

  /** A table mentions one of the missing keys, as its lower-cased text shows. */
  predicate Mentions(table: Table, missing: seq<Key>)
  {
    exists k :: k in missing && Contains(Lower(table.text), SearchName(k))
  }

  /** Of the entries of `fields` with keys in `done`, those for missing keys whose value is not "0". */
  function MissingOnly(fields: Fields, missing: seq<Key>, done: set<Key>): (r: Fields)
    ensures forall k :: k in r <==> k in fields && k in done && k in missing && fields[k] != "0"
    ensures forall k :: k in r ==> r[k] == fields[k]
  {
    map k | k in fields && k in done && k in missing && fields[k] != "0" :: fields[k]
  }

  /**
   * The all-tables fallback: every table that mentions a missing key is
   * read, and its values for missing keys, other than "0", are kept, a later
   * table overwriting an earlier one.
   */
  function FallbackFields(tables: seq<Table>, missing: seq<Key>): (r: Fields)
    ensures forall k :: k in r ==> k in missing && r[k] != "0" && r[k] != ""
  {
    if tables == [] then map[]
    else
      var init := FallbackFields(tables[..|tables| - 1], missing);
      var t := tables[|tables| - 1];
      if Mentions(t, missing) then
        var fields := TableFields(t.rows);
        init + MissingOnly(fields, missing, fields.Keys)
      else init
  }

  /** Copying one more key of a table's entries. */
  lemma MissingOnlyStep(extracted: Fields, missing: seq<Key>, done: set<Key>, k: Key, fields: Fields)
    requires k in extracted
    ensures (if k in missing && extracted[k] != "0"
             then (fields + MissingOnly(extracted, missing, done))[k := extracted[k]]
             else fields + MissingOnly(extracted, missing, done))
            == fields + MissingOnly(extracted, missing, done + {k})
  {
  }

  /** The copying loop of the fallback: a table's entries for missing keys, other than "0", one by one. */
  method CopyMissing(extracted: Fields, missing: seq<Key>, fields: Fields) returns (result: Fields)
    ensures result == fields + MissingOnly(extracted, missing, extracted.Keys)
  {
    result := fields;
    var todo := extracted.Keys;
    ghost var done: set<Key> := {};
    while todo != {}
      invariant todo <= extracted.Keys && done == extracted.Keys - todo
      invariant result == fields + MissingOnly(extracted, missing, done)
      decreases |todo|
    {
      var k :| k in todo;
      MissingOnlyStep(extracted, missing, done, k, fields);
      if k in missing && extracted[k] != "0" {
        result := result[k := extracted[k]];
      }
      KeyDone(extracted.Keys, todo, k);
      todo := todo - {k};
      done := done + {k};
    }
    assert done == extracted.Keys;
  }

  /** Taking a key off the keys still to copy adds it to those copied. */
  lemma KeyDone(all: set<Key>, todo: set<Key>, k: Key)
    requires k in todo && todo <= all
    ensures (all - todo) + {k} == all - (todo - {k})
  {
  }

  /** `extract_from_all_tables`: the tables read in order. */
  method ExtractFromAllTables(tables: seq<Table>, missing: seq<Key>) returns (result: Fields)
    ensures result == FallbackFields(tables, missing)
  {
    result := map[];
    var i := 0;
    while i < |tables|
      invariant i <= |tables|
      invariant result == FallbackFields(tables[..i], missing)
    {
      if Mentions(tables[i], missing) {
        var extracted := ParseTableData(tables[i]);
        result := CopyMissing(extracted, missing, result);
      }
      assert tables[..i + 1][..i] == tables[..i];
      i := i + 1;
    }
    assert tables[..|tables|] == tables;
  }

  /** Every key is one of the eight. */
  lemma AllKeys()
    ensures forall k: Key :: k in Keys
  {
    forall k: Key
      ensures k in Keys
    {
      match k
      case AlertLevel => assert Keys[0] == k;
      case Eruption => assert Keys[1] == k;
      case Seismicity => assert Keys[2] == k;
      case Acidity => assert Keys[3] == k;
      case Temperature => assert Keys[4] == k;
      case SulfurDioxideFlux => assert Keys[5] == k;
      case Plume => assert Keys[6] == k;
      case GroundDeformation => assert Keys[7] == k;
    }
  }

  /** Every field at "0", before anything is read. */
  function Defaults(): (r: Fields)
    ensures forall k: Key :: k in r && r[k] == "0"
  {
    AllKeys();
    map k | k in Keys :: "0"
  }

  /** What the PARAMETERS table gives, when the page has one. */
  function ParametersFields(page: Page): (r: Fields)
    ensures forall k :: k in r ==> r[k] != ""
  {
    if page.parameters.Some? then TableFields(page.parameters.value.rows) else map[]
  }

  /** What the table in the second column of the first row gives, when the page has one. */
  function RowOneFields(page: Page): (r: Fields)
    ensures forall k :: k in r ==> r[k] != ""
  {
    if page.rowOne.Some? then TableFields(page.rowOne.value.rows) else map[]
  }

  /** The fields once the PARAMETERS table has been read over the defaults. */
  function AfterParameters(page: Page): (r: Fields)
    ensures forall k: Key :: k in r && r[k] != ""
  {
    Defaults() + ParametersFields(page)
  }

  /** The fields once the row-one table has been read, only while the alert level is still "0". */
  function AfterRowOne(page: Page): (r: Fields)
    ensures forall k: Key :: k in r && r[k] != ""
  {
    var f := AfterParameters(page);
    if f[AlertLevel] == "0" then f + RowOneFields(page) else f
  }

  /** The keys of `keys` whose field is "0", in order. */
  function ZeroKeys(keys: seq<Key>, fields: Fields): (r: seq<Key>)
    ensures forall k :: k in r <==> k in keys && k in fields && fields[k] == "0"
  {
    if keys == [] then []
    else (if keys[0] in fields && fields[keys[0]] == "0" then [keys[0]] else []) + ZeroKeys(keys[1..], fields)
  }

  /** The keys still "0": those the fallback looks for. */
  function MissingKeys(fields: Fields): (r: seq<Key>)
    ensures forall k :: k in r <==> k in fields && fields[k] == "0"
  {
    AllKeys();
    ZeroKeys(Keys, fields)
  }

  /**
   * `parse_unified_volcanic_data`: all eight fields, each "0" unless one of
   * the three sources gave it a value.
   */
  function UnifiedFields(page: Page): (r: Fields)
    ensures forall k: Key :: k in r && r[k] != ""
  {
    var f := AfterRowOne(page);
    var missing := MissingKeys(f);
    if missing != [] then f + FallbackFields(page.tables, missing) else f
  }

  /** `extract_from_parameters_section`: the PARAMETERS table read, or nothing. */
  method ExtractFromParametersSection(page: Page) returns (result: Fields)
    ensures result == ParametersFields(page)
  {
    result := map[];
    if page.parameters.Some? {
      var extracted := ParseTableData(page.parameters.value);
      result := result + extracted;
    }
  }

  /** `extract_from_row_one_section`: the row-one table read, or nothing. */
  method ExtractFromRowOneSection(page: Page) returns (result: Fields)
    ensures result == RowOneFields(page)
  {
    result := map[];
    if page.rowOne.Some? {
      var extracted := ParseTableData(page.rowOne.value);
      result := result + extracted;
    }
  }

  /** `parse_unified_volcanic_data`, step by step. */
  method ParseUnified(page: Page) returns (result: Fields)
    ensures result == UnifiedFields(page)
  {
    result := Defaults();
    var parameters := ExtractFromParametersSection(page);
    result := result + parameters;
    if result[AlertLevel] == "0" {
      var alert := ExtractFromRowOneSection(page);
      result := result + alert;
    }
    assert result == AfterRowOne(page);
    var missing := MissingKeys(result);
    if missing != [] {
      var fallback := ExtractFromAllTables(page.tables, missing);
      result := result + fallback;
    }
  }

  /**
   * The fallback changes only fields still at "0", and never to "0": a field
   * set by the PARAMETERS or row-one table is kept.
   */
  lemma FallbackFillsOnlyZeros(page: Page, k: Key)
    ensures AfterRowOne(page)[k] != "0" ==> UnifiedFields(page)[k] == AfterRowOne(page)[k]
    ensures UnifiedFields(page)[k] != AfterRowOne(page)[k] ==>
              AfterRowOne(page)[k] == "0" && UnifiedFields(page)[k] != "0"
  {
  }

  /** Pages that agree up to the fallback and have the same tables parse alike. */
  lemma SameFallback(p1: Page, p2: Page)
    requires AfterRowOne(p1) == AfterRowOne(p2) && p1.tables == p2.tables
    ensures UnifiedFields(p1) == UnifiedFields(p2)
  {
  }

  /** The row-one table is not consulted once the PARAMETERS table has given an alert level. */
  lemma RowOneOnlyWithoutAlert(page: Page, other: Option<Table>)
    requires AfterParameters(page)[AlertLevel] != "0"
    ensures UnifiedFields(page.(rowOne := other)) == UnifiedFields(page)
  {
    AfterRowOneKept(page, other);
    SameFallback(page.(rowOne := other), page);
  }

  /** With an alert level from the PARAMETERS table, the row-one table changes nothing before the fallback. */
  lemma AfterRowOneKept(page: Page, other: Option<Table>)
    requires AfterParameters(page)[AlertLevel] != "0"
    ensures AfterRowOne(page.(rowOne := other)) == AfterRowOne(page)
  {
    var q := page.(rowOne := other);
    assert ParametersFields(q) == ParametersFields(page);
  }

  /**
   * A field the PARAMETERS table gives, other than "0", is the result when
   * that table also gives an alert level.
   */
  lemma ParametersWin(page: Page, k: Key)
    requires var p := ParametersFields(page); AlertLevel in p && p[AlertLevel] != "0" && k in p && p[k] != "0"
    ensures UnifiedFields(page)[k] == ParametersFields(page)[k]
  {
    FallbackFillsOnlyZeros(page, k);
  }

  /**
   * When the PARAMETERS table gives no alert level, the row-one table's
   * fields replace the PARAMETERS table's, for every key and not only the
   * alert level.
   */
  lemma RowOneOverrides(page: Page, k: Key)
    requires AfterParameters(page)[AlertLevel] == "0"
    requires k in RowOneFields(page) && RowOneFields(page)[k] != "0"
    ensures UnifiedFields(page)[k] == RowOneFields(page)[k]
  {
    FallbackFillsOnlyZeros(page, k);
  }

  /** Python's `x or '0'`: the value, or "0" when it is missing or empty. */
  function OrZero(v: Option<string>): (r: string)
    ensures r != ""
    ensures v.Some? && v.value != "" ==> r == v.value
  {
    if v.Some? && v.value != "" then v.value else "0"
  }

  /**
   * The CSV row of a bulletin: its date, the eight fields in order and the
   * iframe's src, each "0" when missing or empty.
   */
  function CsvRow(date: Option<string>, fields: Fields, frameSrc: Option<string>): (r: seq<string>)
    ensures |r| == 10 && forall i :: 0 <= i < |r| ==> r[i] != ""
    ensures r[0] == OrZero(date) && r[9] == OrZero(frameSrc)
    ensures forall i :: 0 <= i < 8 ==> r[i + 1] == OrZero(if Keys[i] in fields then Some(fields[Keys[i]]) else None)
  {
    [OrZero(date)]
    + seq(8, i requires 0 <= i < 8 => OrZero(if Keys[i] in fields then Some(fields[Keys[i]]) else None))
    + [OrZero(frameSrc)]
  }

  /** The CSV row of a parsed page holds its eight fields unchanged, in key order. */
  lemma CsvRowKeepsFields(date: Option<string>, page: Page, frameSrc: Option<string>)
    ensures forall i :: 0 <= i < 8 ==> CsvRow(date, UnifiedFields(page), frameSrc)[i + 1] == UnifiedFields(page)[Keys[i]]
  {
  }
}
