# Taal volcano bulletin field extraction, modelled in Dafny

The Taal apps read volcano bulletins published by PHIVOLCS. Most of the
logic turns bulletin text, table cells or CSV rows into optional typed
values. The rest turns forecast figures back into bulletin wording. The
repository holds four variants of this logic:

- the Python scraper (`webscraper.py`; `webscraper/app.py` repeats `parse_volcanic_data`, `get_alert_level_color` and the anchor loop line for line, so the table cites the `webscraper.py` copies);
- the two Kotlin apps (`VolcanoScraperService.kt`, `Webscraper.kt`,
  `TaalApiModels.kt`, `MainActivity.kt`);
- the data-preparation script `dm_v0.5.py`;
- the generator `reverse_forecast_to_bulletin.py`.

This project models that logic in Dafny and proves what each piece
promises.

Every regular expression is a hand-written matcher. Given a text and a
position, it says whether the pattern matches there, where the match
ends and what it captured. `Scan` turns matchers into `re.search`,
`re.findall` and `re.sub(…, '')`. Case-insensitive patterns are matched
on the lower-cased text. The HTML document is abstracted to what each
extractor reads from it: the page text, anchors, labelled cells, table
rows, image and iframe sources. The network fetch becomes a parameter
that holds either the fetched page or the error message.

Where the source changes state step by step, the model does too. Each
of the following is a method proved equal to a specification function:

- the observation loops and `parse_volcanic_data`;
- the link and image loops;
- `parse_eruption_info` and `parse_seismicity_advanced`;
- the table reader and the merge;
- `parseMetricsFromDocument` and `fetchVolcanoData`;
- the CSV loading in the report screen.

The report screen is a class. Its fields `latest`, `isLoading` and
`error` are updated in place.

Modules, one per concern:

| module | file | what it models |
|---|---|---|
| Wrappers | wrappers.dfy | Option and Result |
| Text | text.dfy | lower/upper case, strip, split, join, replace |
| Numbers | numbers.dfy | decimal digits; Python `int`/`float`; Kotlin `toIntOrNull`/`toDouble`; thousands grouping; `round` |
| Scan | scan.dfy | matchers: search, findall, sub |
| BulletinText | bulletin_text.dfy | `parse_volcanic_data` and `get_alert_level_color` (webscraper.py, webscraper/app.py) |
| PageLinks | page_links.dfy | link filter, URL absolutisation, `is_external`, images and iframe of `scrape` / `bulk_scrape` |
| ScraperService | scraper_service.dfy | VolcanoScraperService.kt |
| Metrics | metrics.dfy | Webscraper.kt |
| ReportEntry | report_entry.dfy | the `TaalReportEntry` getters (TaalApiModels.kt) |
| UnifiedTable | unified_table.dfy | `parse_unified_volcanic_data` and its helpers; the bulk CSV row |
| BulletinDates | bulletin_dates.dfy | `extract_date_from_text` / `_url` |
| CellFeatures | cell_features.dfy | `parse_acidity`, `parse_temperature`, `parse_so2`, `parse_plume_*`, `analyze_ground_deformation` (dm_v0.5.py) |
| EventFeatures | event_features.dfy | `parse_eruption_info`, `parse_seismicity_advanced` (dm_v0.5.py) |
| BulletinGenerator | bulletin_generator.dfy | `reverse_eruption` / `_seismicity` / `_so2` / `_plume` / `_ground_deformation`, the enhanced alert clip |
| ActivityReport | activity_report.dfy | CSV loading and latest-row selection, forecast choice, plume and deformation wording (taalapppt2 MainActivity.kt) |

### Where the variants disagree

The model follows each variant's own code.

- **External links.** The Kotlin service compares hosts
  (`ScraperService.IsExternal`). The Python scraper instead marks every
  href that does not start with "http" or "//" as external, so relative
  links to the bulletin site itself count as external
  (`PageLinks.RelativeLinkIsExternal`). `Webscraper.kt` compares URL
  prefixes (`Metrics.ShorterUrlIsExternal`, `Metrics.PageSuffixIsInternal`).
- **Kotlin SO2 flux.** The Kotlin service does not strip thousands
  commas, so "1,234 tons/day" reads as 234
  (`ScraperService.GroupedFluxReadsLastGroup`).
- **Row-one section.** The row-one section of the unified parser is read
  for the alert level only. Once it is read, it overrides every key it
  holds, not just the alert (`UnifiedTable.RowOneOverrides`).
- **Plume heights.** The Python plume pattern `(?:meter|m)` followed by
  `\s*(?:high|tall|in height)` rejects "meters high" (`BulletinText.PluralMetersRejected`).

## Model

| member | source | states |
|---|---|---|
| Scan.Search | webscraper.py:737 | the leftmost match at or after a position: it matches there, and nothing matches before it |
| Scan.First | webscraper.py:742 | `re.search(…).group(n)`: the capture of the leftmost match, none exactly when the pattern matches nowhere |
| Scan.FindAll | dm_v0.5.py:35 | `re.findall`: successive matches inside the text, strictly left to right; non-empty exactly when something matches, the first one being the leftmost match |
| Scan.FindAllResumes | dm_v0.5.py:35 | each later match is the leftmost one from where scanning resumes after the one before, and nothing matches after the last: no match is skipped |
| Scan.RemoveAll | dm_v0.5.py:75 | `re.sub(p, '', s)`: never longer than the text; the text unchanged when nothing matches |
| Scan.RemoveAllGaps | dm_v0.5.py:75 | what `re.sub(p, '', s)` keeps is exactly the text between the successive matches `findall` lists, in order, the matched spans cut out |
| Scan.RemoveAllOnlyAt | dm_v0.5.py:75 | a pattern matching at one place only: the text before the match followed by the text after it |
| Scan.FindAllOnlyAt | dm_v0.5.py:35 | a pattern matching at one place only yields exactly that capture |
| Text.Split | app/src/main/java/com/example/mobilewebscraper/service/VolcanoScraperService.kt:95 | Kotlin `split`: at least one piece, and no piece contains the separator |
| Text.JoinSplit | app/src/main/java/com/example/mobilewebscraper/service/VolcanoScraperService.kt:95 | joining the pieces with the separator gives back the text |
| Text.SplitJoin | app/src/main/java/com/example/taalapppt2/MainActivity.kt:515 | splitting comma-free tokens joined by a comma gives back the tokens |
| Text.Strip | webscraper.py:806 | `strip()`: the text between the first and last non-blank characters |
| Text.Capitalize | webscraper.py:771 | `capitalize()`: first character upper case, the rest lower case, same length |
| Text.LowerCapitalize | webscraper.py:771 | capitalising a lower-case sentence and lower-casing it again gives it back |
| Numbers.IntToStringRoundTrip | app/src/main/java/com/example/taalapppt2/data/TaalApiModels.kt:33-39 | a written integer reads back as itself, through Kotlin `toIntOrNull` (in 32-bit range) and Python `int` |
| Numbers.KotlinToIntOrNull | app/src/main/java/com/example/taalapppt2/data/TaalApiModels.kt:33-39 | `toIntOrNull`: a signed decimal within the 32-bit range, otherwise null |
| Numbers.FormatThousands | reverse_forecast_to_bulletin.py:108 | `{n:,}`: digits and commas only, starting with a digit, plain digits below 1000 |
| Numbers.FormatThousandsGrouped | reverse_forecast_to_bulletin.py:108 | `{n:,}` puts a comma before every group of three digits counted from the right: one to three leading digits, then comma-led groups of three |
| Numbers.FormatThousandsDigits | reverse_forecast_to_bulletin.py:108 | dropping the commas of a grouped number gives the digits of the number |
| Numbers.RoundHalfEven | reverse_forecast_to_bulletin.py:23 | Python `round`: within one half of the value, ties to the even integer |
| Numbers.RoundWhole | reverse_forecast_to_bulletin.py:23 | rounding a whole number gives the number |
| BulletinText.AlertLevel | webscraper.py:736-739 | the alert level is 0..5 and comes from the leftmost "alert level [:-] digit" match; none exactly when nothing matches |
| BulletinText.VolcanicEarthquakes | webscraper.py:741-744 | the count of the leftmost "n volcanic earthquakes" match; none exactly when nothing matches |
| BulletinText.GasValue | webscraper.py:749-751 | the figure parses exactly when its comma-free text is a Python float, and gives that float |
| BulletinText.GasDigitsWithCommas | webscraper.py:749-751 | a figure of digits and commas reads as the number its digits spell |
| BulletinText.GasGroupedDecimal | webscraper.py:749-751 | "1,234.5" reads as the grouped whole part plus the fraction |
| BulletinText.GasNoDigitsRaises | webscraper.py:749-751 | a figure of commas and dots only makes `float()` raise |
| BulletinText.GasEmissions | webscraper.py:746-751 | a found flux is never negative; the parse fails exactly when the matched figure is not a float |
| BulletinText.GasNonNegative | webscraper.py:747-751 | a figure of digits, commas and dots never reads as a negative flux |
| BulletinText.PlumeActivity | webscraper.py:753-756 | the leftmost plume match's number followed by " meters"; none exactly when nothing matches |
| BulletinText.PluralMetersRejected | webscraper.py:754 | the unit `(?:meter\|m)` then a blank cannot match where "meters" is written |
| BulletinText.DeformationFirst | webscraper.py:759-762 | the first deformation pattern: a lower-case deformation word, then up to 50 characters, then a structure word |
| BulletinText.SeismicFirst | webscraper.py:775-778 | the first seismic pattern: a seismic phrase, then up to 100 characters, then a trend word |
| BulletinText.SentenceAt | webscraper.py:768-771 | the enclosing sentence: no terminator before the phrase, or after it until the closing terminator |
| BulletinText.CleanSentence | webscraper.py:768-772 | the stripped and capitalised sentence is non-empty, ends with its terminator and still holds the phrase |
| BulletinText.DeformationPhraseWords | webscraper.py:759-762 | every deformation match holds a deformation word and a structure word |
| BulletinText.GroundDeformation | webscraper.py:759-772 | none without a deformation match; a stored value is the cleaned sentence holding the first pattern's match |
| BulletinText.GroundDeformationMentions | webscraper.py:759-772 | the stored deformation sentence names a deformation word and a structure word |
| BulletinText.SeismicActivity | webscraper.py:775-788 | none without a seismic match; a stored value is the cleaned sentence holding the first pattern's match |
| BulletinText.SeismicActivityMentions | webscraper.py:775-788 | the stored seismic sentence contains "seismic" and a trend word |
| BulletinText.SplitSentences | webscraper.py:800 | `re.split(r'(?<=[.!?])\s+', …)`: no piece holds a sentence break; every piece but the last ends with its terminator |
| BulletinText.SplitWithoutBreak | webscraper.py:800 | a text with no sentence break is a single piece |
| BulletinText.Observations | webscraper.py:802-808 | every observation is a stripped piece longer than 10 characters naming a keyword, and every such piece is kept |
| BulletinText.ObservationsAppend | webscraper.py:802-808 | the observations of two runs of pieces are those of the first, then those of the second: order is kept |
| BulletinText.TakeFive | webscraper.py:811 | `[:5]`: at most five, a prefix, all of them when there are at most five |
| BulletinText.HasKeyword | webscraper.py:791-797 | the keyword loop answers true exactly when the sentence names one of the keywords |
| BulletinText.CollectObservations | webscraper.py:800-811 | the observation loop yields the first five observations of the split text |
| BulletinText.ParseVolcanicData | webscraper.py:710-813 | empty text gives `{}`; a bad flux raises; otherwise every field is the extractor's value on the lower-cased text |
| BulletinText.AlertLevelColour | webscraper.py:684-708 | levels 0..4 map to their colour; 5, other integers and non-numbers map to "secondary" |
| BulletinText.AlertColourRoundTrip | webscraper.py:684-708 | each level 0..4 can be recovered from its colour; a numeric string behaves like its integer |
| PageLinks.BaseUrl | webscraper.py:61 | `'/'.join(url.split('/')[:3])` is a prefix of the URL |
| PageLinks.BaseUrlOfAbsolute | webscraper/app.py:58 | the base of "scheme://host/path" is "scheme://host" |
| PageLinks.LinkUrl | webscraper.py:76-79 | an "http" href is kept as is; any other href is joined under the base by `UnderBase`, so the URL starts with the base and ends with the href |
| PageLinks.UnderBase | webscraper.py:79 | base + href when the href starts with "/", otherwise base + "/" + href: exactly one slash after the base, followed by the href without its own leading slash |
| PageLinks.IsExternal | webscraper.py:84 | internal exactly when the href starts with "http" or "//" and contains the base |
| PageLinks.RelativeLinkIsExternal | webscraper.py:76-84 | a relative href without a leading "/" is marked external, though its URL is under the base |
| PageLinks.LinksExactly | webscraper.py:67-85 | the links are exactly the anchors whose text names all five terms, each made into its link |
| PageLinks.HasAllTerms | webscraper.py:74 | true exactly when the lower-cased text contains taal, volcano, summary, 24hr and observation |
| PageLinks.CollectLinks | webscraper.py:67-85 | the anchor loop yields the links of the anchors under the page's base |
| PageLinks.BulletinLinks | webscraper.py:890-902 | `bulk_scrape` keeps the URL and text of the same links, in order |
| PageLinks.AbsoluteSrc | webscraper.py:123-124 | an absolute src is kept; any other src is put under the base |
| PageLinks.AbsoluteSrcIdempotent | webscraper.py:123-124 | absolutising twice is absolutising once, and the result is absolute |
| PageLinks.ImageUrls | webscraper.py:137-143 | every image URL is the absolutised src of an `<img>` that has one, and every such src gives one |
| PageLinks.ImageUrlsAppend | webscraper.py:137-143 | the images of two runs of tags are those of the first, then those of the second: document order is kept |
| PageLinks.CollectImages | webscraper.py:137-143 | the image loop yields the image URLs |
| PageLinks.IframeContent | webscraper.py:120-166 | the entry has the absolutised src; a failed fetch gives the error text; a fetched text whose flux figure does not parse aborts the whole scrape; otherwise the images, the text and, for non-empty text, every field `parse_volcanic_data` reads |
| ScraperService.AlertLevel | app/src/main/java/com/example/mobilewebscraper/service/VolcanoScraperService.kt:73-74 | 0..5: the digit of the leftmost exact, case-sensitive "Alert Level d" match; none exactly when no position matches |
| ScraperService.AlertLevelOfPhrase | app/src/main/java/com/example/mobilewebscraper/service/VolcanoScraperService.kt:73-74 | "Alert Level d" after a text without a capital A reads as d, whatever follows |
| ScraperService.AlertLevelCaseSensitive | app/src/main/java/com/example/mobilewebscraper/service/VolcanoScraperService.kt:73 | a text without capitals has no alert level |
| ScraperService.VolcanicEarthquakes | app/src/main/java/com/example/mobilewebscraper/service/VolcanoScraperService.kt:77-78 | the digits of the first case-insensitive earthquake match, within the 32-bit range; a found count in that range is returned |
| ScraperService.EarthquakesOfPhrase | app/src/main/java/com/example/mobilewebscraper/service/VolcanoScraperService.kt:77-78 | "n volcanic earthquake" after a digit-free text reads as n, for n within the 32-bit range |
| ScraperService.EarthquakeAfterWords | app/src/main/java/com/example/mobilewebscraper/service/VolcanoScraperService.kt:77 | digits then " volcanic earthquake" after digit-free words are the first match |
| ScraperService.DigitsAreSigned | app/src/main/java/com/example/mobilewebscraper/service/VolcanoScraperService.kt:78 | a run of digits parses as its value |
| ScraperService.GasEmissions | app/src/main/java/com/example/mobilewebscraper/service/VolcanoScraperService.kt:81-82 | `toDoubleOrNull` of the first "n[.f] tons/day" capture; none when nothing matches |
| ScraperService.GroupedFluxReadsLastGroup | app/src/main/java/com/example/mobilewebscraper/service/VolcanoScraperService.kt:81-82 | "a,b tons/day" reads as b: the commas are not stripped |
| ScraperService.PlumeActivity | app/src/main/java/com/example/mobilewebscraper/service/VolcanoScraperService.kt:85-88 | the first reach capture followed by " meters high"; none exactly when nothing matches |
| ScraperService.KeptSentencesExactly | app/src/main/java/com/example/mobilewebscraper/service/VolcanoScraperService.kt:95-99 | exactly the sentences naming a keyword, trimmed, with "." appended |
| ScraperService.NamesKeyword | app/src/main/java/com/example/mobilewebscraper/service/VolcanoScraperService.kt:96 | true exactly when the sentence names one of the six keywords in any case |
| ScraperService.CollectObservations | app/src/main/java/com/example/mobilewebscraper/service/VolcanoScraperService.kt:91-106 | the `forEach` loop yields the first five kept sentences of the `". "` split |
| ScraperService.ExtractVolcanicData | app/src/main/java/com/example/mobilewebscraper/service/VolcanoScraperService.kt:70-111 | every field is its extractor's value on the page text |
| ScraperService.BulletinTitleNames | app/src/main/java/com/example/mobilewebscraper/service/VolcanoScraperService.kt:120 | a matching title names Taal and an observation |
| ScraperService.IsExternal | app/src/main/java/com/example/mobilewebscraper/service/VolcanoScraperService.kt:122-126 | external exactly when both hosts parse and differ |
| ScraperService.ExtractLinks | app/src/main/java/com/example/mobilewebscraper/service/VolcanoScraperService.kt:113-135 | exactly the anchors with a non-blank href and a matching title |
| ScraperService.NonBlank | app/src/main/java/com/example/mobilewebscraper/service/VolcanoScraperService.kt:149-151 | exactly the non-blank image sources |
| ScraperService.ExtractIframeContent | app/src/main/java/com/example/mobilewebscraper/service/VolcanoScraperService.kt:137-164 | null exactly without an iframe; the absolute src; on a failed fetch the error text, no data and no images; otherwise the non-blank image sources and the full data record of the fetched page |
| ScraperService.ScrapeVolcanoData | app/src/main/java/com/example/mobilewebscraper/service/VolcanoScraperService.kt:43-66 | success exactly when the page loads; "Error: …" and empty fields on failure; otherwise the title, the links, the full data record and, only when scraping deeply, the iframe's content |
| Metrics.FirstWhere | app/src/main/java/com/example/taalapppt2/service/Webscraper.kt:131-135 | the first index satisfying the test; none exactly when no element satisfies it |
| Metrics.AlertLevel | app/src/main/java/com/example/taalapppt2/service/Webscraper.kt:115-116 | the integer parse of the first circle's title |
| Metrics.AlertLevelOfTitle | app/src/main/java/com/example/taalapppt2/service/Webscraper.kt:115-116 | a written integer title reads back as the level |
| Metrics.AlertLevelUntrimmed | app/src/main/java/com/example/taalapppt2/service/Webscraper.kt:116 | a title with a leading blank has no level |
| Metrics.SeismicityDescription | app/src/main/java/com/example/taalapppt2/service/Webscraper.kt:119-128 | none exactly without an element; the result contains no quote |
| Metrics.SeismicityOfCount | app/src/main/java/com/example/taalapppt2/service/Webscraper.kt:119-128 | a quoted count becomes "n volcanic earthquakes occurred today" |
| Metrics.CellValue | app/src/main/java/com/example/taalapppt2/service/Webscraper.kt:131-135 | the trimmed first value after the label, when there is one |
| Metrics.LabelledValue | app/src/main/java/com/example/taalapppt2/service/Webscraper.kt:131-165 | the value after the first cell carrying the label; none without such a cell |
| Metrics.LabelledValueFirst | app/src/main/java/com/example/taalapppt2/service/Webscraper.kt:131-165 | cells after the first labelled one do not change the value |
| Metrics.WarningMessage | app/src/main/java/com/example/taalapppt2/service/Webscraper.kt:169-172 | the text of the first block containing "warning:" in any case; none exactly when no block does |
| Metrics.ParseMetricsFromDocument | app/src/main/java/com/example/taalapppt2/service/Webscraper.kt:100-188 | the metrics of the page, with the chance and the three forecast fields always null |
| Metrics.ShorterUrlIsExternal | app/src/main/java/com/example/taalapppt2/service/Webscraper.kt:55 | a URL shorter than the page URL is external |
| Metrics.PageSuffixIsInternal | app/src/main/java/com/example/taalapppt2/service/Webscraper.kt:78 | a URL extending the page URL is internal |
| Metrics.LinksOf | app/src/main/java/com/example/taalapppt2/service/Webscraper.kt:54-56 | one link per anchor, with its text and URL, external exactly when the URL does not extend the page URL |
| Metrics.FramesOf | app/src/main/java/com/example/taalapppt2/service/Webscraper.kt:57-59 | one entry per iframe with its title and absolute src |
| Metrics.FetchVolcanoData | app/src/main/java/com/example/taalapppt2/service/Webscraper.kt:38-97 | one entry per content block, or one for the whole page without blocks; all share the title and the metrics |
| Metrics.BlockEntries | app/src/main/java/com/example/taalapppt2/service/Webscraper.kt:73-94 | the loop over content blocks appends exactly one entry per block, in block order |
| ReportEntry.AlertLevelInt | app/src/main/java/com/example/taalapppt2/data/TaalApiModels.kt:33-39 | the whole-string integer parse, null exactly when that fails or leaves the 32-bit range |
| ReportEntry.AlertLevelIntRoundTrip | app/src/main/java/com/example/taalapppt2/data/TaalApiModels.kt:33-39 | a written level reads back; a trailing blank makes it null |
| ReportEntry.TemperatureValue | app/src/main/java/com/example/taalapppt2/data/TaalApiModels.kt:41-44 | present exactly when a number precedes "℃", never negative |
| ReportEntry.TemperatureOfReading | app/src/main/java/com/example/taalapppt2/data/TaalApiModels.kt:41-44 | "a.f ℃ …" reads as a.f |
| ReportEntry.ParenText | app/src/main/java/com/example/taalapppt2/data/TaalApiModels.kt:46-49 | the fallback without a "(…)"; otherwise a non-empty text without ")" |
| ReportEntry.ParenOfSuffix | app/src/main/java/com/example/taalapppt2/data/TaalApiModels.kt:56-59 | "… (d) …" gives d |
| ReportEntry.ParenMissing | app/src/main/java/com/example/taalapppt2/data/TaalApiModels.kt:104-107 | without "(" the date getter gives "Date N/A" |
| ReportEntry.AcidityValue | app/src/main/java/com/example/taalapppt2/data/TaalApiModels.kt:51-54 | present exactly when the cell holds a digit, never negative |
| ReportEntry.AcidityOfReading | app/src/main/java/com/example/taalapppt2/data/TaalApiModels.kt:51-54 | a cell "a.f …" gives the acidity a.f |
| ReportEntry.PlumeHeightM | app/src/main/java/com/example/taalapppt2/data/TaalApiModels.kt:61-64 | present only when the cell says "meters tall", and within the 32-bit range |
| ReportEntry.PlumeHeightRoundTrip | app/src/main/java/com/example/taalapppt2/data/TaalApiModels.kt:61-64 | a cell "n meters tall …" gives n, for n in the 32-bit range |
| ReportEntry.PlumeEmissionStrength | app/src/main/java/com/example/taalapppt2/data/TaalApiModels.kt:66-72 | "Moderate" before "Weak", in any case, else "Unknown" |
| ReportEntry.StrengthIgnoresCase | app/src/main/java/com/example/taalapppt2/data/TaalApiModels.kt:66-72 | lower-casing the cell does not change the strength |
| ReportEntry.PlumeDriftDirection | app/src/main/java/com/example/taalapppt2/data/TaalApiModels.kt:74-77 | "Unknown" when the cell does not say "drift" |
| ReportEntry.DriftOfWord | app/src/main/java/com/example/taalapppt2/data/TaalApiModels.kt:74-77 | "<word> drift" gives the word |
| ReportEntry.VolcanicEarthquakesCount | app/src/main/java/com/example/taalapppt2/data/TaalApiModels.kt:79-82 | null unless the plural "volcanic earthquakes" is written |
| ReportEntry.EarthquakesRoundTrip | app/src/main/java/com/example/taalapppt2/data/TaalApiModels.kt:79-82 | "n volcanic earthquakes …" reads as n |
| ReportEntry.VolcanicTremorsCount | app/src/main/java/com/example/taalapppt2/data/TaalApiModels.kt:84-87 | null unless both "including" and the plural "volcanic tremors" are written |
| ReportEntry.TremorsRoundTrip | app/src/main/java/com/example/taalapppt2/data/TaalApiModels.kt:79-87 | "q volcanic earthquakes including n volcanic tremors …" gives q earthquakes and n tremors, within the 32-bit range |
| ReportEntry.TremorsFound | app/src/main/java/com/example/taalapppt2/data/TaalApiModels.kt:84-87 | a found tremor count is digits, and the cell says "including" and "volcanic tremors" |
| ReportEntry.HasEruption | app/src/main/java/com/example/taalapppt2/data/TaalApiModels.kt:94-96 | true exactly when the cell is not "0" and not blank |
| ReportEntry.So2FluxRoundTrip | app/src/main/java/com/example/taalapppt2/data/TaalApiModels.kt:98-101 | "1,234 tonnes / day …" reads as 1234 |
| ReportEntry.So2FluxOfWords | app/src/main/java/com/example/taalapppt2/data/TaalApiModels.kt:98-101 | a cell starting with a letter, such as "Below detection limit", gives null |
| UnifiedTable.ParameterName | webscraper.py:1212-1230 | the bold text if any; otherwise the first listed name found in the cell in any case; none when none is |
| UnifiedTable.FirstDigits | webscraper.py:1310 | the first run of digits; none exactly when there is no digit |
| UnifiedTable.KeyOf | webscraper.py:1302-1333 | the alert value is its first digits (or the value itself when it has none); every other key keeps its value |
| UnifiedTable.NamesKeyed | webscraper.py:1302-1333 | each of the eight listed names maps to its own key |
| UnifiedTable.NumberRestAsWritten | webscraper.py:1274-1279 | `(\d+)\s*(.+)` as written: a leading digit prefix and a non-empty one-line rest |
| UnifiedTable.NumberRest | webscraper.py:1274-1279 | the whole leading number and a non-empty rest; none exactly without a number or without a rest |
| UnifiedTable.NumberRestAgrees | webscraper.py:1274-1279 | where a rest follows the number, the pattern as written gives the same split |
| UnifiedTable.SpanCountRoundTrip | webscraper.py:1257-1266 | a count paragraph with a description span gives "n description" |
| UnifiedTable.PlainCountRoundTrip | webscraper.py:1273-1279 | "n description" without a span gives back "n description" |
| UnifiedTable.BareCountDefault | webscraper.py:1282-1289 | a bare count gives "n volcanic earthquakes" |
| UnifiedTable.BareCountSplitAsWritten | webscraper.py:1274-1279 | as written, a bare count of two or more digits is split before its last digit |
| UnifiedTable.TwelveReadsOneTwo | webscraper.py:1274 | as written, the bare count "12" gives "1 2" |
| UnifiedTable.RowEntry | webscraper.py:1182-1208 | a row yields a key only with a non-empty value |
| UnifiedTable.RowEntryOf | webscraper.py:1182-1208 | a named row's entry is its name's key with, for a seismic name, the cell read as the parser does it (a bare "12" gives "1 2"), otherwise the cell's data; none when that value is empty |
| UnifiedTable.TableFieldsRows | webscraper.py:1175-1210 | a key's value is that of the last row giving the key; every value comes from some row |
| UnifiedTable.FieldsOfLast | webscraper.py:1203-1208 | the last entry of a key decides its value |
| UnifiedTable.ReadRow | webscraper.py:1182-1208 | one row step applies that row's entry, the seismicity value read as written |
| UnifiedTable.ParseTableData | webscraper.py:1175-1210 | the row loop yields the table's fields |
| UnifiedTable.MissingOnlyStep | webscraper.py:1347-1349 | one copy step adds a key only if it is missing and its value is not "0" |
| UnifiedTable.CopyMissing | webscraper.py:1347-1349 | the copy loop adds exactly the missing keys with a value other than "0" |
| UnifiedTable.ExtractFromAllTables | webscraper.py:1335-1354 | the table loop yields the fallback fields of the tables that mention a missing key |
| UnifiedTable.ExtractFromParametersSection | webscraper.py:1091-1110 | the fields of the PARAMETERS table, none without one |
| UnifiedTable.ExtractFromRowOneSection | webscraper.py:1112-1147 | the fields of the row-one table, none without one |
| UnifiedTable.ParseUnified | webscraper.py:1043-1089 | defaults "0", then PARAMETERS, then row one while the alert is "0", then the fallback for the keys still "0" |
| UnifiedTable.FallbackFillsOnlyZeros | webscraper.py:1078-1084 | the fallback changes only keys that were "0", and never to "0" |
| UnifiedTable.SameFallback | webscraper.py:1078-1084 | the result depends only on the fields before the fallback and on the tables |
| UnifiedTable.RowOneOnlyWithoutAlert | webscraper.py:1070-1076 | with an alert from PARAMETERS the row-one table is never consulted |
| UnifiedTable.ParametersWin | webscraper.py:1064-1076 | with an alert from PARAMETERS, every key found there is kept |
| UnifiedTable.RowOneOverrides | webscraper.py:1070-1076 | without a PARAMETERS alert, every non-"0" row-one value wins, whatever its key |
| UnifiedTable.CsvRow | webscraper.py:969-980 | ten cells, none empty: date, the eight keys in order, iframe src, each "0" when missing |
| UnifiedTable.CsvRowKeepsFields | webscraper.py:969-980 | the eight middle cells are the parsed fields |
| BulletinDates.DatePatternsForward | webscraper.py:1362-1367 | each of the four patterns ends a match after its start |
| BulletinDates.FirstPattern | webscraper.py:1369-1372 | the first pattern in list order that matches somewhere, with its leftmost match |
| BulletinDates.DateFromText | webscraper.py:1356-1374 | none for empty text; otherwise the whole leftmost match of the first matching pattern, none when none matches |
| BulletinDates.DateFromTextRoundTrip | webscraper.py:1356-1374 | a title with "d Month yyyy" (any case) and no digit before it gives that date text |
| BulletinDates.NoDigitsNoDate | webscraper.py:1356-1374 | a text without digits has no date |
| BulletinDates.MonthsDiffer | webscraper.py:1363 | the twelve month names differ in their first three letters |
| BulletinDates.DateFromUrl | webscraper.py:1376-1386 | the whole leftmost yyyy-m-d match; none exactly for an empty URL or no match |
| BulletinDates.DateFromUrlRoundTrip | webscraper.py:1376-1386 | a URL with one yyyy-mm-dd date and no other digits gives that date |
| BulletinDates.UndatedTitleUsesUrl | webscraper.py:917 | a title without digits takes its date from the URL |
| BulletinDates.DatedTitleWins | webscraper.py:917 | a dated title wins over the URL |
| CellFeatures.Acidity | dm_v0.5.py:150-156 | none for a missing or "0" cell; a found acidity is the float of the first number in the cell, never negative |
| CellFeatures.AcidityOfReading | dm_v0.5.py:150-156 | "a.f (date)" reads as a.f |
| CellFeatures.AcidityAfterPeriod | dm_v0.5.py:154 | "pH. 2.5" has no acidity: the lone "." is captured first and `float` fails |
| CellFeatures.Temperature | dm_v0.5.py:161-167 | none for a missing or "0" cell; a found temperature is the float of the first degree figure, never negative |
| CellFeatures.TemperatureOfReading | dm_v0.5.py:161-167 | "a.f ℃ (date)" reads as a.f |
| CellFeatures.So2 | dm_v0.5.py:172-183 | a missing cell and "below detection limit" give 0; none when no flux figure matches; a found flux is never negative |
| CellFeatures.So2OfGrouped | dm_v0.5.py:178-180 | "1,234 tonnes / day …" reads as 1234 |
| CellFeatures.So2BelowDetection | dm_v0.5.py:173-174 | any cell saying "below detection limit" gives 0 |
| CellFeatures.So2OnlyCommas | dm_v0.5.py:180-183 | a figure of commas only gives none |
| CellFeatures.PlumeHeight | dm_v0.5.py:188-195 | never negative; 0 for a missing or "0" cell |
| CellFeatures.PlumeHeightOfGrouped | dm_v0.5.py:188-195 | "1,500 meters …" reads as 1500 |
| CellFeatures.PlumeDrift | dm_v0.5.py:197-203 | a direction other than "none" occurs in the lower-cased cell; "none" exactly when no listed direction occurs |
| CellFeatures.PlumeDriftFirstListed | dm_v0.5.py:197-203 | a found direction is the first of north, northeast, northwest, east, southeast, south, southwest, west, in that order, that occurs in the lower-cased cell |
| CellFeatures.PlumeDriftNeverCompound | dm_v0.5.py:199-202 | as written, only north, east, south, west or "none" is ever returned |
| CellFeatures.NortheastReadsNorth | dm_v0.5.py:199-202 | as written, a north-east drift reads as "north" |
| CellFeatures.PlumeDriftSpecific | dm_v0.5.py:197-203 | corrected reading, two-word directions first: a found direction occurs in the cell; "none" exactly when no listed direction occurs |
| CellFeatures.PlumeDriftSpecificFirstListed | dm_v0.5.py:197-203 | corrected reading: a found direction is the first, in the order with the two-word directions first, that occurs in the cell |
| CellFeatures.SpecificDriftKeepsCompound | dm_v0.5.py:197-203 | when a two-word direction is written, the corrected reading returns one found in the cell |
| CellFeatures.DriftReadingsAgree | dm_v0.5.py:197-203 | without a two-word direction both readings agree |
| CellFeatures.NortheastReadsNortheast | dm_v0.5.py:197-203 | the corrected reading of a north-east drift is "northeast" |
| CellFeatures.PlumeStrength | dm_v0.5.py:205-213 | 3 exactly with "voluminous", at least 2 exactly with voluminous or moderate, at least 1 exactly with any of the three |
| CellFeatures.CalderaTrend | dm_v0.5.py:237-245 | in -1..1; -1 exactly with "caldera" and a caldera deflation phrase, or no caldera inflation phrase and "deflation"; 1 exactly with "caldera", no caldera deflation phrase, and a caldera inflation phrase or "inflation" without "deflation" |
| CellFeatures.TviTrend | dm_v0.5.py:248-252 | -1 exactly with the island named and "deflation"; 1 exactly with it named, no deflation and "inflation" |
| CellFeatures.FlankTrend | dm_v0.5.py:255-265 | 1 exactly with the flank named and "inflation"; -1 exactly with it named, no inflation and "deflation" |
| CellFeatures.GroundDeformation | dm_v0.5.py:220-277 | each trend is its reading of the lower-cased text; each of the four long- and short-term flags is 0 or 1, and 1 exactly when its phrase occurs |
| CellFeatures.MixedTrendsDisagree | dm_v0.5.py:248-265 | with both words, the island reads deflation while the south-east flank reads inflation |
| CellFeatures.NoTrendWords | dm_v0.5.py:220-277 | without "inflation" and "deflation" all four trends and all four flags are 0 |
| EventFeatures.SumAppend | dm_v0.5.py:38 | the sum of two lists is the sum of their sums |
| EventFeatures.EruptionCount | dm_v0.5.py:27-38 | the count is the sum of each pattern's captures, the three patterns run independently over the whole text |
| EventFeatures.PhreaticCountedTwice | dm_v0.5.py:27-38 | as written, "n phreatic eruption…" is counted 2n |
| EventFeatures.PhreaticCountedOnce | dm_v0.5.py:27-38 | corrected, "n phreatic eruption…" is counted n |
| EventFeatures.CountOnceWhenOnlyPlain | dm_v0.5.py:27-38 | where only the first pattern matches, the corrected count equals the count as written |
| EventFeatures.CountOnceOfLeading | dm_v0.5.py:27-38 | corrected, a leading number read by some pattern is the count |
| EventFeatures.ZeroText | dm_v0.5.py:27-38 | "0" holds no eruption |
| EventFeatures.MinorMinorNowhere | dm_v0.5.py:28-30 | after "n minor minor " none of the three patterns matches |
| EventFeatures.Severity | dm_v0.5.py:40-58 | phreatomagmatic 2, else phreatic 1, else magmatic 3, else 1 for a positive count and 0 for none; minor/small lowers it by 0.5 but not below 0, otherwise major/large raises it by 1; the score of each band and size is given; within 0..4, 4 exactly for major magmatic |
| EventFeatures.EruptionDurations | dm_v0.5.py:60-87 | the total is never negative, and 0 when nothing was found |
| EventFeatures.RangeAlone | dm_v0.5.py:60-87 | "lo-hi minutes" followed by digit-free text is one instance at the midpoint (lo+hi)/2: the range is not read again as single minutes |
| EventFeatures.RangeThenMinutes | dm_v0.5.py:60-87 | a range and a separate "n minutes" count once each: two instances totalling the midpoint plus n |
| EventFeatures.EruptionInfoOf | dm_v0.5.py:15-93 | the severity is within 0..4; the total duration is never negative; the average lies between 0 and the total, and is 0 when the total is |
| EventFeatures.AverageOfDurations | dm_v0.5.py:90-91 | the average times the instances is the total; 0 without instances |
| EventFeatures.ParseEruptionInfo | dm_v0.5.py:15-93 | the steps yield the features: count, severity, total and average duration |
| EventFeatures.CountEruptions | dm_v0.5.py:33-38 | the pattern loop and the sum yield the eruption count |
| EventFeatures.CollectCaptures | dm_v0.5.py:33-36 | `extend` over the patterns concatenates their captures in order |
| EventFeatures.AddUp | dm_v0.5.py:38 | the loop yields the sum |
| EventFeatures.MeasureDurations | dm_v0.5.py:60-87 | range midpoints, then the single minutes left after removing ranges, then all seconds as one instance |
| EventFeatures.AddMidpoints | dm_v0.5.py:69-72 | the loop adds up the midpoints of the ranges |
| EventFeatures.FirstOfLeadingPhrase | dm_v0.5.py:110-117 | a count phrase right after the leading number is the first one found |
| EventFeatures.NoPhraseAfterNumber | dm_v0.5.py:110-117 | without the phrase no count is found |
| EventFeatures.SeismicityOf | dm_v0.5.py:97-146 | long tremor exactly when a range end or a single duration passes 60; weak exactly with "weak volcanic tremor" |
| EventFeatures.ParseSeismicityAdvanced | dm_v0.5.py:97-146 | the steps yield the seismicity features |
| EventFeatures.TremorDurations | dm_v0.5.py:119-140 | range midpoints plus the single durations; the long flag as in the loops |
| EventFeatures.RangeMinutes | dm_v0.5.py:124-129 | the loop over duration ranges adds up the midpoints and raises the long flag exactly when some range ends above 60 minutes |
| EventFeatures.SingleMinutes | dm_v0.5.py:135-140 | the loop over single durations adds them up and raises the long flag exactly when one exceeds 60 minutes |
| BulletinGenerator.CountOf | reverse_forecast_to_bulletin.py:23 | `max(0, round(x))`: 0 for non-positive figures, otherwise within one half of the figure |
| BulletinGenerator.CountOfWhole | reverse_forecast_to_bulletin.py:23 | a whole count is its own count |
| BulletinGenerator.ReverseEruption | reverse_forecast_to_bulletin.py:22-50 | "0" exactly when the rounded count is 0 |
| BulletinGenerator.MinorMinorReadsZero | reverse_forecast_to_bulletin.py:34-45 | as written, severity 0.5..1 writes "Minor Minor Phreatic", which the parser reads as 0 eruptions |
| BulletinGenerator.PhreaticCellCountedTwice | reverse_forecast_to_bulletin.py:32-33 | severity 1.5..2 writes "n Phreatic Eruption…", which the parser as written counts 2n |
| BulletinGenerator.ReverseEruptionFixed | reverse_forecast_to_bulletin.py:22-50 | corrected, the size named once; "0" exactly for count 0; otherwise the same as written outside 0.5..1 |
| BulletinGenerator.FixedEruptionRoundTrip | reverse_forecast_to_bulletin.py:22-50 | the corrected eruption text reads back, counted once, as the rounded count |
| BulletinGenerator.SeismicityText | reverse_forecast_to_bulletin.py:55-80 | the cell starts with a digit; without tremors it starts with the earthquake count |
| BulletinGenerator.ReverseSeismicity | reverse_forecast_to_bulletin.py:55-80 | the `parts` list yields the seismicity text for the rounded counts |
| BulletinGenerator.SeismicityRoundTrip | reverse_forecast_to_bulletin.py:55-80 | the parser recovers both the earthquake and the tremor count from the text |
| BulletinGenerator.AtLeastOne | reverse_forecast_to_bulletin.py:107 | `max(1, r)`: at least 1, and r itself from 1 up |
| BulletinGenerator.ReverseSo2 | reverse_forecast_to_bulletin.py:104-108 | "Below detection limit" exactly when the flux is not positive; otherwise the cell starts with a digit |
| BulletinGenerator.So2RoundTrip | reverse_forecast_to_bulletin.py:104-108 | the flux text reads back as 0 for non-positive fluxes, otherwise as max(1, round) |
| BulletinGenerator.So2WholeRoundTrip | reverse_forecast_to_bulletin.py:104-108 | a whole flux of at least 1 reads back exactly |
| BulletinGenerator.So2OfLimitPhrase | reverse_forecast_to_bulletin.py:105-106 | "Below detection limit" reads back as 0 |
| BulletinGenerator.PlumeText | reverse_forecast_to_bulletin.py:113-140 | any cell other than "None observed" ends with " drift" |
| BulletinGenerator.ReversePlume | reverse_forecast_to_bulletin.py:113-140 | the `parts` list yields the plume text for the rounded figures and the drift |
| BulletinGenerator.PlumeNoneIff | reverse_forecast_to_bulletin.py:134-138 | "None observed" exactly when the height is 0 and the strength below 1 |
| BulletinGenerator.PlumeEndsWithDrift | reverse_forecast_to_bulletin.py:131-140 | otherwise the parts joined by "; " end in "<drift> drift" |
| BulletinGenerator.PlumeHeightRoundTrip | reverse_forecast_to_bulletin.py:119-121 | a positive height reads back as itself |
| BulletinGenerator.VoluminousRoundTrip | reverse_forecast_to_bulletin.py:124-125 | strength 3 and above reads back as 3 |
| BulletinGenerator.ModerateRoundTrip | reverse_forecast_to_bulletin.py:126-127 | strength 2 reads back as 2 with any of the generator's directions |
| BulletinGenerator.WeakRoundTrip | reverse_forecast_to_bulletin.py:128-129 | strength 1, with one of the generator's drift directions, reads back as 1 |
| BulletinGenerator.NoStrengthRoundTrip | reverse_forecast_to_bulletin.py:113-140 | a strength below 1, with one of the generator's drift directions, reads back as 0 |
| BulletinGenerator.ReverseGroundDeformation | reverse_forecast_to_bulletin.py:145-150 | the text opens with "Long-term deflation" exactly when the alert is at least 1, and with "Long-term inflation" otherwise |
| BulletinGenerator.DeformationRoundTrip | reverse_forecast_to_bulletin.py:145-150 | alert ≥ 1 reads as caldera deflation, long-term deflation and short-term inflation; below 1 as the reverse flags |
| BulletinGenerator.ClipAlert | reverse_forecast_to_bulletin.py:173 | within 1..5, equal to the rounded level when that is within 1..5, otherwise the nearest bound |
| ActivityReport.SelectForecast | app/src/main/java/com/example/taalapppt2/MainActivity.kt:197-204 | 1 chooses tomorrow, 2 the three-day forecast, anything else today |
| ActivityReport.ParseDay | app/src/main/java/com/example/taalapppt2/MainActivity.kt:519 | a parsed date has three "-"-separated parts |
| ActivityReport.DayFromDigits | app/src/main/java/com/example/taalapppt2/MainActivity.kt:519 | "yyyy-mm-dd" reads as its year, month and day |
| ActivityReport.ReadRow | app/src/main/java/com/example/taalapppt2/MainActivity.kt:519-543 | a row exactly when every field parses; columns 21-24 are long-term inflation and deflation, then short-term inflation and deflation |
| ActivityReport.RowOfLine | app/src/main/java/com/example/taalapppt2/MainActivity.kt:515-543 | a row only from at least 25 comma tokens, read from those tokens |
| ActivityReport.RowsComeFromLines | app/src/main/java/com/example/taalapppt2/MainActivity.kt:513-560 | every valid row comes from some line, and every line that reads contributes its row |
| ActivityReport.NoValidRows | app/src/main/java/com/example/taalapppt2/MainActivity.kt:513-560 | no rows exactly when no line reads |
| ActivityReport.WrittenRowReadsBack | app/src/main/java/com/example/taalapppt2/MainActivity.kt:515-543 | 25 comma-free tokens that parse as a row's fields, joined by commas, read back as that row |
| ActivityReport.LatestIndex | app/src/main/java/com/example/taalapppt2/MainActivity.kt:563-566 | the first row with the latest date: no row is later, every earlier row is strictly earlier |
| ActivityReport.LatestIsUnique | app/src/main/java/com/example/taalapppt2/MainActivity.kt:563-566 | that position is the only one with both properties (the stable sort's first element) |
| ActivityReport.Latest | app/src/main/java/com/example/taalapppt2/MainActivity.kt:563-566 | none exactly for no rows; otherwise a row that no row is later than |
| ActivityReport.NoRowExactlyWhenNoLineReads | app/src/main/java/com/example/taalapppt2/MainActivity.kt:563-566 | after the header, no latest row exactly when no data line reads |
| ActivityReport.ReadLine | app/src/main/java/com/example/taalapppt2/MainActivity.kt:515-558 | one line's step gives its row, or skips the line |
| ActivityReport.CollectRows | app/src/main/java/com/example/taalapppt2/MainActivity.kt:513-558 | the line loop collects exactly the rows of the data lines after the header, in order |
| ActivityReport.ReportScreen.constructor | app/src/main/java/com/example/taalapppt2/MainActivity.kt:493-495 | no row, loading, no error |
| ActivityReport.ReportScreen.Load | app/src/main/java/com/example/taalapppt2/MainActivity.kt:497-575 | not loading afterwards; one line or none gives the empty-file error; otherwise the latest valid row, with the no-rows error exactly when there is none |
| ActivityReport.StrengthWord | app/src/main/java/com/example/taalapppt2/MainActivity.kt:679 | "Weak" exactly for strength 0, "Strong" otherwise |
| ActivityReport.TitleFirst | app/src/main/java/com/example/taalapppt2/MainActivity.kt:679 | `replaceFirstChar` titlecase: the first character upper case, the rest unchanged |
| ActivityReport.PlumeDescription | app/src/main/java/com/example/taalapppt2/MainActivity.kt:679 | the plume card names the strength word and the drift direction with its first letter in title case |
| ActivityReport.PlumeDescriptionReadsBack | app/src/main/java/com/example/taalapppt2/MainActivity.kt:679 | the height and whether the strength is 0 can be read back from the plume description |
| ActivityReport.LongTermWord | app/src/main/java/com/example/taalapppt2/MainActivity.kt:685 | "subsidence" exactly with long-term deflation, else "inflation" exactly with inflation, else "stable" |
| ActivityReport.ShortTermWord | app/src/main/java/com/example/taalapppt2/MainActivity.kt:685 | "swelling" exactly with short-term inflation, else "deflation" exactly with deflation, else "stable" |
| ActivityReport.GroundDeformationDescription | app/src/main/java/com/example/taalapppt2/MainActivity.kt:685 | the deformation card names the long-term word and the short-term word its flags choose |
| ActivityReport.GroundDeformationDistinguishes | app/src/main/java/com/example/taalapppt2/MainActivity.kt:685 | two rows with the same description have the same long-term and short-term words |

## Findings

| source | as written | input that shows it | evidently intended | confidence | as-written member | corrected member |
|---|---|---|---|---|---|---|
| dm_v0.5.py:27-38 | the three eruption patterns each run over the whole text and all their captures are summed | "2 phreatic eruptions" gives 4 | each reported phrase counted once | high, not executed | EventFeatures.PhreaticCountedTwice | EventFeatures.PhreaticCountedOnce |
| dm_v0.5.py:199-202 | "north" is tried before "northeast" and "northwest" (likewise south) | "northeast drift" gives "north" | the two-word direction that is written | high, not executed | CellFeatures.NortheastReadsNorth | CellFeatures.NortheastReadsNortheast |
| reverse_forecast_to_bulletin.py:34-45 | severity 0.5..1 gives the type "Minor Phreatic" and also the prefix "Minor " | count 2, severity 0.7 writes "2 Minor Minor Phreatic Eruption events", which reads back as 0 eruptions | the size named once | high, not executed | BulletinGenerator.MinorMinorReadsZero | BulletinGenerator.FixedEruptionRoundTrip |
| reverse_forecast_to_bulletin.py:32-33 | severity 1.5..2 writes "n Phreatic Eruption events", a phrase two parser patterns both count | count 3, severity 1.8 reads back as 6 eruptions | the written count read back once | high, not executed | BulletinGenerator.PhreaticCellCountedTwice | BulletinGenerator.FixedEruptionRoundTrip |
| webscraper.py:1274-1289 | `(\d+)\s*(.+)` backtracks into a bare number, so the default description at 1289 is reached only for one-digit counts | a seismicity cell "12" gives "1 2" | "12 volcanic earthquakes" | high, not executed | UnifiedTable.TwelveReadsOneTwo | UnifiedTable.BareCountDefault |

## Left out

- Network and transport: requests, Jsoup connections, the trust-all SSL factory, timeouts and user agents. A fetch is a parameter holding the page or the error message.
- The Flask routes and JSON responses, the `bulk_scrape` pagination and sleeps, and CSV file reading and writing. Only the link filter, the date choice and the CSV row are modelled.
- The HTML report templating of `generate_html_report`, including its `<` and `>` escaping, and `datetime.now`.
- Real DOM semantics: BeautifulSoup and Jsoup selectors, and `find_table_after_element`. Each page is abstracted to what the extractor reads from it: the text, anchors, labelled cells, table rows and image sources.
- `volcanic_data.update(alert_level_data)` in `scrape` (webscraper.py:152-153): the alert-table helper it calls is not part of this model.
- The duplicate-date check of `bulk_scrape` (webscraper.py:919-927). It depends on `strptime` and on the CSV file already written.
- Floating point. Decimals are exact reals. `round(…, 2)` of the eruption durations is not applied. Python `float()` and Kotlin `toDouble()` / `toDoubleOrNull()` accept only optionally signed digits with an optional fraction here, without exponents, `inf`/`Infinity` or `nan`/`NaN`.
- Unicode. Classes such as `\d` and `\s`, case folding and titlecase cover ASCII only, plus the en dash of the range patterns and "℃".
- Randomness. The drift of `reverse_plume` is a parameter. `reverse_temperature` (random for alert below 1) and `reverse_acidity` (a constant text) are not modelled, and neither are the "enhanced" generators other than the alert clip.
- `getParsedDate` (TaalApiModels.kt:24-31): `SimpleDateFormat` leniency is out of scope. The report screen's "yyyy-MM-dd" dates are read as three numerals separated by "-". Leniency, range checks and trailing text are not modelled.
- The outer `catch` of the CSV load (MainActivity.kt:569-570, "An unexpected error occurred during CSV parsing"). Only the parse failures of single fields are modelled, as skipped lines.
- Exceptions inside the Kotlin extractors other than a failed fetch or parse; `VolcanicData()` on an exception is not reachable in the model.
- The Compose UI, notifications, view models, the Retrofit interface and the forecasting model.
- BulletinDates.MonthDayYear: the second and fourth date patterns ("Month d, yyyy" and "d/m/yyyy") are modelled as matchers but have no round-trip lemma; only the first and third patterns do.
- KotlinToDouble: `Double.parseDouble` also accepts exponents (as in "1e-05", which pandas `to_csv` writes for small values), "NaN", "Infinity" and a trailing d or f. The model rejects them, so `ActivityReport.ReadRow` (MainActivity.kt:521-535) skips a line that the app would keep.
- FindAll: its own contract gives the order and the first match only. That each later match is the next one and that none is skipped is the separate lemma `Scan.FindAllResumes`.
- RemoveAll: its own contract gives a length bound and the no-match case. That it keeps exactly the text between the matches is the separate lemma `Scan.RemoveAllGaps`.
- FormatThousands: its own contract gives the characters used and the short case. Where the commas go is the separate lemma `Numbers.FormatThousandsGrouped`.
- EruptionDurations: its own contract bounds the total. That a range counts once, at its midpoint, and is cut out before single minutes are read is proved for a range alone and for a range followed by one single-minutes figure (`EventFeatures.RangeAlone`, `EventFeatures.RangeThenMinutes`), not for every text.
- SeismicityText: its contract states the leading digits only. What the cell reads back as is `BulletinGenerator.SeismicityRoundTrip`.
- ReverseSo2: its contract separates the below-limit text from the figure. What the figure reads back as is `BulletinGenerator.So2RoundTrip`.
- PlumeText: its contract states the closing drift only. What the cell reads back as is stated by the plume round-trip lemmas.
- PlumeDescription: its contract states the words the card names. That the height, and whether the strength is 0, read back from the card is `ActivityReport.PlumeDescriptionReadsBack`.
- BulletinGenerator.DeformationRoundTrip: states only the flags each generated text sets, not that the other flags stay 0.
- ActivityReport.LatestIndex: `sortedByDescending` is modelled only through its first element, the stable choice among equal dates.
- BulletinText.ParseVolcanicData: the Python dict is a record. Key order and the literal `None` values are represented by `Option` fields.
