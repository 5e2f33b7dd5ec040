# wvhMap core in Dafny

A model of the data pipeline behind the wild-bird rescue map (wvhMap). Three
scrapers collect rescue stations:

- `scraper.py` reads the Wildvogelhilfe directory pages heading by heading.
- `simple_scraper.py` reads the same pages block by block.
- `scraper_nabu_wvh.py` reads the NABU map export.

Three maintenance scripts then work on the saved station list:

- `fix_coordinates.py` places stations by their postal code (PLZ).
- `remove_coordinates.py` strips coarse coordinates.
- `auto_update_cache.py` fills the geocode cache with the locations it lacks.

Finally, `js/map.js` shows the list on a map with popups and a statistics line.

Each source file is one module:

| module | file |
|---|---|
| FixCoordinates | fix_coordinates.dfy |
| RemoveCoordinates | remove_coordinates.dfy |
| AutoUpdateCache | auto_update_cache.dfy |
| Scraper | scraper.dfy |
| SimpleScraper | simple_scraper.dfy |
| NabuScraper | nabu_scraper.dfy |
| MapView | map_view.dfy |

Support modules give the Python and JavaScript built-ins the code relies on:

- `Common` provides Option, counting, keeping and Python slicing.
- `Text` provides `strip`, `split`, `join`, `lower` and `re.sub(r'\s+', ' ', …)`.
- `Regex` is a backtracking matcher that tries alternatives in Python `re` order: greedy and lazy repeats, alternation order, `\b`, `^`, `$` and look-ahead. Each regular expression of the source is written out over it.
- `Records` models a JSON object as `map<string, Value>`, with Python truthiness.
- `Sorting` is a stable insertion sort for `list.sort` and `Array.prototype.sort`.

## How the model maps the code

**Objects whose fields the code updates are classes:**

- `Scraper.WildvogelhilfeScraper` holds `stations`.
- `NabuScraper.NabuMapsScraper` holds `data` and `existingData`.
- `MapView.WildvogelhilfeMap` holds `stations`.

**In-place loops:**

- The loops that edit the loaded station list in place work on an `array<Record>`: `FixCoordinates.FixCoordinatesInJson` and `RemoveCoordinates.RemoveRoughCoordinates`.
- The other loops are methods with loop invariants. Each is proved equal to a specification function, and the properties the code promises are proved about that function as lemmas.

**What becomes a parameter:**

- HTML parsing becomes a sequence of elements with their tag, text and link targets.
- The network becomes a parameter:
  - a directory page is its URL and its headings, or `None` when it could not be fetched or had no content;
  - a geocoder is a function from a query to an optional coordinate pair.
- Files are the values read or written.

**Numbers:**

- Coordinates in `fix_coordinates.py` are integers in units of 1e-4 degrees. That is exactly what `round(x, 4)` keeps.
- Coordinates elsewhere are `real`.

**Specification functions.** Several source functions are modelled by a function without a contract of its own. The lemmas and methods named beside each state what it computes, and carry the rows in the table below:

- `Scraper.RegionFromUrl` (scraper.py:47-58): `RegionFromUrlSpec`.
- `Scraper.Analyze` (scraper.py:137-184): `AnalyzeAddressParts`, `AnalyzeSpecialization`, `AnalyzeLinks`, `AnalyzePhone`, `AnalyzeOpeningHours` and the loop `AnalyzeBlocks`.
- `Scraper.ParsedStation` (scraper.py:105-213): `ParsedStationWhen`, `ParsedStationFields`, `ParsedStationContents` and the method `ParseStationBlock`.
- `Scraper.Dedup` (scraper.py:287-299): `DedupStations`, `DedupValid`, `DedupPrefers` and `DedupSingle`.
- `SimpleScraper.Blocks` (simple_scraper.py:229-262): `BlocksShape`, `BlocksAreBlocks`, `BlocksCount` and `BlocksAppend`.
- `SimpleScraper.PageStations` (simple_scraper.py:204-269): `ScrapePage`, `PageAsWritten` and `PageStationsAppend`.
- `NabuScraper.Duplicate` (scraper_nabu_wvh.py:58-65): `DuplicateIff`.
- `NabuScraper.ExtractPlzInfo` (scraper_nabu_wvh.py:67-97): `ExtractPlzInfoCases` and `ExtractPlzInfoCode`.
- `NabuScraper.CleanText` (scraper_nabu_wvh.py:99-109): `CleanTextClean` and `CleanTextPlain`.
- `NabuScraper.ExtractContactInfo` (scraper_nabu_wvh.py:111-152): its four fields are `PhoneOf`, `FaxOf`, `EmailOf` and `WebsiteOf`, stated by `PhoneOf`, `FaxOf`, `EmailShaped`, `WebsiteShaped` and `FirstMatchFound`.
- `NabuScraper.KmlEntry` (scraper_nabu_wvh.py:221-333): `KmlEntryFields`.
- `NabuScraper.DescriptionEntry` (scraper_nabu_wvh.py:416-543): `DescriptionNeverNotesContact` and `DescriptionCityIsLastCityLine`.
- `NabuScraper.MarkerEntry` (scraper_nabu_wvh.py:545-605): `MarkerEntryFields`.
- `AutoUpdateCache.CacheKey` (auto_update_cache.py:84-90): `CacheKeyParts` and `CacheKeyInjective`.
- `AutoUpdateCache.ScanLocations` (auto_update_cache.py:134-156): `ScanFacts` and the other `Scan` lemmas, and the loop `FindMissingLocations`.
- `AutoUpdateCache.Filled` (auto_update_cache.py:217-232): `FilledKeys`, `FilledEntries`, `FilledFacts` and the loop `FillCache`.
- `FixCoordinates.BaseFor` (fix_coordinates.py:30-111): `CoordinatesForEveryDigitCode`, `BaseByFirstTwoDigits` and `SameThousand`.
- `MapView.PopupContent` (js/map.js:156-177): `CreatePopupContent`, `PopupSections`, `PopupMinimal` and `PopupIgnoresFalsy`.
- `MapView.StatsText` (js/map.js:191-203): `StatsTextSpec` and the method `UpdateStats`.

**Where the system's written design and its code part ways, the model follows the code:**

- **Fallback offsets.** The fallback coordinate takes its offset from the last three digits of the PLZ, linearly: `(last % 100 - 50) * 0.003` degrees of latitude and `((last / 100) % 10 - 5) * 0.03` of longitude. No digest is involved.
- **Deduplication in `scraper.py`.** Stations are merged by `name.lower()` and `plz_prefix`. The address-substring rule exists only in the NABU scraper's `is_duplicate`, and only one way round: a known address inside the new one.
- **Links and phone in `scraper.py`:**
  - e-mail and website come from the *last* matching link of the station's blocks;
  - the phone comes from the *last* block with a phone.
  - `simple_scraper.py` takes the first link.
- **Postcode search.** `simple_scraper.py` searches the whole block text for the leftmost code and city, not line by line. A four-digit code gives `plz_prefix` = its first two digits, not a country name.
- **Clean-up in `save_to_json`.** The clean-up has no effect on what is written (see Findings).

## Model

| member | source | states |
|---|---|---|
| FixCoordinates.PlzAtIsolated | fix_coordinates.py:13 | the pattern `\b(\d{5})\b` matches at `i` exactly when five digits stand there with no word character on either side, and it yields those digits |
| FixCoordinates.ExtractPlz | fix_coordinates.py:10-16 | a PLZ is found exactly when some isolated five-digit code exists; it is five digits and is the leftmost such code of the address |
| FixCoordinates.GetCoordinates | fix_coordinates.py:18-124 | no point unless the code has five characters; a point lies within the variation bounds (−0.15…+0.147 latitude, −0.15…+0.12 longitude) around its region's base point |
| FixCoordinates.OffsetsFollowFormula | fix_coordinates.py:115-119 | the two offsets are the source's formulas on `int(plz[2:5])`, scaled to 1e-4 degrees |
| FixCoordinates.FiveDigitsValue | fix_coordinates.py:27 | `int(plz)` and `int(plz[2:5])` are the positional values of the digits |
| FixCoordinates.CoordinatesForEveryDigitCode | fix_coordinates.py:30-111 | every five-digit code has a base point, so every such code gets coordinates, and both are non-zero (`if lat and lon` always holds) |
| FixCoordinates.BaseByFirstTwoDigits | fix_coordinates.py:30-111 | the base point depends on the first two digits only, since every threshold is a multiple of 1000 |
| FixCoordinates.SameThousand | fix_coordinates.py:30-111 | codes in the same block of a thousand share their base point |
| FixCoordinates.Example70772 | fix_coordinates.py:18-124 | PLZ 70772 maps to (48.866, 9.26) |
| FixCoordinates.WillFixIffPlz | fix_coordinates.py:140-146 | a station is rewritten exactly when its address holds an isolated five-digit code |
| FixCoordinates.FixedFields | fix_coordinates.py:142-154 | a station with a PLZ gets latitude, longitude, plz and plz_prefix (its first digit) written, overwriting old values; every other field is kept; a station without one is unchanged |
| FixCoordinates.FixStation | fix_coordinates.py:139-163 | the loop body returns the rewritten station and whether it counted as fixed |
| FixCoordinates.FixAt | fix_coordinates.py:138-163 | one pass of the loop replaces station `i` of the array by its rewritten form and leaves every other station alone |
| FixCoordinates.FixCoordinatesInJson | fix_coordinates.py:135-163 | in place, every station of the array becomes its rewritten form; `fixed` counts those with a PLZ and `fixed + skipped` is the length |
| FixCoordinates.FixedAll | fix_coordinates.py:138-163 | passing every station through the loop body neither adds nor drops a station |
| FixCoordinates.FixedCountIsPlzCount | fix_coordinates.py:157-163 | the fixed count is the number of stations whose address holds a PLZ |
| RemoveCoordinates.WithoutCoords | remove_coordinates.py:33-39 | latitude and longitude are absent afterwards, every other field is kept unchanged |
| RemoveCoordinates.StripStation | remove_coordinates.py:30-42 | the loop body gives the station without coordinates and whether it had any |
| RemoveCoordinates.RemoveRoughCoordinates | remove_coordinates.py:28-42 | in place, every station loses its coordinate fields and the count is the number of stations that had one |
| RemoveCoordinates.WithoutCoordsAll | remove_coordinates.py:29-39 | passing every station through the loop body neither adds nor drops a station |
| RemoveCoordinates.RemoveTwice | remove_coordinates.py:28-42 | a second run finds nothing to count and changes nothing |
| RemoveCoordinates.NothingToRemove | remove_coordinates.py:28-42 | a list without coordinates is left as it is |
| AutoUpdateCache.TailAtIff | auto_update_cache.py:49 | the tail `(?:\s*,\|\s*$)` matches exactly when the whitespace that follows runs into a comma or the end |
| AutoUpdateCache.CityEnd | auto_update_cache.py:49 | the lazy city group ends where the tail matches and is that slice of the address |
| AutoUpdateCache.CityFrom | auto_update_cache.py:49 | the city group found is non-empty and made of city characters |
| AutoUpdateCache.CityFromShortest | auto_update_cache.py:49 | the lazy city group from a position is the slice up to the least end past it where the tail matches |
| AutoUpdateCache.CityFromNoneIff | auto_update_cache.py:49 | there is no city group from a position exactly when the tail matches at no end inside the run of city characters |
| AutoUpdateCache.LocationAt | auto_update_cache.py:49 | a match at a position yields the `n` digits found there, after a word boundary, and a non-empty city group of city characters |
| AutoUpdateCache.LocationAtCity | auto_update_cache.py:49 | the city group of a match comes from the last end of the greedy whitespace run after the code where a city group follows |
| AutoUpdateCache.LocationAtCityAt | auto_update_cache.py:49 | where the code stands after a boundary, a city group after any end of the whitespace run makes the pattern match |
| AutoUpdateCache.LocationAtNone | auto_update_cache.py:49 | the pattern fails at a position exactly when no boundary and `n` digits stand there, or no end of the whitespace run after them is followed by a city group |
| AutoUpdateCache.SearchLocation | auto_update_cache.py:49 | the search yields an `n`-digit code and a non-empty city group of city characters |
| AutoUpdateCache.SearchLocationLeftmost | auto_update_cache.py:49 | the search yields the match at the leftmost position where the pattern matches, and nothing exactly when it matches nowhere |
| AutoUpdateCache.StrippedCity | auto_update_cache.py:52 | stripping the city group keeps city characters and leaves nothing more to strip |
| AutoUpdateCache.ExtractLocation | auto_update_cache.py:41-82 | no address gives none; the five-digit pattern wins when it matches, else the four-digit one decides; the code is the one that search found and the city its group stripped; the country comes from `plz_prefix`, and a four-digit code never yields Italy |
| AutoUpdateCache.NormalizeCity | auto_update_cache.py:87-88 | the city in a key is lower case with nothing left to strip |
| AutoUpdateCache.NormalizeCityIdempotent | auto_update_cache.py:87-88 | normalising a normalised city changes nothing |
| AutoUpdateCache.NoBarAfterNormalize | auto_update_cache.py:87-88 | normalising never introduces the key separator `\|` |
| AutoUpdateCache.CacheKeyParts | auto_update_cache.py:84-90 | a key of separator-free parts splits back into code, normalised city and country |
| AutoUpdateCache.CacheKeyInjective | auto_update_cache.py:84-90 | two extracted locations share a key exactly when code, normalised city and country agree |
| AutoUpdateCache.ExtractedHasNoBar | auto_update_cache.py:49-78 | extracted code, city and country never contain `\|` |
| AutoUpdateCache.CountryCode | auto_update_cache.py:124-132 | the ISO code of each of the four countries, ignoring case, and `de` for anything else |
| AutoUpdateCache.KnownCountryCode | auto_update_cache.py:124-132 | every country the extraction yields has its own code; none falls through to the default |
| AutoUpdateCache.ScanOne | auto_update_cache.py:140-154 | one pass of the loop: a location whose key was not seen is recorded, and listed when the cache lacks it |
| AutoUpdateCache.FindMissingLocations | auto_update_cache.py:134-156 | the loop returns the missing list of the scan over the extracted locations |
| AutoUpdateCache.ScanSeen | auto_update_cache.py:148-150 | the seen set is exactly the set of keys of the extracted locations |
| AutoUpdateCache.ScanMissingFresh | auto_update_cache.py:147-154 | no missing entry has a cached key, and no key appears twice |
| AutoUpdateCache.ScanMissingSound | auto_update_cache.py:139-154 | every missing entry is a location extracted from some station |
| AutoUpdateCache.ScanMissingComplete | auto_update_cache.py:147-154 | every seen key that is not cached has an entry in the missing list |
| AutoUpdateCache.ScanFacts | auto_update_cache.py:134-156 | together: the missing list holds each uncached extracted key exactly once, and nothing else |
| AutoUpdateCache.FillCache | auto_update_cache.py:217-232 | the loop over `missing[:max]` stores each request's answer or the `[None, None]` marker under its key; the two counters add up to the batch size and the first counts the answers found |
| AutoUpdateCache.FilledKeys | auto_update_cache.py:220-232 | filling writes exactly the batch's keys; every other entry, failure markers included, keeps its value |
| AutoUpdateCache.FilledEntries | auto_update_cache.py:227-231 | with distinct keys, each request's own answer is what ends up stored |
| AutoUpdateCache.BatchKeysSize | auto_update_cache.py:220-231 | distinct keys give one new key per request |
| AutoUpdateCache.FilledFacts | auto_update_cache.py:220-232 | with fresh, distinct keys the cache keeps every old entry, grows by one entry per request and stores each answer |
| AutoUpdateCache.UpdateCache | auto_update_cache.py:168-247 | no stations, nothing missing, a dry run listing `missing[:max]`, or else the cache filled with `missing[:max]`; in that case the new count is the number of requests that found coordinates and the two counts add up to the batch size |
| AutoUpdateCache.CacheGrowth | auto_update_cache.py:196-232 | a run grows the cache by exactly `min(len(missing), max)` entries and never loses or overwrites an entry, failure markers included |
| Common.SliceTo | auto_update_cache.py:206 | Python's `xs[:n]` is a prefix of length `min(n, len)`, or `len + n` for negative `n` |
| Scraper.SecondPiece | scraper.py:50 | `split('plz-gebiet-')[1]` is the text from the first marker up to the next marker or the end, with no marker inside |
| Scraper.RegionFromUrlSpec | scraper.py:47-58 | with the marker, the region is the text after it up to the next `/`; without it, Austria, Switzerland or Italy by substring in that order, and "unbekannt" exactly when none occurs |
| Scraper.StopAt | scraper.py:125-129 | the walk stops at the first h3 or hr, or at the end |
| Scraper.TextBlockOf | scraper.py:130-133 | a sibling is kept exactly when its stripped text is longer than two characters, with that text |
| Scraper.CollectTextBlocks | scraper.py:121-135 | the walk collects the kept siblings before the stop, in order |
| Scraper.TextBlocksFromWalk | scraper.py:121-135 | every text block comes from a sibling before the stop and has more than two stripped characters |
| Scraper.PhoneRunAt | scraper.py:153 | the phone group is a non-empty run of phone characters |
| Scraper.TelPhoneAt | scraper.py:153 | a phone match starts with a `Tel`/`tel` label and captures phone characters |
| Scraper.SearchTelPhone | scraper.py:152-155 | a phone found holds only phone characters, and the text has a `Tel` label |
| Scraper.CityRunAt | scraper.py:158 | the city group is a non-empty run of city characters |
| Scraper.CodeCityFrom | scraper.py:158 | the code is the slice before the whitespace and the city group is non-empty |
| Scraper.FiveDigitCityAt | scraper.py:158 | a match is five digits at a word boundary followed by a city group |
| Scraper.SearchFiveDigitCity | scraper.py:158 | the search returns the leftmost position where the pattern matches, or none exactly when it matches nowhere |
| Scraper.AddressPart | scraper.py:157-169 | a block adds an address part exactly when it has a code and a city; the part is non-empty; it is "before, plz city" stripped of commas and spaces when the text before the code is non-empty and names no contact word, and "plz city" otherwise |
| Scraper.StreetAddressNotEmpty | scraper.py:166 | `.strip(', ')` never empties an address that holds a postcode |
| Scraper.AnalyzeAddressParts | scraper.py:137-169 | every block with a code adds its non-empty address part, in block order |
| Scraper.AnalyzeSpecialization | scraper.py:171-179 | only the first block with a keyword sets the specialization |
| Scraper.AnalyzeLinks | scraper.py:139-149 | the e-mail comes from the last `mailto:` link and the website from the last web link of all blocks |
| Scraper.AnalyzePhone | scraper.py:151-155 | the phone comes from the last block with a phone match |
| Scraper.AnalyzeOpeningHours | scraper.py:181-184 | the opening hours come from the last block that names a day or a time range together with "uhr" or "erreichbarkeit" |
| Scraper.LastOfBlocks | scraper.py:181-184 | the block returned passes the test and is one of the blocks |
| Scraper.EmailFromLinks | scraper.py:140-142 | the link loop leaves the e-mail of the last `mailto:` link, or the earlier value |
| Scraper.WebsiteFromLinks | scraper.py:145-149 | the link loop leaves the last web link, or the earlier value |
| Scraper.ReadBlock | scraper.py:138-184 | one pass of the analysis loop is one step of the field rules |
| Scraper.AnalyzeBlocks | scraper.py:137-184 | the analysis gives the fields of all blocks, or gives up when a block is a bare text node (its `find_all` raises and the handler at 211-213 returns None) |
| Scraper.GapEnd | scraper.py:275 | `.*?(?=\d{5}\|$)` ends at a position within the text |
| Scraper.LabelGapAt | scraper.py:275-276 | a label match starts with its label and ends within the text |
| Scraper.MailTailAt | scraper.py:277 | an e-mail match starts with its label and ends within the text |
| Scraper.FirstAddress | scraper.py:270-272 | the first of several addresses holds no `\|`; a single address is unchanged |
| Scraper.DropLabelGaps | scraper.py:275-276 | deleting label matches never brings in a `\|`, and text without a label is unchanged |
| Scraper.DropMailTails | scraper.py:277 | the same for e-mail labels |
| Scraper.TelKeptBeforeLineBreak | scraper.py:275 | the phone pattern leaves `"Tel\n12345 Berlin"` unchanged: the lazy gap stops at the line break, where neither five digits nor the end follow |
| Scraper.MailTailsGone | scraper.py:277 | deleting each e-mail label with the rest of its line leaves no label, even where text on both sides of a deletion meets |
| Scraper.NormalizeSpaces | scraper.py:280 | the result has single plain spaces between words and nothing to strip |
| Scraper.CleanAddressForGeocoding | scraper.py:268-282 | the cleaned address holds no `\|`, has single plain spaces and nothing to strip; an address without labels is only collapsed and trimmed |
| Scraper.CleanAddressNoMailLabel | scraper.py:277-282 | no `[Ee]-?[Mm]ail:` label is left in a cleaned address |
| Scraper.CleanAddressFirstOnly | scraper.py:271-272 | of several addresses joined by `\|`, only the first, stripped, is cleaned; whatever follows the first bar makes no difference |
| Scraper.CountryForRegion | scraper.py:221-229 | Austria, Switzerland or Italy for their regions, Germany exactly for every other region |
| Scraper.SearchShortCodeCity | scraper.py:250 | the fallback finds a four- or five-digit code and a city group |
| Scraper.WithCountry | scraper.py:232 | a query ends in ", country" |
| Scraper.GeocodeQueries | scraper.py:219-252 | the cleaned address with the country first, then the code and city with the country exactly when the fallback pattern matches |
| Scraper.QueriesFor | scraper.py:232 | the same, for an already cleaned address and search result |
| Scraper.FirstAnswer | scraper.py:234-260 | the answer is that of one of the queries, the first query's whenever it has one, and none exactly when no query has an answer |
| Scraper.FirstAnswerOfTwo | scraper.py:234-262 | with one or two queries, the second query is asked only when the first has no answer |
| Scraper.GeocodeOrder | scraper.py:215-262 | coordinates come from the cleaned address when the service knows it, else from the code and city, else none |
| Scraper.Coordinate | scraper.py:204-205 | a coordinate field is a number exactly when there is an answer, and null otherwise |
| Scraper.StationRecord | scraper.py:196-207 | the record has exactly the ten fields, each holding the value given: name, specialization, address, phone, email, website, opening hours, region and the coordinates |
| Scraper.StationRecordWellFormed | scraper.py:196-207 | a record built from a stripped name of three or more characters and a non-empty address is well formed |
| Scraper.ParsedStationWhen | scraper.py:105-191 | a heading gives no station exactly when its name is shorter than three characters, a block is a bare text node, or no block has a postcode |
| Scraper.ParsedStationFields | scraper.py:186-209 | a station carries the stripped heading as name, the region, the address parts joined by " \| ", and coordinates exactly when geocoding answered |
| Scraper.ParsedStationContents | scraper.py:137-207 | a station's specialization is that of the first block with a keyword, its phone the last phone found, its e-mail the last `mailto:` link, its website the last web link and its opening hours the last opening-hours block |
| Scraper.ParseStationBlock | scraper.py:105-213 | the method returns the parsed station of the heading |
| Scraper.DropLeadingLabel | scraper.py:348-349 | removing a leading label leaves a suffix of the text |
| Scraper.LeadingLabelEnd | scraper.py:348-349 | a leading label ends after its letters, within the text |
| Scraper.BeforeFax | scraper.py:352 | the text before the first fax label is a prefix, and the whole text when there is no label |
| Scraper.DropParenTail | scraper.py:355 | removing a trailing remark in brackets leaves a prefix, and text without a bracket is unchanged |
| Scraper.CleanPhone | scraper.py:342-360 | the cleaned phone has nothing left to strip |
| Scraper.DigitsSurviveTail | scraper.py:352-358 | digits after a label-free prefix survive the fax cut, the bracket removal and the strip |
| Scraper.CleanPhoneTelefonAsWritten | scraper.py:348-349 | as written, `Telefon: <digits>` becomes `efon: <digits>` |
| Scraper.TelMatchesTelefon | scraper.py:348 | the short label removes only `Tel` from `Telefon: <digits>` |
| Scraper.NoLabelAtE | scraper.py:349 | the long label then finds nothing at `efon` |
| Scraper.TelefonMatchesTelefon | scraper.py:349 | the long label takes all of `Telefon: ` off `Telefon: <digits>` |
| Scraper.NoLabelAtDigit | scraper.py:348-349 | text that starts with digits has no leading label to remove |
| Scraper.ElefonMissesTel | scraper.py:349 | the long label finds nothing in `Tel: <digits>` |
| Scraper.TelMatchesTel | scraper.py:348 | the short label takes `Tel: ` off `Tel: <digits>` |
| Scraper.CleanPhoneFixed | scraper.py:342-360 | with the longer label tried first, the cleaned phone has nothing left to strip |
| Scraper.CleanPhoneFixedTelefon | scraper.py:348-349 | with the longer label first, `Telefon: <digits>` becomes the digits |
| Scraper.CleanPhoneFixedTel | scraper.py:348-349 | with the longer label first, `Tel: <digits>` still becomes the digits |
| Scraper.AddUnique | scraper.py:288-299 | one pass of the dedup loop is one dedup step over the dictionary of unique stations |
| Scraper.DedupStations | scraper.py:287-299 | the loop builds the dictionary of unique stations of the list |
| Scraper.DedupValid | scraper.py:287-299 | every key the dictionary lists is in it, exactly once |
| Scraper.ValuesOf | scraper.py:301 | the values in key order, one per key |
| Scraper.ValuesInOrder | scraper.py:301 | `list(unique_stations.values())` is those values in the order the keys were first inserted |
| Scraper.FirstMatch | scraper.py:294-299 | the first station with the key, optionally with coordinates, or none when no station matches |
| Scraper.DedupPrefers | scraper.py:287-299 | a key is kept exactly when some station with a name and an address has it; the station kept is the first with coordinates, or the first when none has coordinates |
| Scraper.PreferredLocated | scraper.py:298-299 | the kept station has coordinates exactly when some station with its key has them |
| Scraper.PlzLeqTotal | scraper.py:304 | ordering by `plz_prefix` is a total preorder |
| Scraper.SavedSorted | scraper.py:301-304 | the saved list is sorted by `plz_prefix` and is a permutation of the unique stations |
| Scraper.SavedStable | scraper.py:304 | stations with equal `plz_prefix` keep their first-seen order |
| Scraper.WildvogelhilfeScraper.SaveToJson | scraper.py:284-317 | for stations that all have a text name, what is written is the deduplicated, sorted list as collected |
| Scraper.SavedKeepsEmptyFields | scraper.py:307-317 | a station with an empty phone is written with that empty field |
| Scraper.WellFormedKept | scraper.py:293 | a station that `parse_station_block` can return has a name and an address, so `save_to_json` keeps it |
| Scraper.DedupSingle | scraper.py:287-299 | one station gives a dictionary of that station alone |
| Scraper.CleanedForSave | scraper.py:307-313 | the intended clean-up: exactly the truthy fields are kept, unchanged, with the phone cleaned |
| Scraper.SavedCleaned | scraper.py:301-317 | the saved list with that clean-up applied to each station |
| Scraper.SavedCleanedHasNoEmptyFields | scraper.py:307-313 | after the intended clean-up, no field other than the phone is empty |
| Scraper.ParseHeadings | scraper.py:88-95 | the heading loop collects the parsed stations in heading order |
| Scraper.ParsedStationFrom | scraper.py:105-209 | a returned station is well formed and carries the region |
| Scraper.AreaStationsFromRegion | scraper.py:91-95 | every station a page adds is well formed and carries the page's region |
| Scraper.AppendFromRegion | scraper.py:94 | appending well-formed stations of one region keeps every collected station well formed |
| Scraper.AppendArea | scraper.py:91-95 | appending a page's stations keeps every collected station well formed |
| Scraper.PagesStationsPrefix | scraper.py:39-44 | the pages up to page `i` add the earlier pages' stations, then page `i`'s |
| Scraper.WildvogelhilfeScraper.constructor | scraper.py:31 | the scraper starts with no stations |
| Scraper.WildvogelhilfeScraper.ScrapePlzArea | scraper.py:60-103 | the page's stations are appended in heading order, and a page without content adds none |
| Scraper.WildvogelhilfeScraper.ScrapePage | scraper.py:39-44 | a page is scraped with the region its URL names |
| Scraper.WildvogelhilfeScraper.ScrapeAllPlzAreas | scraper.py:37-45 | the stations of all pages are appended in page order and stay well formed |
| Sorting.SortBy | scraper.py:304 | the sort is a permutation of its input |
| Sorting.SortBySorted | scraper.py:304 | under a total preorder the sort orders its output |
| Sorting.SortByStable | scraper.py:304 | the sort is stable: elements tied with any value keep their relative order |
| Sorting.ByIntKeyDescending | js/map.js:195 | ordering by a count, larger first, is a total preorder |
| SimpleScraper.LeadingParagraphs | simple_scraper.py:242-244 | the paragraphs that join an open block are the run of `p` elements after it |
| SimpleScraper.BlocksShape | simple_scraper.py:225-262 | every block starts with its h3 and holds only paragraphs after it, and there is exactly one block per h3 |
| SimpleScraper.BlocksAreBlocks | simple_scraper.py:229-254 | every block starts with its h3 and holds only paragraphs after it |
| SimpleScraper.BlocksCount | simple_scraper.py:229-262 | there is exactly one block per h3 |
| SimpleScraper.LeadingElementsDiscarded | simple_scraper.py:242-244 | elements before the first h3 open no block and join none |
| SimpleScraper.BlocksAppend | simple_scraper.py:229-262 | a page cut before an h3 or hr has the blocks of its two parts, in order |
| SimpleScraper.PendingParagraph | simple_scraper.py:242-244 | a paragraph joins the open block |
| SimpleScraper.PendingClose | simple_scraper.py:230-254 | an h3 or hr closes the open block |
| SimpleScraper.PendingOpen | simple_scraper.py:230-244 | with no block open, an h3 opens one and a paragraph is passed over |
| SimpleScraper.CityGroupAt | simple_scraper.py:107 | the city group starts with a letter and holds city characters |
| SimpleScraper.CityAfterSpaces | simple_scraper.py:107 | after the whitespace, the city group starts with a letter; with no match, no length of the whitespace is followed by a city |
| SimpleScraper.PlzCityFrom | simple_scraper.py:107 | the code is the digits before the whitespace, and the city starts with a letter |
| SimpleScraper.SearchPlzCity | simple_scraper.py:107 | a match found is one the pattern makes at that position, with a four- or five-digit code and a city group |
| SimpleScraper.PlzCityFound | simple_scraper.py:107 | five digits, a space and a letter always match |
| SimpleScraper.SearchPlzCityFinds | simple_scraper.py:107-110 | the search finds a match whenever the pattern matches somewhere |
| SimpleScraper.HouseLetterFrom | simple_scraper.py:117 | `[a-z]?\s*$` takes one lower-case letter or none, with only whitespace after |
| SimpleScraper.HouseLetterNotAtDigit | simple_scraper.py:117 | backtracking into the house number's digits cannot match, so only the longest digit run counts |
| SimpleScraper.HouseNumberParts | simple_scraper.py:117 | a house number is digits, an optional lower-case letter, and only whitespace to the end |
| SimpleScraper.HouseNumberNeedsDigits | simple_scraper.py:117 | a house number starts with a digit |
| SimpleScraper.StreetAtEnds | simple_scraper.py:117 | a street group starts with a letter and ends in a house number with only whitespace after it |
| SimpleScraper.SearchStreet | simple_scraper.py:116-117 | the street found starts with a letter, ends in a house number, and only whitespace follows it before the code |
| SimpleScraper.Address | simple_scraper.py:115-122 | with a street before the code, the address is the stripped street match, ", " and "plz city"; without one it is just "plz city" |
| SimpleScraper.PhoneGroupAt | simple_scraper.py:126-128 | the phone group has at least eight phone characters |
| SimpleScraper.PhoneAt | simple_scraper.py:126-128 | a label match captures at least eight phone characters |
| SimpleScraper.SearchPhone | simple_scraper.py:133 | the same for the leftmost match |
| SimpleScraper.PhoneFrom | simple_scraper.py:131-138 | the phone holds phone characters only |
| SimpleScraper.FirstH3 | simple_scraper.py:99-101 | the first h3 of the block, or none exactly when the block has no h3 |
| SimpleScraper.FirstHref | simple_scraper.py:142-150 | the first link that passes the test, or none when none passes |
| SimpleScraper.LineWith | simple_scraper.py:162-166 | the line found holds the keyword in lower case, and is stripped |
| SimpleScraper.SpecializationNotEmpty | simple_scraper.py:153-167 | with keywords that start with a non-space character, the specialization is never empty |
| SimpleScraper.Specialization | simple_scraper.py:152-167 | the default, or a stripped line that holds one of the keywords |
| SimpleScraper.SpecializationPresent | simple_scraper.py:152-167 | the specialization is never empty, so it is never dropped |
| SimpleScraper.CountryOf | simple_scraper.py:172-179 | Austria, Switzerland or Italy for their region labels, Germany for every other label |
| SimpleScraper.PlzPrefix | simple_scraper.py:190 | a prefix of the code: one digit for five digits, two for four |
| SimpleScraper.StationRecord | simple_scraper.py:181-196 | after falsy fields are dropped, every field left is non-empty text; specialization, address, plz_prefix and country are present with their values; name, region, phone, e-mail and website are present exactly when non-empty, and then with the value given; no other field appears |
| SimpleScraper.StationOf | simple_scraper.py:103-196 | the record of a block with a found code and city: the address built from the text before the code, the specialization found, the name when non-empty, phone, e-mail and website exactly when found and with the values found, and the prefix of the code |
| SimpleScraper.ExtractStationInfo | simple_scraper.py:95-202 | none exactly without an h3 or without a code and city; otherwise the record with the fields above |
| SimpleScraper.ExtractStationContents | simple_scraper.py:103-196 | a block's record has the address built from the text before the code, the specialization found, the stripped h3 text as name, and phone, e-mail and website exactly when found, with the values found |
| SimpleScraper.TwoElementBlockYields | simple_scraper.py:95-198 | a heading and a paragraph with five digits, a space and a letter yield a record, named exactly when the heading is not blank |
| SimpleScraper.CloseBlock | simple_scraper.py:232-237 | closing a block adds its record; logging `station['name']` fails exactly when the record has no name |
| SimpleScraper.ScrapeBlocks | simple_scraper.py:223-265 | the element loop returns every block's record in order when all have names, and nothing when one lacks a name |
| SimpleScraper.ScrapePage | simple_scraper.py:204-269 | `scrape_page` returns the records of the page's blocks when every record has a name, and none otherwise |
| SimpleScraper.PageAsWritten | simple_scraper.py:204-269 | a page gives all its records, or none at all |
| SimpleScraper.NamelessBlockEmptiesPage | simple_scraper.py:235-237 | two coded blocks, the first with a blank heading, give two records, not all named |
| SimpleScraper.NamelessFound | simple_scraper.py:235-237 | one block whose record has no name is enough for the page not to be all named |
| SimpleScraper.NamelessExample | simple_scraper.py:229-269 | a page of a blank-named block and a named block has two records, yet `scrape_page` returns none |
| SimpleScraper.PageStationsAppend | simple_scraper.py:229-262 | with the logging fixed, a page cut before an h3 or hr gives the records of its two parts, in order |
| NabuScraper.DuplicateIff | scraper_nabu_wvh.py:58-65 | over readable entries, a duplicate exactly when some entry has the same name ignoring case, or an address of more than ten characters contained in the new address ignoring case |
| NabuScraper.NabuMapsScraper.IsDuplicate | scraper_nabu_wvh.py:58-65 | the method answers the duplicate check over the known entries |
| NabuScraper.SearchFour | scraper_nabu_wvh.py:79 | a four-digit code isolated by word boundaries, or none exactly when there is no such code |
| NabuScraper.ExtractPlzInfoCases | scraper_nabu_wvh.py:67-97 | a five-digit code gives its first digit, "PLZ d" and Germany; otherwise a four-digit code counts beside an Austrian word (checked first) or a Swiss word; anything else is the fallback |
| NabuScraper.ExtractPlzInfoCode | scraper_nabu_wvh.py:67-97 | only the fallback has no code, and a code always comes with a prefix and a known region |
| NabuScraper.TagAt | scraper_nabu_wvh.py:106 | a tag match ends after its start, within the text |
| NabuScraper.BackslashesAt | scraper_nabu_wvh.py:108 | a backslash match is the run of backslashes |
| NabuScraper.CleanTextClean | scraper_nabu_wvh.py:99-109 | the cleaned text has no backslash, no whitespace but plain spaces, is no longer than the text, and is empty for empty text |
| NabuScraper.CleanTextPlain | scraper_nabu_wvh.py:104 | text without tags or backslashes is only trimmed and collapsed |
| NabuScraper.CleanPhoneNumber | scraper_nabu_wvh.py:154-165 | the cleaned number has only dialling characters, nothing to strip, and is empty for a bare four- or five-digit code |
| NabuScraper.CleanPhoneNumberKeepsClean | scraper_nabu_wvh.py:154-165 | an already clean number is left as it is |
| NabuScraper.NumberAt | scraper_nabu_wvh.py:122 | a captured number has 6 to 21 characters (the plus sign and at most 20) |
| NabuScraper.NumberBy | scraper_nabu_wvh.py:127-133 | a number kept has at least six dialling characters and nothing to strip |
| NabuScraper.PhoneOf | scraper_nabu_wvh.py:120-133 | the phone is empty or a clean number of six characters or more |
| NabuScraper.FaxOf | scraper_nabu_wvh.py:135-140 | the same for the fax |
| NabuScraper.EmailAt | scraper_nabu_wvh.py:143 | an e-mail match starts with a local character and ends in a letter |
| NabuScraper.EmailAtSign | scraper_nabu_wvh.py:143 | the match has its `@` inside it |
| NabuScraper.EmailShaped | scraper_nabu_wvh.py:142-145 | the e-mail is empty or a slice of the text with an `@` that ends in a letter |
| NabuScraper.HttpAt | scraper_nabu_wvh.py:148 | an http match starts with `http://` or `https://` and goes on past it |
| NabuScraper.WebsiteAt | scraper_nabu_wvh.py:148 | a website match starts with `http://`, `https://` or `www.` and goes on past it |
| NabuScraper.WebsiteShaped | scraper_nabu_wvh.py:147-150 | the website is empty or starts with `http://`, `https://` or `www.` |
| NabuScraper.FirstMatchFound | scraper_nabu_wvh.py:143-150 | a non-empty result is the text of a match |
| NabuScraper.CityLineHasCode | scraper_nabu_wvh.py:256-267 | a postcode line holds a code, so it is never taken for the person or the street |
| NabuScraper.ScanKml | scraper_nabu_wvh.py:247-276 | the line loop of `parse_kml_description` yields the scan of its lines |
| NabuScraper.ReadKmlLine | scraper_nabu_wvh.py:248-276 | one pass of that loop is one scan step |
| NabuScraper.ScanDescription | scraper_nabu_wvh.py:438-478 | the line loop of `parse_description_text` yields the scan of its lines |
| NabuScraper.ReadDescriptionLine | scraper_nabu_wvh.py:439-478 | one pass of that loop is one scan step |
| NabuScraper.KmlContactIsFirstLine | scraper_nabu_wvh.py:251-253 | the contact person is the first line when it has no code and no `@` |
| NabuScraper.KmlLineContact | scraper_nabu_wvh.py:251-253 | only the first line can set the contact person |
| NabuScraper.KmlStreetIsFirstCandidate | scraper_nabu_wvh.py:255-262 | the street is the first street-like line longer than five characters after the first line |
| NabuScraper.KmlLineStreet | scraper_nabu_wvh.py:255-262 | a later line becomes the street exactly when none was found and it qualifies |
| NabuScraper.KmlCityIsLastCityLine | scraper_nabu_wvh.py:264-269 | the postcode line kept is the last line with a code followed by more text |
| NabuScraper.KmlLineCity | scraper_nabu_wvh.py:264-269 | every line sets the postcode line exactly when it is one |
| NabuScraper.DescriptionLineCity | scraper_nabu_wvh.py:442-471 | past the first line, a line sets the postcode line exactly when it is one; the first never does |
| NabuScraper.DescriptionCityIsLastCityLine | scraper_nabu_wvh.py:438-471 | the city is the last postcode line after the first line |
| NabuScraper.KmlSpecsAreSpecLines | scraper_nabu_wvh.py:271-276 | every collected specialization line is a long line of the text with a bird-care word |
| NabuScraper.FirstLineWith | scraper_nabu_wvh.py:287-290 | the first line that passes the test |
| NabuScraper.CompleteAddress | scraper_nabu_wvh.py:278-291 | a line with a code is searched for only when no postcode line was found |
| NabuScraper.Note | scraper_nabu_wvh.py:330-331 | the note always ends in " \| " |
| NabuScraper.NoteKeyed | scraper_nabu_wvh.py:323-331 | the entry has a note exactly when there is something to note |
| NabuScraper.StationEntryFields | scraper_nabu_wvh.py:306-333 | every field is text; the keys are the base ones plus email, website and note when they have a value; a note ends in " \| " |
| NabuScraper.KmlEntryFields | scraper_nabu_wvh.py:221-333 | no entry exactly for a missing name or description or no text lines; otherwise the display name (with a contact person other than the name), the phone, the optional keys, and a note for a fax or that person |
| NabuScraper.ParseKmlDescription | scraper_nabu_wvh.py:221-333 | the method yields the entry of the name, the description and its text |
| NabuScraper.NoPersonNoted | scraper_nabu_wvh.py:537 | the Kontakt guard of `parse_description_text` never holds |
| NabuScraper.DescriptionNeverNotesContact | scraper_nabu_wvh.py:416-543 | no entry exactly for fewer than two lines; the note holds the fax alone, exactly when there is one |
| NabuScraper.ParseDescriptionText | scraper_nabu_wvh.py:416-543 | the method yields the entry of the description |
| NabuScraper.MarkerEntryFields | scraper_nabu_wvh.py:545-605 | no entry for empty text or fewer than ten stripped characters; otherwise the cleaned first line as name, the address line, and never a note |
| NabuScraper.ParseMarkerInfo | scraper_nabu_wvh.py:545-605 | the method yields the entry of the marker text |
| NabuScraper.AcceptedIsNew | scraper_nabu_wvh.py:212-215 | an accepted placemark's entry is the parsed one and no duplicate of a known entry |
| NabuScraper.AcceptedAreNew | scraper_nabu_wvh.py:198-219 | every entry the KML loop adds was parsed from a placemark and duplicates no known entry |
| NabuScraper.NabuMapsScraper.constructor | scraper_nabu_wvh.py:33-40 | the scraper starts with no new and no known entries |
| NabuScraper.NabuMapsScraper.LoadExistingData | scraper_nabu_wvh.py:46-56 | the known entries are the file's, and stay as they were when it is missing or unreadable |
| NabuScraper.NabuMapsScraper.ParseKmlData | scraper_nabu_wvh.py:186-219 | every accepted placemark's entry is appended in order; the known entries are untouched |
| NabuScraper.NabuMapsScraper.ParsePlacemark | scraper_nabu_wvh.py:198-219 | one placemark's entry when it is to be appended |
| NabuScraper.NabuMapsScraper.SaveData | scraper_nabu_wvh.py:607-628 | nothing is written exactly when no new entry was found; otherwise the known entries, then the new ones |
| Text.LowerStr | auto_update_cache.py:87 | `lower()` maps each character, keeping the length |
| Text.LowerStrIdempotent | auto_update_cache.py:87 | lower-casing twice changes nothing more |
| Text.StripBy | scraper.py:108 | `strip()` removes exactly the leading and trailing whitespace |
| Text.StripByIdempotent | auto_update_cache.py:87 | stripping twice strips nothing more |
| Text.Split | scraper.py:272 | `split(c)` gives at least one part, no part holds `c`, and the first part is the text before the first `c` |
| Text.JoinSplit | scraper.py:272 | joining the parts of a split with the separator gives back the text |
| Text.Join | scraper.py:187 | joining no parts gives "", and one part gives that part |
| Text.NonBlankLines | scraper_nabu_wvh.py:231 | every line is non-empty and stripped |
| Text.CollapseSpacesShape | auto_update_cache.py:88 | `re.sub(r'\s+', ' ', s)` leaves no whitespace but the space, never two in a row |
| Text.CollapseSpaces | auto_update_cache.py:88 | collapsing never lengthens the text, empties only the empty text, and keeps whether it starts with whitespace |
| Text.CollapseSpacesIdempotent | auto_update_cache.py:88 | collapsing twice changes nothing more |
| Text.CollapseSpacesKeeps | auto_update_cache.py:88 | collapsing only ever writes a space |
| Text.CollapseStripped | auto_update_cache.py:87-88 | collapsing a stripped string leaves nothing to strip |
| Text.ReplaceAll | scraper.py:142 | `replace` leaves text without the pattern unchanged |
| Text.NatToStringValue | js/map.js:191 | the decimal digits printed for a count read back as that count |
| Regex.Search | fix_coordinates.py:13 | `re.search` returns the leftmost position where the pattern matches, or none exactly when it matches nowhere |
| Regex.Sub | scraper.py:275-277 | `re.sub` leaves a text where the pattern matches nowhere unchanged |
| Regex.Greedy | scraper.py:153 | a greedy repeat tries the longest run first, then shorter ones |
| Regex.Lazy | auto_update_cache.py:49 | a lazy repeat tries the shortest run first, then longer ones |
| Regex.FirstOk | scraper_nabu_wvh.py:122 | alternatives are tried in order; the first success is the result, and none exactly when all fail |
| Regex.SubFromDeletes | scraper_nabu_wvh.py:106-108 | deleting matches keeps only characters of the text, and never lengthens it |
| Regex.SplitHead | scraper.py:352 | `re.split(p, s)[0]` is a prefix of the text |
| Records.DropFalsy | simple_scraper.py:196 | exactly the truthy fields are kept, unchanged |
| Records.Set | fix_coordinates.py:151-154 | a field is set and every other field is kept |
| Records.Remove | remove_coordinates.py:33-39 | a field is deleted and every other field is kept |
| Records.GetStr | fix_coordinates.py:140 | `get(key, default)` gives the field's text when present and the default otherwise |
| MapView.RegionName | js/map.js:209-226 | the region label is one of the map's labels or "Unbekannt" |
| MapView.RegionNameOfText | js/map.js:209-226 | a text prefix names a region exactly when it is one digit or a country key; a digit names "PLZ d" |
| MapView.PlzLabelFromDigit | js/map.js:209-226 | only a digit prefix, as text or as a whole number, gives a "PLZ" label, and the label carries that digit |
| MapView.IconForStation | js/map.js:147-154 | the raptor icon exactly when the specialization holds "greifvogel" in any case; none where `toLowerCase` on a non-text value raises |
| MapView.WithoutSpaces | js/map.js:168 | `replace(/\s/g, '')` leaves no white space |
| MapView.WithoutSpacesFixed | js/map.js:168 | removing white space twice changes nothing, and text without white space is kept whole |
| MapView.CreatePopupContent | js/map.js:156-177 | appending piece by piece gives the popup text |
| MapView.LayoutParts | js/map.js:156-177 | the popup opens with its heading, closes both divs and holds the address, phone and mail pieces |
| MapView.PopupSections | js/map.js:156-177 | the popup fails only on a truthy phone that is not text; otherwise it is the layout of its parts, opens with the name, holds the address, a phone link with a phone and a mail link with an e-mail, and closes both divs; the specialization, phone and mail parts are empty exactly when their field is falsy |
| MapView.PopupMinimal | js/map.js:156-177 | without specialization, phone or e-mail the popup is the name, the address and an empty contact section |
| MapView.PopupIgnoresFalsy | js/map.js:156-177 | a falsy specialization, phone or e-mail, and any field but the name and the address, gives the popup the station would have without that field |
| MapView.Tally | js/map.js:188 | counting one station adds at most one region |
| MapView.TallyTotal | js/map.js:188 | the counts add up to one more |
| MapView.TallyCountOf | js/map.js:188 | the station's region count goes up by one and every other count stays |
| MapView.TallyListed | js/map.js:188 | the counter lists the regions it listed before and the new one |
| MapView.TallyDistinct | js/map.js:188 | each region is listed once and every count is positive |
| MapView.ListedIffCounted | js/map.js:183-189 | with positive counts, a region is listed exactly when its count is not zero |
| MapView.RegionCountsSpec | js/map.js:183-189 | for every region the count is the number of its stations; exactly the regions with stations are listed, each once; the counts add up to the number of stations |
| MapView.ByCountDescendingPreorder | js/map.js:195 | sorting by count, larger first, is a total preorder |
| MapView.SortedPrefixTop | js/map.js:194-196 | a prefix of the sorted counts holds only real entries, and none left out has a larger count |
| MapView.TopRegionsSpec | js/map.js:194-196 | up to three regions, largest count first, each a real region with its count, and none left out has more stations than one shown |
| MapView.StatsTextSpec | js/map.js:191-203 | the line starts with the number of stations and names regions exactly when there are stations |
| MapView.WildvogelhilfeMap.constructor | js/map.js:3-8 | the map starts with the stations `loadStations` left |
| MapView.WildvogelhilfeMap.UpdateStats | js/map.js:179-207 | the statistics text is the count line with the top regions |

## Left out

- Network access, HTTP sessions, timeouts, `time.sleep`, logging, `print` and `argparse` are left out. Pages, geocoder answers and file contents are parameters.
- HTML parsing (BeautifulSoup `find_all`, `get_text`, `select_one`) is left out. A page is a sequence of elements with their tag, text and link targets. A KML placemark's text is given with it.
- `scrape_kml_data`, `scrape_maps_page`, `extract_from_page_data`, `run` and every `main` are left out. They fetch, log and call the modelled operations in a fixed order.
- The three attempts of `geocode_address` (scraper.py:235-247) are left out. A geocoder answer is final: an exception that outlasts the retries means the same as no answer.
- `simple_scraper.get_coordinates_for_plz` (simple_scraper.py:67-83) and `save_progress` are left out. The first adds random noise. The coordinates of `extract_station_info` are therefore not modelled, and its record leaves out latitude and longitude.
- FixCoordinates.GetCoordinates: requires a code of five ASCII digits. Its only caller passes a `\d{5}` match, so no other string reaches it. `int()` at fix_coordinates.py:27 would also accept forms such as `"+1234"`, `" 1234"` or non-ASCII decimal digits; those are not modelled.
- Text is modelled only up to Latin-1:
  - `lower()`, `toLowerCase()`, `\w` and `\s` are exact for Latin-1 characters only;
  - `\d` is taken as the ASCII digits;
  - case folding beyond Latin-1 is not modelled.
- JSON files are read as already-parsed values. Field order inside a written object is not modelled. A record is a map, so `json.dump`'s key order is lost.
- MapView.RegionName: JavaScript property lookups through the prototype chain (a prefix such as `"constructor"`) are not modelled. Any key outside the thirteen listed gives "Unbekannt".
- JavaScript's conversion of a non-integral number to text is not modelled. `MapView.CreatePopupContent` takes it as the parameter `numberText`, used for a numeric field shown in a popup. `UpdateStats` prints only whole counts, through `NatToString`.
- DOM, Leaflet, `fetch`, `loadStations`, `loadDemoData`, `addMarkersToMap` and `showError` are left out. The map's stations are given to the constructor.
- NabuScraper.NabuMapsScraper.IsDuplicate: returns `None` where `is_duplicate` raises: a known entry whose name or address is not text. The caller's handler then skips the placemark.
- SimpleScraper.HouseLetterFrom: the house-number search tries only the longest run of digits. `HouseLetterNotAtDigit` proves that no shorter run can match.
- SimpleScraper.SearchPlzCity: the contract does not state that the match found is the leftmost one, nor that no position matches when nothing is found. `SearchPlzCityFinds` states the direction that is used.
- SimpleScraper.ExtractStationInfo: the name is `Strip(h3.text)`. `get_text(strip=True)` at simple_scraper.py:103 strips each nested string and joins them with nothing between. An h3 with nested markup can therefore get a different name; an element here carries its text as one string, so nested markup is not modelled.
- FixCoordinates.FixCoordinatesInJson: requires every station's address to be text when present, and every station whose address has a PLZ to have a text name. Otherwise `re.search` at fix_coordinates.py:13 raises on the address, or `station['name'][:50]` at fix_coordinates.py:156 or :159 raises on the name. The script then stops before the `json.dump` at fix_coordinates.py:167, and the file stays unchanged. The model does not produce that outcome.
- Records.Value: station fields are modelled as JSON scalars (null, booleans, numbers and text). Arrays and objects are not modelled, and so neither is their truthiness: JavaScript treats `[]` and `{}` as true, while Python treats an empty list or dict as false. Every field the scrapers and `fix_coordinates.py` write is text or a number.
- AutoUpdateCache.ExtractLocation: requires a truthy address to be text. A truthy address of another type makes `re.search` at auto_update_cache.py:49 raise, and the script stops. The model does not produce that outcome.
- AutoUpdateCache.UpdateCache: requires every station's address to be readable as in `ExtractLocation`, for the same reason.
- Scraper.CleanAddressForGeocoding: no contract says that phone and fax labels are gone from the cleaned address. The patterns at scraper.py:275-276 keep a label when a line break comes before the next five-digit code; `TelKeptBeforeLineBreak` shows one such address.
- Scraper.CleanEach: has no contract. It is the clean-up loop of `save_to_json`, and its result is discarded (see Findings).
- Scraper.CleanPhone: states only that the result needs no further stripping. Their behaviour on concrete labels is stated by the lemmas listed beside them.
- Scraper.CleanPhoneFixed: states only that the result needs no further stripping. Their behaviour on concrete labels is stated by the lemmas listed beside them.

## Findings

| source | as written | input that shows it | evidently intended | confidence | as-written member | corrected member |
|---|---|---|---|---|---|---|
| scraper.py:348-349 | `^[Tt]el\.?:?\s*` is removed before `^[Tt]elefon\.?:?\s*`, so the short label eats the start of the long one | `clean_phone_number("Telefon: 0711")` gives `"efon: 0711"` | the whole `Telefon: ` label removed, giving `"0711"` | high; not executed | Scraper.CleanPhoneTelefonAsWritten | Scraper.CleanPhoneFixedTelefon |
| scraper.py:307-313 | the clean-up loop rebinds its loop variable to a filtered copy, so the list that is written keeps empty fields and uncleaned phones | a station with `"phone": ""` is written with `"phone": ""` | empty fields dropped and the phone cleaned in the written list | high; not executed | Scraper.SavedKeepsEmptyFields | Scraper.SavedCleanedHasNoEmptyFields |
| simple_scraper.py:235-237 | `logger.info(f"✅ {station['name']}")` raises `KeyError` for a record whose blank name was dropped; the page's handler then returns `[]` | a page of an h3 `" "` with a paragraph `"70173 Stuttgart"`, then an h3 `"Vogelhilfe"` with a paragraph `"10115 Berlin"`, gives no records | both records returned | high; not executed | SimpleScraper.NamelessExample | SimpleScraper.PageStationsAppend |
