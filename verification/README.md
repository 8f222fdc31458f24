# Web table scraper — a Dafny model

The repository scrapes tables from a configured list of web pages once a day
and stores them in an HDF5 file. Each row of a semicolon-separated
configuration names a source, its URL, the scraper it needs and how to read
its table. The scrapers are a plain-HTTP scraper built on `requests` and
BeautifulSoup, and a browser scraper built on Selenium. Each scraper returns
three things:

- the column names as 20-byte strings;
- the rows, each split into a string part and a numeric part;
- the time of the scrape.

The data collector keeps one group per source. Each group holds the column
names and one dataset per day. The orchestrator (`collect` and `get_data`)
retries failed scrapes. It leaves a source alone only when both its column
names and today's data are stored. A source without column names is scraped
again even when today's data is already there; the stored data is then kept.

The model has eight modules:

| module | models |
|---|---|
| `Results` | `Option` and `Result`, the error paths Python raises |
| `Text` | the Python string built-ins the code uses: `strip`, `replace`, `split`, `join`, `str(int)`, `int(str)` |
| `Functions` | `get_float`, `get_point_deci`, `get_start_end_time` (`scr/functions.py`, and the copy in `functions.py`) |
| `Tables` | the pieces both scrapers share: the default encoding, numpy's 20-byte `S20` cut, the numeric cell parse, `Record` and `Snapshot` |
| `RequestsScraper` | `scr/requests_scraper.py` |
| `SeleniumScraper` | `scr/selenium_scraper.py` |
| `DataCollector` | `scr/data_collector.py` |
| `Orchestrator` | `collect` and `get_data` of `scr/main.py` |

How the outside world is represented:

- **Web page for the requests scraper.** The fetch is a function from URL to `Response`. A response is a timeout, another request failure, a bad HTTP status, or a document whose tables are found by class name.
- **Browser.** The browser is a `Site`: the page the URL loads and the pages that successive clicks on the pager bring up.
- **HDF5 file.** The file is a map from top-level group names to `Root` values. Datasets are keyed by day.
- **Clock.** The clock (`datetime.now()`, `date.today()`) is passed in as plain integers. Both scrapers compute their day window with `Functions.StartEndTime` from today and the midnight function.
- **Local midnight.** `mktime` of a day's midnight is passed in as a strictly increasing function.
- **Encoding.** `str.encode` is an opaque function of encoding and text.

Python raises on every error path. Here those paths are `Err` values with one constructor per cause.

Two places where the model follows the code rather than what its documentation suggests:

- `RequestsScraper.FetchUrl`: the requests scraper computes the `START`/`END` substitution but throws the result away (`scr/requests_scraper.py:30`). It fetches the configured URL unchanged, and `RequestsScraper.ScrapeIgnoresWindow` states that the day window does not matter. The Selenium scraper does substitute.
- `Orchestrator.ScrapeWithRetry`: when every attempt fails, `get_data` returns `None`. `collect` then fails unpacking it (`NothingToUnpack`); it does not skip the source.

Reading the store (`GetData`, `GetColumnNames`, `IsSaved…`, `GetLastDays`) is done by pure functions of the file. So reads never change the store.

## Model

| member | source | states |
|---|---|---|
| Text.Strip | scr/requests_scraper.py:125 | `str.strip()`: the result has no whitespace at either end, is the slice of the input after its leading whitespace, and is empty exactly when the input is all whitespace |
| Text.StripIdempotent | scr/requests_scraper.py:125 | stripping twice gives the same text as stripping once |
| Text.StripKeepsTrimmed | scr/requests_scraper.py:125 | a text with no whitespace at either end is left unchanged |
| Text.RemoveCharCounts | scr/functions.py:33 | `replace(".", "")` drops exactly the points and keeps the count of every other character |
| Text.RemoveCharAppend | scr/functions.py:33 | removing a character distributes over concatenation |
| Text.RemoveCharAbsent | scr/functions.py:33 | removing a character that does not occur changes nothing |
| Text.ReplaceChar | scr/functions.py:33 | `replace(",", ".")` changes exactly the commas, position by position, and keeps the length |
| Text.ReplaceCharCountTarget | scr/functions.py:33 | replacing one character by another adds the count of the first to the count of the second |
| Text.ReplaceCharCountOther | scr/functions.py:33 | replacing one character by another keeps the count of every third character |
| Text.ReplaceCharCounts | scr/functions.py:33 | after the replacement no comma is left, and the points are the old points plus the old commas |
| Text.ReplaceAllAbsent | scr/selenium_scraper.py:34 | `replace` of a pattern that does not occur returns the text unchanged |
| Text.ReplaceAllLeading | scr/selenium_scraper.py:34 | a leading occurrence is replaced and the scan goes on after it |
| Text.ReplaceAllKeepsPrefix | scr/selenium_scraper.py:34 | a prefix at which no occurrence of the pattern starts is kept as it is, and the rest is replaced on its own |
| Text.ReplaceAllSingle | scr/selenium_scraper.py:34 | `replace` writes the replacement in place of an occurrence with no occurrence starting before it and none in the text after it, and keeps the text on both sides |
| Text.PlaceholderAlone | scr/selenium_scraper.py:34 | a pattern whose first character does not recur in it cannot overlap itself, so placed after a text without it, no occurrence starts inside that text |
| Text.NoOccurrenceAcross | scr/selenium_scraper.py:34 | a pattern absent from two texts stays absent when they are joined around a part that shares no character with it |
| Text.Split | scr/selenium_scraper.py:89 | splitting on a separator yields one more part than there are separators, and no part contains the separator |
| Text.SplitJoin | scr/selenium_scraper.py:151 | joining the parts of a split with the same separator gives back the text |
| Text.SplitNoSeparator | scr/selenium_scraper.py:151 | a text without the separator splits into itself alone |
| Text.SplitAtFirst | scr/selenium_scraper.py:151 | a split cuts at the first separator and splits the remainder the same way |
| Text.RemoveChar | scr/functions.py:33 | removing a character leaves none of it and never lengthens the text |
| Text.IntToString | scr/selenium_scraper.py:34 | `str(n)` is non-empty and starts with a minus sign exactly when `n` is negative |
| Text.IntToStringChars | scr/selenium_scraper.py:34 | `str(n)` writes only digits and a minus sign |
| Text.NatToStringValue | scr/selenium_scraper.py:34 | the decimal digits `str(n)` writes for a natural number read back as that number |
| Text.IntToStringParses | scr/selenium_scraper.py:155 | `int(str(n)) == n` for every integer |
| Text.ParseIntNeedsDigit | scr/selenium_scraper.py:155 | `int()` accepts a text only if its stripped form contains a digit |
| Text.ParseIntOfDigits | scr/selenium_scraper.py:155 | `int()` of a run of decimal digits is the number they write |
| Text.ParseIntOfNegative | scr/selenium_scraper.py:155 | `int()` of a minus sign followed by a run of digits is the negated number |
| Functions.KeepNumberChars | scr/functions.py:16 | the filter keeps only digits, points and minus signs, and never lengthens the text |
| Functions.KeepNumberCharsCounts | scr/functions.py:16 | the filter keeps every digit, point and minus sign: the result has as many of each of those characters as the input |
| Functions.KeepNumberCharsAppend | functions.py:2 | the filter works character by character: it distributes over concatenation |
| Functions.KeepNumberCharsIdentity | scr/functions.py:16 | a text made only of number characters passes the filter unchanged |
| Functions.KeepNumberCharsNone | scr/functions.py:16 | a text without number characters filters to the empty string |
| Functions.FractionValue | scr/functions.py:18 | the digits after a decimal point are worth at least 0 and less than 1 |
| Functions.ParseUnsigned | scr/functions.py:18 | an unsigned literal is non-empty and worth at least 0 |
| Functions.ParseDecimal | scr/functions.py:18 | a literal `float()` accepts is non-empty, and a negative value needs a leading minus |
| Functions.ParseDecimalAccepts | scr/functions.py:18 | `float()` on filtered text succeeds exactly on the literals of an optional minus, then digits with at most one point and at least one digit |
| Functions.ParseDecimalUnsigned | scr/functions.py:18 | without a leading minus, `float()` reads the text as an unsigned literal |
| Functions.ParseUnsignedAccepts | scr/functions.py:18 | the unsigned parse succeeds exactly on digits with at most one point, not the point alone |
| Functions.UnsignedWithoutPoint | scr/functions.py:18 | without a point, a literal is a non-empty run of digits |
| Functions.UnsignedWithPoint | scr/functions.py:18 | with one point, a literal has digits on both sides and at least one digit in all |
| Functions.GetFloatAccepts | scr/functions.py:4-20 | `get_float` (`Functions.GetFloat`) succeeds exactly when the filtered text is a float literal, then yields that literal's value; otherwise it raises `ValueError("Not a float.")` |
| Functions.GetFloatOfLiteral | functions.py:1-6 | a float literal is unchanged by the filter and parses to its own value |
| Functions.GetFloatUnfiltered | scr/functions.py:16-18 | on text made only of number characters, `get_float` is `float()` |
| Functions.GetFloatOfDigits | scr/functions.py:16-18 | a digit string reads as its decimal value |
| Functions.GetFloatOfDigitsPoint | scr/functions.py:16-18 | digits, a point and digits read as whole part plus fraction |
| Functions.GetFloatOfParts | scr/functions.py:16-18 | a text that splits into digits, a point and digits reads as the value of those parts |
| Functions.DigitsPointChars | scr/functions.py:16 | digits, a point and digits consist of number characters only, so the filter keeps them |
| Functions.ParseUnsignedDigitsPoint | scr/functions.py:18 | the unsigned parse of digits, a point and digits is whole part plus fraction |
| Functions.GetFloatOfNegative | scr/functions.py:16-18 | a leading minus is accepted exactly when the unsigned text is, and negates the value |
| Functions.IntRoundTrip | scr/functions.py:4-20 | `get_float(str(n)) == n` for every integer |
| Functions.FixedPointRoundTrip | scr/functions.py:4-20 | `get_float` reads back any written fixed-point number |
| Functions.GetFloatRejectsNoDigits | scr/functions.py:16-20 | text with no number characters raises `ValueError` |
| Functions.GetFloatRejectsUnfiltered | scr/functions.py:17-20 | number characters that do not form a literal raise `ValueError` |
| Functions.GetFloatRejectsNotAvailable | scr/functions.py:16-20 | "n/a" raises `ValueError` |
| Functions.GetFloatRejectsSecondPoint | scr/functions.py:17-20 | any digits with two decimal points raise `ValueError` |
| Functions.GetFloatRejectsTwoPoints | scr/functions.py:17-20 | worked instance of `GetFloatRejectsSecondPoint`: "1.2.3" raises `ValueError` |
| Functions.GetFloatRejectsInnerMinus | scr/functions.py:17-20 | "1-2" raises `ValueError` |
| Functions.DigitsHaveNoPoint | scr/functions.py:16 | a digit string contains no decimal point |
| Functions.FirstIndexIs | scr/functions.py:18 | the first occurrence of a character is the position before which it does not occur |
| Functions.PointDeci | scr/functions.py:22-34 | without the flag the text is returned unchanged; with it, no comma remains |
| Functions.PointDeciCounts | functions.py:8-11 | with the flag, the new points are exactly the old commas, every other character keeps its count, and the old points are gone |
| Functions.RemovePointsGerman | scr/functions.py:33 | removing thousands points leaves the decimal part after the comma untouched |
| Functions.ReplaceCommaGerman | scr/functions.py:33 | digits, a comma and digits become digits, a point and digits |
| Functions.PointDeciGermanShape | scr/functions.py:33 | a German number `1.234,56` becomes the English literal `1234.56` |
| Functions.GermanNumberValue | scr/functions.py:33 | a German-formatted number converts and parses to its value |
| Functions.GermanExample | scr/functions.py:22-34 | "1.234,56" in German mode reads as 1234.56 |
| Functions.EnglishExample | scr/functions.py:22-34 | "1234.56" in English mode reads as 1234.56 |
| Functions.StartEndTime | scr/functions.py:36-52 | the window runs from the previous day's midnight to one second before the given day's midnight; the day defaults to today; what that means across days is stated by `WindowsTile` and `StartEndTimeOrdered` |
| Functions.StartEndTimeOrdered | scr/functions.py:47-52 | when midnights increase with the day, the window starts no later than it ends |
| Functions.WindowsTile | scr/functions.py:45-51 | windows of different days do not overlap, and windows of consecutive days meet without a gap |
| Tables.FixedWidth | scr/requests_scraper.py:102 | an `S20` field holds the first 20 bytes of the value, or all of it when shorter |
| Tables.FixedWidthIdempotent | scr/selenium_scraper.py:133 | cutting an already cut value changes nothing |
| Tables.ParseCell | scr/requests_scraper.py:129-134 | a numeric cell is `get_float` of the text after German conversion, which applies only when the flag is exactly "TRUE"; `None` where `get_float` raises; which texts convert and parse, and to what, is stated by `Functions.PointDeciCounts` and `Functions.GetFloatAccepts` |
| Tables.ParseCellEmpty | scr/requests_scraper.py:125-134 | an empty cell is a missing number |
| Tables.ParseCellGerman | scr/selenium_scraper.py:170-175 | "1.234,56" with the flag "TRUE" reads as 1234.56 |
| Tables.ParseCellFlagNotTrue | scr/selenium_scraper.py:171 | with any flag text other than "TRUE", such as "True", the same cell reads as 1.23456 |
| RequestsScraper.StrippedStrings | scr/requests_scraper.py:125 | `stripped_strings` yields at most one text per text node |
| RequestsScraper.StrippedStringsNonEmpty | scr/requests_scraper.py:125 | `stripped_strings` yields only non-empty texts |
| RequestsScraper.StrippedStringsBlank | scr/requests_scraper.py:125 | `stripped_strings` yields nothing exactly when every text node is blank |
| RequestsScraper.FirstStrippedString | scr/requests_scraper.py:125 | the first stripped string is the first non-blank text node, stripped |
| RequestsScraper.GetTextEmpty | scr/requests_scraper.py:125 | `getText(strip=True)` (`RequestsScraper.GetText`) is empty exactly when every text node is blank |
| RequestsScraper.CellTextFirstNode | scr/requests_scraper.py:125 | a cell's text (`RequestsScraper.CellText`) is empty when all its text is blank, and otherwise is its first non-blank text node, stripped |
| RequestsScraper.GetColumnNames | scr/requests_scraper.py:99-102 | one name per `th` of the head, in order: the cell's stripped text, encoded and cut to 20 bytes; what the stripped text is, is stated by `CellTextFirstNode` and `GetTextEmpty` |
| RequestsScraper.SplitFromLengths | scr/requests_scraper.py:124-136 | from any cell on, the loop yields as many strings and numbers as the cells up to the break point allow |
| RequestsScraper.MapCells | scr/requests_scraper.py:124 | reading cells one by one keeps their number and order: the k-th result is the k-th cell read |
| RequestsScraper.SplitFromNoStrings | scr/requests_scraper.py:126-128 | from a cell past the string columns on, the loop adds no string |
| RequestsScraper.SplitFromStrings | scr/requests_scraper.py:124-127 | the string part from any cell on is the next cells, in order, each encoded |
| RequestsScraper.SplitFromSkipsStrings | scr/requests_scraper.py:126-128 | while still in the string columns, the loop adds no number |
| RequestsScraper.SplitFromNumbersTail | scr/requests_scraper.py:128-134 | past the string columns, the numeric part is the next cells, in order, each read as a number |
| RequestsScraper.SplitFromStart | scr/requests_scraper.py:121-137 | the row loop (`RequestsScraper.SplitFrom` from cell 0, which `RequestsScraper.SplitRow` runs on a row): a row's first `num_string_cols` cells become encoded strings, the following cells become numbers, and the loop stops after `num_string_cols + num_float_cols` cells, or after one cell when that sum is below 1; later cells are ignored |
| RequestsScraper.SplitFromDropsTrailing | scr/requests_scraper.py:135-136 | with 2 string and 3 float columns, a 7-cell row keeps 2 strings and 3 numbers, the last from the fifth cell |
| RequestsScraper.SplitFromNoColumns | scr/requests_scraper.py:126-136 | with zero columns configured, a row still yields its first cell as a number |
| RequestsScraper.EmptyNumberCellIsMissing | scr/requests_scraper.py:125-134 | a blank numeric cell is stored as a missing number |
| RequestsScraper.GetTableData | scr/requests_scraper.py:120-140 | one record per body row, in order, each split by the row loop whose result `SplitFromStart` states |
| RequestsScraper.GetTable | scr/requests_scraper.py:60-86 | timeouts, bad statuses and other failures become request exceptions, a bad status carrying its code; a fetched page yields the table exactly when a table of that class exists |
| RequestsScraper.Scrape | scr/requests_scraper.py:27-41 | the scrape raises a request exception exactly when the fetch fails; it succeeds exactly when the page has the table with a head and a body, and then holds the head's names and the body's records, using the default encoding when none is given |
| RequestsScraper.ScrapeIgnoresWindow | scr/requests_scraper.py:29-33 | the day and the midnight function, which only feed the discarded URL substitution (`RequestsScraper.FetchUrl` returns the configured URL), have no effect on what is fetched or returned |
| SeleniumScraper.SubstituteUrlPlaceholders | scr/selenium_scraper.py:33-34 | a URL with one `START` before one `END`, and no other occurrence of either, is loaded with the window's start and end, written by `str`, in their places, and the rest of the URL as configured; other letters, such as an upper-case S or E, may appear anywhere |
| SeleniumScraper.SubstituteUrlWithoutPlaceholders | scr/selenium_scraper.py:33-34 | a URL without `START` or `END` is loaded as configured |
| SeleniumScraper.Fields | scr/selenium_scraper.py:89 | unpacking a handler into n names succeeds exactly when it has n-1 separators; the names joined back give the handler; otherwise unpacking raises with the count found |
| SeleniumScraper.AcceptCookies | scr/selenium_scraper.py:77-78 | without a handler nothing is clicked; a failure is a missing element or a handler that does not split into two |
| SeleniumScraper.AcceptCookiesLocator | scr/selenium_scraper.py:89-90 | a handler made of a strategy, the separator and a value succeeds exactly when that locator finds a clickable element |
| SeleniumScraper.AcceptCookiesWithoutSeparator | scr/selenium_scraper.py:89 | a handler without a separator fails to unpack, having found one part |
| SeleniumScraper.ParsePager | scr/selenium_scraper.py:150-155 | without a handler the loop reads one page; with one, the page count is `int()` of the first field and the next-page locator is the rest |
| SeleniumScraper.IntToStringHasNoSeparator | scr/selenium_scraper.py:151 | a written number contains no separator |
| SeleniumScraper.PagerHandlerFields | scr/selenium_scraper.py:151 | a handler of three separator-free names unpacks into exactly those names |
| SeleniumScraper.ParsePagerRoundTrip | scr/selenium_scraper.py:150-155 | a handler written as a count, a strategy and a value, separated by bars, parses back to that count and locator |
| SeleniumScraper.ParsePagerRejectsCount | scr/selenium_scraper.py:155 | a count that `int()` rejects fails with that text |
| SeleniumScraper.CellLabels | scr/selenium_scraper.py:128-132 | a head cell with text gives its encoded text once, or `colspan` times when the attribute is present; one without text gives nothing; a non-integer `colspan` raises |
| SeleniumScraper.ColumnNames | scr/selenium_scraper.py:124-133 | the head's names succeed exactly when every cell's labels do, and fail only on a non-integer `colspan` |
| SeleniumScraper.ColumnNamesFromHead | scr/selenium_scraper.py:128-132 | every name is the encoded text of some non-empty head cell |
| SeleniumScraper.ColumnNamesWidth | scr/selenium_scraper.py:128-133 | the number of names is the total span of the head cells that have text |
| SeleniumScraper.ColumnNamesSpanning | scr/selenium_scraper.py:128-132 | a cell spanning k columns repeats its name k times, an empty cell is skipped, and a plain cell gives one name |
| SeleniumScraper.Filled | scr/selenium_scraper.py:169 | only non-empty `td` texts take a place in the numeric part |
| SeleniumScraper.FilledAppend | scr/selenium_scraper.py:169 | dropping empty cells distributes over concatenation |
| SeleniumScraper.FilledKeepsNonEmpty | scr/selenium_scraper.py:169 | a row without empty cells keeps every cell |
| SeleniumScraper.ReadRow | scr/selenium_scraper.py:167-177 | a row's string part has one entry per `th`, the k-th being that cell's encoded text cut to 20 bytes; its numeric part has one entry per non-empty `td`, the k-th being the k-th non-empty cell read as a number under the German flag; which cells are kept is stated by `FilledAppend`, `FilledKeepsNonEmpty` and `ReadRowSkipsEmptyCell` |
| SeleniumScraper.ReadRowSkipsEmptyCell | scr/selenium_scraper.py:169-175 | an empty `td` between two numbers leaves no gap: the numbers after it move up |
| SeleniumScraper.TableRecords | scr/selenium_scraper.py:161-177 | a table's records are its body rows read in `tbody` order; how the pages' records add up is stated by `PagesRecordsPrefix` and `ReadPages` |
| SeleniumScraper.Visit | scr/selenium_scraper.py:178-179 | clicks never take the browser past the last page |
| SeleniumScraper.ReadableStep | scr/selenium_scraper.py:159-179 | one more page can be read exactly when the earlier ones can, the page shows the table and, unless it is the last, the next-page control; once a page cannot be read no later count can |
| SeleniumScraper.PagesRecordsPrefix | scr/selenium_scraper.py:157-177 | `data` only grows: the records of fewer pages start the records of more pages, and the first page's records come first |
| SeleniumScraper.OnePageReadsFirst | scr/selenium_scraper.py:150-161 | with one page, the loop succeeds exactly when the first page has the table, and reads that page's records only |
| SeleniumScraper.ReadPages | scr/selenium_scraper.py:159-179 | the page loop succeeds exactly when every visited page has the table and, where a page remains, the next-page control; it then holds the pages' records in order and has clicked one time fewer than the page count; a failure is a missing element |
| SeleniumScraper.GetTableData | scr/selenium_scraper.py:150-185 | the result succeeds exactly when the pager parses, every page is readable and the records have a first row and equal widths; it then holds those records; an unpack failure needs a pager handler |
| SeleniumScraper.Scrape | scr/selenium_scraper.py:30-41 | the browser loads the URL with today's window substituted; the scrape succeeds exactly when the cookie step succeeds, the table exists with a head whose names can be read, the pager parses, every page is readable and the records are rectangular; a snapshot then holds the head's names and every page's records and keeps the name and scrape time; an unpack failure comes from one of the two handlers |
| DataCollector.Open | scr/data_collector.py:26-49 | opening creates the parent group when missing and a group for each source that lacks one, carrying its URL and today's date; existing groups and other top-level groups stay as they are; defaults apply when no names are given |
| DataCollector.OpenIdempotent | scr/data_collector.py:39-49 | opening an already opened file again, on any later day, changes nothing |
| DataCollector.Lookup | scr/data_collector.py:62-65 | the group is found exactly when the parent and the group exist; otherwise the `No group` error; what stores and reads through it do is stated by `StoreThenGet` and `StoreColumnsThenGet` |
| DataCollector.StoreColumnNames | scr/data_collector.py:61-71 | storing names fails only for a missing group, never overwrites stored names and adds no group; every other top-level group, every other source group and the group's datasets stay as they are |
| DataCollector.StoreData | scr/data_collector.py:86-102 | storing a day's data fails only for a missing group, never overwrites that day's dataset and adds no group |
| DataCollector.GetData | scr/data_collector.py:119-129 | a day's data is returned exactly when its dataset exists, with the day defaulting to today; otherwise `No group` or `No dataset` |
| DataCollector.GetColumnNames | scr/data_collector.py:144-151 | the names are returned exactly when stored; otherwise `No group` or `No column names` |
| DataCollector.IsSavedData | scr/data_collector.py:187-195 | true exactly when `get_data` for that day would succeed; raises only for a missing group |
| DataCollector.IsSavedColumns | scr/data_collector.py:209-214 | true exactly when `get_column_names` would succeed; raises only for a missing group |
| DataCollector.GetLastDays | scr/data_collector.py:153-172 | the result maps exactly the stored days among the last `num_days` days up to today to their data; `num_days` defaults to 7 |
| DataCollector.GetLastDaysNone | scr/data_collector.py:165 | no days asked means an empty result |
| DataCollector.StoreThenGet | scr/data_collector.py:86-129 | after storing, the day is saved; a day stored before keeps its first data, and a new day reads back what was stored |
| DataCollector.StoreDataFrame | scr/data_collector.py:98-102 | storing one group's day leaves every other group and day as it reads |
| DataCollector.StoreDataKeepsColumns | scr/data_collector.py:98-102 | storing data leaves every group's column names as they read |
| DataCollector.StoreColumnsThenGet | scr/data_collector.py:61-71 | after storing names they are saved, first names win, no day's data changes, and no other group's names change |
| DataCollector.OpenedSourcesAreEmpty | scr/data_collector.py:45-49 | a newly registered source exists and has neither column names nor data |
| Orchestrator.PairsLookup | scr/main.py:53 | `dict(zip(keys, row))` (`Orchestrator.Pairs`) maps a key to the value at its last position among the zipped pairs |
| Orchestrator.ZipUrl | scr/main.py:13-14 | a configuration row with a second field has it as the URL |
| Orchestrator.Insert | scr/main.py:53 | assigning a row gives its name the row's fields and appends the name to the order only when it is new |
| Orchestrator.InsertWellFormed | scr/main.py:53 | assigning a row keeps every name once, each with fields |
| Orchestrator.Load | scr/main.py:46-53 | a failed read of the configuration names an empty row after the header |
| Orchestrator.LoadAccepts | scr/main.py:46-53 | reading the configuration skips the header and succeeds exactly when no later row is empty, and then keeps every name once |
| Orchestrator.LoadStep | scr/main.py:51-53 | each row after the header assigns its fields to its name on top of the rows before it |
| Orchestrator.LoadNames | scr/main.py:51-53 | the configured names are exactly the first fields of the rows after the header |
| Orchestrator.LoadLastWins | scr/main.py:53 | a name configured twice keeps the fields of its last row |
| Orchestrator.Field | scr/main.py:86-91 | a configuration field is read exactly when the entry has it, and is then the entry's value; which fields an entry has is stated by `PairsLookup` |
| Orchestrator.SourceUrls | scr/main.py:55-56 | every configured source is registered with its URL, and the step fails exactly when some row has no URL field; which rows have one is stated by `ZipUrl` |
| Orchestrator.Attempts | scr/main.py:83-116 | the retry loop sleeps once per retried failure, stops at the first attempt that is not retried, and after five failures returns `None` with one failure entry in the log |
| Orchestrator.ScrapeWithRetry | scr/main.py:73-116 | an unknown scraper returns `None` at once; at most five sleeps and one log entry; a success is logged as one |
| Orchestrator.SeleniumNeverPropagates | scr/main.py:83-99 | the Selenium branch catches every exception |
| Orchestrator.RequestsStopsOnOtherFailure | scr/main.py:101-115 | in the requests branch an error other than a request exception propagates at once, without sleeping |
| Orchestrator.AllAttemptsFail | scr/main.py:84-99 | five retried failures cost five sleeps, 150 seconds, and log one failure |
| Orchestrator.FirstSuccessReturns | scr/main.py:84-112 | the first success after k retried failures is returned after k sleeps and logged |
| Orchestrator.Scraped | scr/main.py:62 | unpacking the result succeeds exactly when `get_data` returned a snapshot, and gives that snapshot; its use is stated by `NewSourceStoresSnapshot`, `MissingDataStoresSnapshot` and `IncompleteSourceFails` |
| Orchestrator.ProcessSource | scr/main.py:60-71 | a missing group raises; a source with names and today's data is left alone; after a successful step the source has names and today's data |
| Orchestrator.MissingDataStoresSnapshot | scr/main.py:66-68 | a source with names but without today's data, whose scrape returns a snapshot, succeeds with the snapshot's data stored for today and its names left as they were |
| Orchestrator.IncompleteSourceFails | scr/main.py:60-68 | a source missing its names or today's data fails the collection when its entry has no `method` field, or when `get_data` raised or returned `None`; the error is the one met |
| Orchestrator.SavedSourceNotScraped | scr/main.py:66-71 | a source already complete today is not scraped, whatever the scraper would do |
| Orchestrator.NewSourceStoresSnapshot | scr/main.py:61-64 | a source without names stores the snapshot's names and, when today was not stored yet, its data |
| Orchestrator.ProcessSourceKeepsComplete | scr/main.py:60-71 | processing one source never undoes another source's completeness |
| Orchestrator.ProcessFromCompletes | scr/main.py:60-71 | when the source loop (`Orchestrator.ProcessFrom`) finishes, every source it visited, and every source complete before, is complete |
| Orchestrator.CollectIsLoop | scr/main.py:46-60 | a successful collection (`Orchestrator.Collect`) reads the configuration, registers the sources and runs the loop over them |
| Orchestrator.LoopCompletesConfigured | scr/main.py:55-71 | the source loop over a freshly registered store completes every configured source |
| Orchestrator.CollectCompletesEverySource | scr/main.py:46-71 | after a successful collection every configured source has column names and today's data |
| Orchestrator.RegisteredBeforeLoop | scr/main.py:55-56 | registering the sources creates a group for each configured name before the loop |

## Left out

- HTTP, HTML parsing and the browser are not modelled as code. Pages are values: `Response` and `Document` for the requests scraper, `Site` and `Page` for Selenium. What `soup.find`, `find_element` and `find_elements` see is the content of those values.
- Selenium's waits, the headless options, `driver.quit()` and click interception (`ElementClickInterceptedException`) are left out. A click either finds its element or raises `NoSuchElement`.
- HDF5 is modelled as nested maps. File paths, the `a`/`r` open modes and the attributes are left out. The attributes left out are `description`, the creation tuple of a dataset and the scrape time in ISO format. The group URL and the creation day are kept.
- DataCollector.StoreData: datasets are keyed by day. The source keys them by the text of `mktime` at local midnight, and the model assumes that key is injective over days.
- Functions.StartEndTime: `mktime` at local midnight, including daylight-saving time, is a function parameter that is only required to be strictly increasing.
- Functions.GetFloatAccepts: only ASCII digits are digits. Python's `isdigit` also keeps other Unicode digits, which `float()` may accept or reject. Values are exact reals. numpy stores numbers as `float32`, and that rounding is not modelled.
- Text.ParseIntNeedsDigit: states only that an accepted text holds a digit; which texts `int()` accepts is shown through `Text.ParseIntOfDigits`, `Text.ParseIntOfNegative` and `Text.IntToStringParses`. `int()` also accepts underscores between digits and non-ASCII digits; neither is modelled.
- Tables.FixedWidth: what bytes `str.encode` produces for a given encoding, and its `UnicodeEncodeError`, are left to the opaque `Encoder`.
- RequestsScraper.Scrape: numpy's check that each record matches the declared `(num_string_cols,)` and `(num_float_cols,)` shapes is not modelled. A row shorter than the configured widths yields a shorter record where numpy would raise.
- RequestsScraper.SplitFromDropsTrailing: states only the sizes and the last number for a fixed 2+3 configuration and 7 cells. The general statement is `SplitFromStart`.
- SeleniumScraper.GetTableData: `Rectangular` requires equal widths. numpy would also broadcast a one-element part to the first row's width instead of raising.
- Orchestrator.ScrapeWithRetry: the log is a list of success flags. The file, timestamps and names of the log lines are left out, and so is the real `time.sleep`, which is modelled as a count.
- `main()`'s daily schedule, the exit prompt, `user_input`, and reading the CSV file (`csv.reader` and the BOM) are left out. `collect` takes the rows already split into fields.
- The abstract `Scraper` interface (`scr/scraper.py`) is left out because it holds no logic. The Selenium `get_table` placeholder, which raises `NotImplemented`, is left out too.
- The older root-level drafts are not part of this model: `main.py`, `data_collector.py`, the scrapers, `request.py`, `re2.py` and `smard_data_scraper.py`. Nor are the plotting and research scripts or `setup.py`. The exception is the root `functions.py`: its `get_float` and `get_point_deci` match the `scr/` versions and are cited alongside them.
