/** The Selenium scraper: a browser loads the page, optionally clicks a cookie
    banner away, reads the column names from the table head (a head cell may
    span several columns) and reads the body rows of every page a pager walks
    through. The browser is modelled by what it shows: the page the URL loads
    and the pages each click on the pager brings up. */
module SeleniumScraper {
  import opened Results
  import opened Text
  import opened Functions
  import opened Tables

  /** A `find_element` locator: the strategy (`by`) and the value. */
  type Locator = (string, string)

  /** A `th` of the table head: its text and its `colspan` attribute, if any. */
  datatype HeadCell = HeadCell(text: string, colspan: Option<string>)

  /** A `tr` of a body: the texts of its `th` cells and of its `td` cells. */
  datatype Row = Row(ths: seq<string>, tds: seq<string>)

  /** A table as the browser shows it: the `thead` cells when there is a
      `thead`, and the rows of each `tbody`, in document order. */
  datatype Table = Table(head: Option<seq<HeadCell>>, bodies: seq<seq<Row>>)

  /** One rendered page: its tables by class name, and the locators that find
      a clickable element on it. */
  datatype Page = Page(tables: map<string, Table>, clickable: set<Locator>)

  /** What the browser can show: the page the URL loads, then the pages that
      successive clicks on the pager bring up. A click on the last page
      leaves the browser where it is. */
  datatype Site = Site(first: Page, following: seq<Page>)

  datatype ScrapeError =
    | NoSuchElement                     // `find_element` found nothing
    | Unpack(expected: nat, found: nat) // a handler split into the wrong number of parts
    | NotAnInteger(text: string)        // `int()` rejected the text
    | NoRows                            // `data[0]` on an empty list
    | RaggedRows                        // a row's widths differ from the first row's

  /** The URL the browser loads: `START` and then `END` replaced by the bounds
      of the day window. */
  function SubstituteUrl(url: string, window: (int, int)): string {
    ReplaceAll(ReplaceAll(url, "START", IntToString(window.0)), "END", IntToString(window.1))
  }

  /** A URL with one `START` and then one `END`, and no other occurrence of
      either, gets the window's bounds written in their places: neither
      placeholder can overlap itself, and `str` writes no letter of `END`. */
  lemma SubstituteUrlPlaceholders(a: string, b: string, c: string, window: (int, int))
    requires !Occurs(a, "START") && !Occurs(b, "START") && !Occurs(c, "START")
    requires !Occurs(a, "END") && !Occurs(b, "END") && !Occurs(c, "END")
    ensures SubstituteUrl(a + "START" + b + "END" + c, window)
            == a + IntToString(window.0) + b + IntToString(window.1) + c
  {
    var start, end := IntToString(window.0), IntToString(window.1);
    var tail := b + "END" + c;
    NoOccurrenceAcross(b, "END", c, "START");
    PlaceholderAlone(a, "START", tail);
    ReplaceAllSingle(a, tail, "START", start);
    var head := a + start + b;
    assert forall k | 0 <= k < |start| :: start[k] !in "END" by {
      IntToStringChars(window.0);
    }
    NoOccurrenceAcross(a, start, b, "END");
    PlaceholderAlone(head, "END", c);
    ReplaceAllSingle(head, c, "END", end);
    assert a + "START" + tail == a + "START" + b + "END" + c;
    assert head + "END" + c == a + start + tail;
  }

  /** A URL without placeholders is loaded as configured. */
  lemma SubstituteUrlWithoutPlaceholders(url: string, window: (int, int))
    requires !Occurs(url, "START") && !Occurs(url, "END")
    ensures SubstituteUrl(url, window) == url
  {
    ReplaceAllAbsent(url, "START", IntToString(window.0));
    ReplaceAllAbsent(url, "END", IntToString(window.1));
  }

  /** Python truthiness of an optional handler text: absent and empty both
      mean "no handler". */
  predicate Given(handler: Option<string>) {
    handler.Some? && handler.value != ""
  }

  /** Tuple unpacking of `handler.split("|")` into `n` names. */
  function Fields(handler: string, n: nat): (r: Result<seq<string>, ScrapeError>)
    ensures r.Ok? <==> multiset(handler)['|'] + 1 == n
    ensures r.Ok? ==> |r.value| == n > 0 && Join(r.value, '|') == handler
    ensures r.Ok? ==> forall k :: 0 <= k < n ==> '|' !in r.value[k]
    ensures r.Err? ==> r.error == Unpack(n, multiset(handler)['|'] + 1)
  {
    var parts := Split(handler, '|');
    if |parts| == n then
      SplitJoin(handler, '|');
      Ok(parts)
    else Err(Unpack(n, |parts|))
  }

  /** The handler text naming a locator. */
  function LocatorText(strategy: string, value: string): string {
    strategy + "|" + value
  }

  /** `get_driver`'s cookie step: with a handler, split it into a locator and
      click the element it finds on the loaded page. */
  function AcceptCookies(handler: Option<string>, page: Page): (r: Result<(), ScrapeError>)
    ensures !Given(handler) ==> r.Ok?
    ensures r.Err? ==> r.error == NoSuchElement || r.error.Unpack?
    ensures r.Err? && r.error.Unpack? ==> r.error == Unpack(2, multiset(handler.value)['|'] + 1) != Unpack(2, 2)
  {
    if !Given(handler) then Ok(())
    else
      var names :- Fields(handler.value, 2);
      if (names[0], names[1]) in page.clickable then Ok(()) else Err(NoSuchElement)
  }

  /** A well-formed cookie handler succeeds exactly when its element is on
      the page. */
  lemma AcceptCookiesLocator(strategy: string, value: string, page: Page)
    requires '|' !in strategy && '|' !in value
    ensures AcceptCookies(Some(LocatorText(strategy, value)), page).Ok? <==> (strategy, value) in page.clickable
  {
    SplitAtFirst(strategy, value, '|');
    SplitNoSeparator(value, '|');
    assert LocatorText(strategy, value) == strategy + ['|'] + value;
  }

  /** A cookie handler without a separator cannot be unpacked. */
  lemma AcceptCookiesWithoutSeparator(handler: string, page: Page)
    requires handler != "" && '|' !in handler
    ensures AcceptCookies(Some(handler), page) == Err(Unpack(2, 1))
  {
  }

  /** The parsed pager: how many pages to read and the locator of the
      next-page control, which only a configured pager has. */
  datatype Pager = Pager(pages: int, next: Option<Locator>)

  /** The top of `get_table_data`: without a handler one page is read;
      otherwise the handler must split into a page count, which `int` must
      accept, and a locator. */
  function ParsePager(handler: Option<string>): (r: Result<Pager, ScrapeError>)
    ensures !Given(handler) ==> r == Ok(Pager(1, None))
    ensures r.Ok? ==> (r.value.next.Some? <==> Given(handler))
    ensures r.Ok? && Given(handler) ==> Some(r.value.pages) == ParseInt(Split(handler.value, '|')[0])
    ensures r.Err? ==> r.error.Unpack? || r.error.NotAnInteger?
  {
    if !Given(handler) then Ok(Pager(1, None))
    else
      var names :- Fields(handler.value, 3);
      match ParseInt(names[0])
      case None => Err(NotAnInteger(names[0]))
      case Some(n) => Ok(Pager(n, Some((names[1], names[2]))))
  }

  /** `str(n)` never contains the separator. */
  lemma IntToStringHasNoSeparator(n: int)
    ensures '|' !in IntToString(n)
  {
    var d := NatToString(if n < 0 then -n else n);
    assert forall k :: 0 <= k < |d| ==> IsDigit(d[k]);
    if n < 0 {
      assert IntToString(n) == "-" + d;
    }
  }

  /** Writing a pager handler and parsing it gives the pager back. */
  lemma ParsePagerRoundTrip(n: int, strategy: string, value: string)
    requires '|' !in strategy && '|' !in value
    ensures ParsePager(Some(IntToString(n) + "|" + LocatorText(strategy, value))) == Ok(Pager(n, Some((strategy, value))))
  {
    IntToStringHasNoSeparator(n);
    IntToStringParses(n);
    PagerHandlerFields(IntToString(n), strategy, value);
  }

  /** A well-formed pager handler whose page count `int` rejects stops the
      scrape with that count's text. */
  lemma ParsePagerRejectsCount(count: string, strategy: string, value: string)
    requires '|' !in count && '|' !in strategy && '|' !in value
    requires ParseInt(count).None?
    ensures ParsePager(Some(count + "|" + LocatorText(strategy, value))) == Err(NotAnInteger(count))
  {
    PagerHandlerFields(count, strategy, value);
  }

  /** A handler of three separator-free names unpacks into those names. */
  lemma PagerHandlerFields(count: string, strategy: string, value: string)
    requires '|' !in count && '|' !in strategy && '|' !in value
    ensures Fields(count + "|" + LocatorText(strategy, value), 3) == Ok([count, strategy, value])
  {
    var h := count + "|" + LocatorText(strategy, value);
    assert h == count + ['|'] + (strategy + ['|'] + value);
    SplitAtFirst(count, strategy + ['|'] + value, '|');
    SplitAtFirst(strategy, value, '|');
    SplitNoSeparator(value, '|');
    assert Split(h, '|') == [count, strategy, value];
  }

  /** The labels one head cell contributes: none without text, `int(colspan)`
      copies (none when negative) for a spanning cell, one otherwise; each
      heading is the encoded text cut to the field width. */
  function CellLabels(cell: HeadCell, encoding: string, encode: Encoder): (r: Result<seq<Bytes>, ScrapeError>)
    ensures r.Err? <==> cell.text != "" && cell.colspan.Some? && ParseInt(cell.colspan.value).None?
    ensures r.Err? ==> r.error == NotAnInteger(cell.colspan.value)
    ensures r.Ok? ==> forall j :: 0 <= j < |r.value| ==> r.value[j] == FixedWidth(encode(encoding, cell.text))
  {
    var heading := FixedWidth(encode(encoding, cell.text));
    if cell.text == "" then Ok([])
    else if cell.colspan.None? then Ok([heading])
    else
      match ParseInt(cell.colspan.value)
      case None => Err(NotAnInteger(cell.colspan.value))
      case Some(k) => Ok(seq(if k < 0 then 0 else k, _ => heading))
  }

  /** How many columns a head cell stands for, when `int` accepts its span. */
  function Span(cell: HeadCell): nat
    requires cell.text == "" || cell.colspan.None? || ParseInt(cell.colspan.value).Some?
  {
    if cell.text == "" then 0
    else if cell.colspan.None? then 1
    else var k := ParseInt(cell.colspan.value).value; if k < 0 then 0 else k
  }

  /** `get_column_names`: the labels of the head cells in order; the first
      span `int` rejects stops the scrape. */
  function ColumnNames(cells: seq<HeadCell>, encoding: string, encode: Encoder): (r: Result<seq<Bytes>, ScrapeError>)
    ensures r.Ok? <==> forall i :: 0 <= i < |cells| ==> CellLabels(cells[i], encoding, encode).Ok?
    ensures r.Err? ==> r.error.NotAnInteger?
  {
    if |cells| == 0 then Ok([])
    else
      var first :- CellLabels(cells[0], encoding, encode);
      var rest :- ColumnNames(cells[1..], encoding, encode);
      assert forall i :: 1 <= i < |cells| ==> cells[i] == cells[1..][i - 1];
      Ok(first + rest)
  }

  /** Every column name is the cut encoding of some head text that is not
      empty. */
  lemma {:induction false} ColumnNamesFromHead(cells: seq<HeadCell>, encoding: string, encode: Encoder)
    requires ColumnNames(cells, encoding, encode).Ok?
    ensures var names := ColumnNames(cells, encoding, encode).value;
            forall j :: 0 <= j < |names| ==>
              exists i :: 0 <= i < |cells| && cells[i].text != "" && names[j] == FixedWidth(encode(encoding, cells[i].text))
  {
    if |cells| > 0 {
      var first := CellLabels(cells[0], encoding, encode).value;
      var rest := ColumnNames(cells[1..], encoding, encode).value;
      ColumnNamesFromHead(cells[1..], encoding, encode);
      var names := ColumnNames(cells, encoding, encode).value;
      assert names == first + rest;
      forall j | 0 <= j < |names|
        ensures exists i :: 0 <= i < |cells| && cells[i].text != "" && names[j] == FixedWidth(encode(encoding, cells[i].text))
      {
        if j < |first| {
          assert names[j] == FixedWidth(encode(encoding, cells[0].text));
          assert cells[0].text != "";
        } else {
          var i :| 0 <= i < |cells[1..]| && cells[1..][i].text != ""
                   && rest[j - |first|] == FixedWidth(encode(encoding, cells[1..][i].text));
          assert cells[i + 1] == cells[1..][i];
        }
      }
    }
  }

  /** The columns a head stands for, added up over its cells. */
  function TotalSpan(cells: seq<HeadCell>): nat
    requires forall i :: 0 <= i < |cells| ==> cells[i].text == "" || cells[i].colspan.None? || ParseInt(cells[i].colspan.value).Some?
  {
    if |cells| == 0 then 0 else Span(cells[0]) + TotalSpan(cells[1..])
  }

  /** There is one heading per column the head cells span. */
  lemma {:induction false} ColumnNamesWidth(cells: seq<HeadCell>, encoding: string, encode: Encoder)
    requires ColumnNames(cells, encoding, encode).Ok?
    ensures forall i :: 0 <= i < |cells| ==> cells[i].text == "" || cells[i].colspan.None? || ParseInt(cells[i].colspan.value).Some?
    ensures |ColumnNames(cells, encoding, encode).value| == TotalSpan(cells)
  {
    if |cells| > 0 {
      assert CellLabels(cells[0], encoding, encode).Ok?;
      ColumnNamesWidth(cells[1..], encoding, encode);
    }
  }

  /** A cell spanning `k` columns repeats its heading `k` times, and a head
      cell without text adds nothing. */
  lemma ColumnNamesSpanning(a: string, b: string, k: nat, encoding: string, encode: Encoder)
    requires a != "" && b != ""
    ensures var first := FixedWidth(encode(encoding, a));
            var second := FixedWidth(encode(encoding, b));
            ColumnNames([HeadCell(a, Some(IntToString(k))), HeadCell("", None), HeadCell(b, None)], encoding, encode)
            == Ok(seq(k, _ => first) + [second])
  {
    var cells := [HeadCell(a, Some(IntToString(k))), HeadCell("", None), HeadCell(b, None)];
    var first := FixedWidth(encode(encoding, a));
    var second := FixedWidth(encode(encoding, b));
    IntToStringParses(k);
    assert CellLabels(cells[0], encoding, encode) == Ok(seq(k, _ => first));
    assert cells[1..] == [HeadCell("", None), HeadCell(b, None)];
    assert cells[1..][1..] == [HeadCell(b, None)];
    assert cells[1..][1..][1..] == [];
    assert CellLabels(HeadCell(b, None), encoding, encode) == Ok([second]);
    assert [second] + [] == [second];
    assert ColumnNames(cells[1..][1..], encoding, encode) == Ok([second]);
    assert CellLabels(HeadCell("", None), encoding, encode) == Ok([]);
    assert [] + [second] == [second];
    assert ColumnNames(cells[1..], encoding, encode) == Ok([second]);
  }

  /** The texts of the cells that have text, in order. */
  function Filled(texts: seq<string>): (r: seq<string>)
    ensures |r| <= |texts|
    ensures forall k :: 0 <= k < |r| ==> r[k] != ""
  {
    if |texts| == 0 then []
    else if texts[0] == "" then Filled(texts[1..])
    else [texts[0]] + Filled(texts[1..])
  }

  /** Dropping empty cells works piecewise. */
  lemma {:induction false} FilledAppend(a: seq<string>, b: seq<string>)
    ensures Filled(a + b) == Filled(a) + Filled(b)
  {
    if |a| > 0 {
      FilledAppend(a[1..], b);
      assert (a + b)[1..] == a[1..] + b;
    } else {
      assert a + b == b;
    }
  }

  /** Cells that all have text are kept, every one, in order. */
  lemma {:induction false} FilledKeepsNonEmpty(texts: seq<string>)
    requires forall k :: 0 <= k < |texts| ==> texts[k] != ""
    ensures Filled(texts) == texts
  {
    if |texts| > 0 {
      FilledKeepsNonEmpty(texts[1..]);
    }
  }

  /** One `tr`: every `th` becomes a cut heading, even one without text; each
      `td` with text becomes a number (`None` when it does not parse) and a
      `td` without text is skipped. */
  function ReadRow(row: Row, isGerman: string, encoding: string, encode: Encoder): (r: Record)
    ensures |r.strings| == |row.ths|
    ensures forall k :: 0 <= k < |row.ths| ==> r.strings[k] == FixedWidth(encode(encoding, row.ths[k]))
    ensures |r.numbers| == |Filled(row.tds)|
    ensures forall k :: 0 <= k < |Filled(row.tds)| ==> r.numbers[k] == ParseCell(Filled(row.tds)[k], isGerman)
  {
    Record(seq(|row.ths|, k requires 0 <= k < |row.ths| => FixedWidth(encode(encoding, row.ths[k]))),
           seq(|Filled(row.tds)|, k requires 0 <= k < |Filled(row.tds)| => ParseCell(Filled(row.tds)[k], isGerman)))
  }

  /** An empty `td` does not hold a place: the numbers after it move up. */
  lemma ReadRowSkipsEmptyCell(ths: seq<string>, a: string, b: string, isGerman: string, encoding: string, encode: Encoder)
    requires a != "" && b != ""
    ensures ReadRow(Row(ths, [a, "", b]), isGerman, encoding, encode).numbers
            == [ParseCell(a, isGerman), ParseCell(b, isGerman)]
  {
    var tds := [a, "", b];
    assert tds[1..] == ["", b];
    assert tds[1..][1..] == [b];
    assert [b][1..] == [];
    assert Filled([b]) == [b];
    assert Filled(tds) == [a, b];
  }

  function Flatten<T>(parts: seq<seq<T>>): seq<T> {
    if |parts| == 0 then [] else parts[0] + Flatten(parts[1..])
  }

  /** The records of one table: its body rows, `tbody` after `tbody`. */
  function TableRecords(table: Table, isGerman: string, encoding: string, encode: Encoder): (r: seq<Record>)
    ensures |r| == |Flatten(table.bodies)|
    ensures forall k :: 0 <= k < |r| ==> r[k] == ReadRow(Flatten(table.bodies)[k], isGerman, encoding, encode)
  {
    var rows := Flatten(table.bodies);
    seq(|rows|, k requires 0 <= k < |rows| => ReadRow(rows[k], isGerman, encoding, encode))
  }

  /** The index of the page on screen after `clicks` clicks on the pager. */
  function Visit(site: Site, clicks: nat): (p: nat)
    ensures p <= |site.following|
  {
    if clicks < |site.following| then clicks else |site.following|
  }

  /** The page on screen after `clicks` clicks on the pager. */
  function Shown(site: Site, clicks: nat): Page {
    var p := Visit(site, clicks);
    if p == 0 then site.first else site.following[p - 1]
  }

  /** The first `n` rounds of the page loop can run: each of the first `n`
      pages shows the table, and the pager is found on each of them that
      still has a page after it to read. */
  predicate Readable(site: Site, tableClass: string, pager: Pager, n: nat) {
    && (forall k :: 0 <= k < n ==> tableClass in Shown(site, k).tables)
    && (forall k :: 0 <= k < n && k + 1 < pager.pages ==> ShowsNext(pager, Shown(site, k)))
  }

  /** The pager has a next-page locator and the page shows that control. */
  predicate ShowsNext(pager: Pager, page: Page) {
    pager.next.Some? && pager.next.value in page.clickable
  }

  /** One more round is readable exactly when the earlier ones are and the
      next page shows the table and, unless it is the last, the pager; a
      round that is not readable makes every later count unreadable. */
  lemma ReadableStep(site: Site, tableClass: string, pager: Pager, n: nat, m: nat)
    requires n < m
    ensures Readable(site, tableClass, pager, n + 1) <==>
              && Readable(site, tableClass, pager, n)
              && tableClass in Shown(site, n).tables
              && (n + 1 < pager.pages ==> ShowsNext(pager, Shown(site, n)))
    ensures !Readable(site, tableClass, pager, n + 1) ==> !Readable(site, tableClass, pager, m)
  {
  }

  /** The records of the first `n` pages, page after page. */
  function PagesRecords(site: Site, tableClass: string, n: nat,
                        isGerman: string, encoding: string, encode: Encoder): seq<Record>
    requires forall k :: 0 <= k < n ==> tableClass in Shown(site, k).tables
  {
    if n == 0 then []
    else PagesRecords(site, tableClass, n - 1, isGerman, encoding, encode)
         + TableRecords(Shown(site, n - 1).tables[tableClass], isGerman, encoding, encode)
  }

  /** Reading more pages only appends: the records of the first `m` pages
      start the records of the first `n`, and those of the page shown before
      any click come first. */
  lemma {:induction false} PagesRecordsPrefix(site: Site, tableClass: string, m: nat, n: nat,
                                              isGerman: string, encoding: string, encode: Encoder)
    requires m <= n
    requires forall k :: 0 <= k < n ==> tableClass in Shown(site, k).tables
    ensures PagesRecords(site, tableClass, m, isGerman, encoding, encode)
            <= PagesRecords(site, tableClass, n, isGerman, encoding, encode)
    ensures 0 < n ==> TableRecords(Shown(site, 0).tables[tableClass], isGerman, encoding, encode)
                      <= PagesRecords(site, tableClass, n, isGerman, encoding, encode)
    decreases n
  {
    if 0 < n {
      var before := PagesRecords(site, tableClass, n - 1, isGerman, encoding, encode);
      PagesRecordsPrefix(site, tableClass, if m < n then m else n - 1, n - 1, isGerman, encoding, encode);
      assert before <= PagesRecords(site, tableClass, n, isGerman, encoding, encode);
    }
  }

  /** How many rounds `range(1, num_pages + 1)` runs. */
  function Rounds(pager: Pager): nat {
    if pager.pages < 0 then 0 else pager.pages
  }

  /** With one page (no pager handler) the loop reads the first page only
      and never needs the next-page control. */
  lemma {:induction false} OnePageReadsFirst(site: Site, tableClass: string, next: Option<Locator>,
                                             isGerman: string, encoding: string, encode: Encoder)
    ensures Readable(site, tableClass, Pager(1, next), Rounds(Pager(1, next))) <==> tableClass in site.first.tables
    ensures tableClass in site.first.tables ==>
              PagesRecords(site, tableClass, Rounds(Pager(1, next)), isGerman, encoding, encode)
              == TableRecords(site.first.tables[tableClass], isGerman, encoding, encode)
  {
    assert Shown(site, 0) == site.first;
    if tableClass in site.first.tables {
      assert PagesRecords(site, tableClass, 0, isGerman, encoding, encode) == [];
    }
  }

  /** The page loop of `get_table_data`: on each page find the table and read
      its body rows, then, while pages remain, click the next-page control.
      It succeeds exactly when every page it visits is readable, and then
      yields the records of those pages in order. */
  method ReadPages(site: Site, tableClass: string, pager: Pager,
                   isGerman: string, encoding: string, encode: Encoder)
    returns (r: Result<seq<Record>, ScrapeError>, clicks: nat)
    ensures r.Ok? <==> Readable(site, tableClass, pager, Rounds(pager))
    ensures r.Ok? ==> clicks == if Rounds(pager) == 0 then 0 else Rounds(pager) - 1
    ensures r.Ok? ==> r.value == PagesRecords(site, tableClass, Rounds(pager), isGerman, encoding, encode)
    ensures r.Err? ==> r.error == NoSuchElement
  {
    var total := Rounds(pager);
    var data: seq<Record> := [];
    var current: nat := 0;
    var num: nat := 0;
    clicks := 0;
    while num < total
      invariant num <= total
      invariant clicks == if num == total && num > 0 then num - 1 else num
      invariant num < total ==> current == Visit(site, num)
      invariant Readable(site, tableClass, pager, num)
      invariant data == PagesRecords(site, tableClass, num, isGerman, encoding, encode)
    {
      var page := if current == 0 then site.first else site.following[current - 1];
      assert page == Shown(site, num);
      ReadableStep(site, tableClass, pager, num, total);
      if tableClass !in page.tables {
        return Err(NoSuchElement), clicks;
      }
      data := data + TableRecords(page.tables[tableClass], isGerman, encoding, encode);
      assert data == PagesRecords(site, tableClass, num + 1, isGerman, encoding, encode);
      if num + 1 < pager.pages {
        if !ShowsNext(pager, page) {
          return Err(NoSuchElement), clicks;
        }
        clicks := clicks + 1;
        if current < |site.following| {
          current := current + 1;
        }
      }
      num := num + 1;
    }
    return Ok(data), clicks;
  }

  /** numpy's structured array takes its field widths from the first row;
      every row must match them. */
  predicate Rectangular(rows: seq<Record>) {
    |rows| > 0 &&
    forall k :: 0 <= k < |rows| ==>
      |rows[k].strings| == |rows[0].strings| && |rows[k].numbers| == |rows[0].numbers|
  }

  /** `get_table_data`: parse the pager, read the pages, then build the
      array, which needs a first row and rows of equal widths. */
  method GetTableData(site: Site, tableClass: string, isGerman: string,
                      pagerHandler: Option<string>, encoding: string, encode: Encoder)
    returns (r: Result<seq<Record>, ScrapeError>)
    ensures r.Ok? ==> Rectangular(r.value)
    ensures r.Err? && r.error.Unpack? ==> Given(pagerHandler)
    ensures r.Ok? <==>
              && ParsePager(pagerHandler).Ok?
              && Readable(site, tableClass, ParsePager(pagerHandler).value, Rounds(ParsePager(pagerHandler).value))
              && Rectangular(PagesRecords(site, tableClass, Rounds(ParsePager(pagerHandler).value), isGerman, encoding, encode))
    ensures r.Ok? ==> r.value == PagesRecords(site, tableClass, Rounds(ParsePager(pagerHandler).value), isGerman, encoding, encode)
  {
    var parsed := ParsePager(pagerHandler);
    if parsed.Err? {
      return Err(parsed.error);
    }
    var pager := parsed.value;
    var data, _ := ReadPages(site, tableClass, pager, isGerman, encoding, encode);
    if data.Err? {
      return data;
    }
    if |data.value| == 0 {
      return Err(NoRows);
    }
    if !Rectangular(data.value) {
      return Err(RaggedRows);
    }
    return data;
  }

  /** `SeleniumScraper(...)`: load the URL with today's window substituted,
      accept cookies, read the column names from the first page's head, then
      the data from every page the pager walks through. It succeeds exactly
      when each of those steps does. */
  method Scrape(name: string, url: string, tableClass: string, isGerman: string,
                cookieHandler: Option<string>, pagerHandler: Option<string>, encoding: Option<string>,
                today: int, midnight: int -> int, visit: string -> Site, now: int, encode: Encoder)
    returns (r: Result<Snapshot, ScrapeError>)
    ensures r.Ok? ==> r.value.name == name && r.value.scrapedAt == now && Rectangular(r.value.data)
    ensures var site := visit(SubstituteUrl(url, StartEndTime(None, today, midnight)));
            var enc := EncodingOrDefault(encoding);
            r.Ok? <==>
              && AcceptCookies(cookieHandler, site.first).Ok?
              && tableClass in site.first.tables
              && site.first.tables[tableClass].head.Some?
              && ColumnNames(site.first.tables[tableClass].head.value, enc, encode).Ok?
              && ParsePager(pagerHandler).Ok?
              && Readable(site, tableClass, ParsePager(pagerHandler).value, Rounds(ParsePager(pagerHandler).value))
              && Rectangular(PagesRecords(site, tableClass, Rounds(ParsePager(pagerHandler).value), isGerman, enc, encode))
    ensures r.Ok? ==>
              var site := visit(SubstituteUrl(url, StartEndTime(None, today, midnight)));
              var enc := EncodingOrDefault(encoding);
              && AcceptCookies(cookieHandler, site.first).Ok?
              && tableClass in site.first.tables
              && site.first.tables[tableClass].head.Some?
              && ColumnNames(site.first.tables[tableClass].head.value, enc, encode) == Ok(r.value.columnNames)
              && ParsePager(pagerHandler).Ok?
              && Readable(site, tableClass, ParsePager(pagerHandler).value, Rounds(ParsePager(pagerHandler).value))
              && r.value.data == PagesRecords(site, tableClass, Rounds(ParsePager(pagerHandler).value), isGerman, enc, encode)
    ensures r.Err? && r.error.Unpack? ==> Given(cookieHandler) || Given(pagerHandler)
  {
    var site := visit(SubstituteUrl(url, StartEndTime(None, today, midnight)));
    var enc := EncodingOrDefault(encoding);
    var cookies := AcceptCookies(cookieHandler, site.first);
    if cookies.Err? {
      return Err(cookies.error);
    }
    if tableClass !in site.first.tables || site.first.tables[tableClass].head.None? {
      return Err(NoSuchElement);
    }
    var columns := ColumnNames(site.first.tables[tableClass].head.value, enc, encode);
    if columns.Err? {
      return Err(columns.error);
    }
    var data := GetTableData(site, tableClass, isGerman, pagerHandler, enc, encode);
    if data.Err? {
      return Err(data.error);
    }
    return Ok(Snapshot(name, columns.value, data.value, now));
  }
}
