/** The static-page scraper of `scr/requests_scraper.py`: the located HTML table
    is plain data, a cell being the sequence of its text nodes. */
module RequestsScraper {
  import opened Results
  import opened Text
  import opened Functions
  import opened Tables

  /** An HTML element reduced to its text nodes, in document order. */
  datatype Cell = Cell(texts: seq<string>)

  /** The element `soup.find` located: its `thead` cells (`th`) and the `td`
      cells of each `tbody` row; either part may be missing. */
  datatype StaticTable = StaticTable(head: Option<seq<Cell>>, body: Option<seq<seq<Cell>>>)

  /** A parsed page: the first element carrying each class name. */
  datatype Document = Document(byClass: map<string, StaticTable>)

  /** What `requests.get` followed by `raise_for_status` yields. */
  datatype Response = Fetched(document: Document) | TimedOut | BadStatus(code: int) | TransportFailure

  /** The exceptions the scraper raises. The first three are
      `requests.RequestException`s; the last is the `AttributeError` of calling
      `find` on a missing element. */
  datatype ScrapeError =
    | RequestsTimeout
    | HttpError(code: int)
    | RequestFailure
    | MissingElement

  predicate IsRequestException(e: ScrapeError) {
    !e.MissingElement?
  }

  function Min(a: int, b: int): int { if a < b then a else b }
  function Max(a: int, b: int): int { if a < b then b else a }

  /** BeautifulSoup's `stripped_strings`: each text node stripped, blank ones skipped. */
  function StrippedStrings(texts: seq<string>): (r: seq<string>)
    ensures |r| <= |texts|
  {
    if |texts| == 0 then []
    else if Strip(texts[0]) == "" then StrippedStrings(texts[1..])
    else [Strip(texts[0])] + StrippedStrings(texts[1..])
  }

  /** No stripped string is empty. */
  lemma {:induction false} StrippedStringsNonEmpty(texts: seq<string>)
    ensures forall s :: s in StrippedStrings(texts) ==> s != ""
  {
    if |texts| > 0 {
      var rest := texts[1..];
      StrippedStringsNonEmpty(rest);
      if Strip(texts[0]) == "" {
        assert StrippedStrings(texts) == StrippedStrings(rest);
      } else {
        assert StrippedStrings(texts) == [Strip(texts[0])] + StrippedStrings(rest);
      }
    }
  }

  /** There are no stripped strings exactly when every text node is blank. */
  lemma {:induction false} StrippedStringsBlank(texts: seq<string>)
    ensures StrippedStrings(texts) == [] <==> forall i :: 0 <= i < |texts| ==> Strip(texts[i]) == ""
  {
    if |texts| > 0 {
      var rest := texts[1..];
      StrippedStringsBlank(rest);
      if Strip(texts[0]) == "" {
        assert StrippedStrings(texts) == StrippedStrings(rest);
        assert forall i :: 1 <= i < |texts| ==> rest[i - 1] == texts[i];
      } else {
        assert StrippedStrings(texts) == [Strip(texts[0])] + StrippedStrings(rest);
        assert StrippedStrings(texts) != [];
      }
    }
  }

  /** The first stripped string is the first non-blank text node, stripped. */
  lemma {:induction false} FirstStrippedString(texts: seq<string>)
    requires StrippedStrings(texts) != []
    ensures exists j :: (0 <= j < |texts| && StrippedStrings(texts)[0] == Strip(texts[j])
                         && forall i :: 0 <= i < j ==> Strip(texts[i]) == "")
  {
    var rest := texts[1..];
    if Strip(texts[0]) == "" {
      assert StrippedStrings(texts) == StrippedStrings(rest);
      FirstStrippedString(rest);
      var j :| 0 <= j < |rest| && StrippedStrings(rest)[0] == Strip(rest[j])
                && forall i :: 0 <= i < j ==> Strip(rest[i]) == "";
      forall i | 0 <= i < j + 1 ensures Strip(texts[i]) == "" {
        if i > 0 { assert texts[i] == rest[i - 1]; }
      }
      assert texts[j + 1] == rest[j];
    } else {
      assert StrippedStrings(texts)[0] == Strip(texts[0]);
    }
  }

  function Concat(parts: seq<string>): string {
    if |parts| == 0 then "" else parts[0] + Concat(parts[1..])
  }

  /** `getText(strip=True)`: the stripped strings glued together. */
  function GetText(c: Cell): string {
    Concat(StrippedStrings(c.texts))
  }

  /** The stripped text is empty exactly when every text node is blank. */
  lemma GetTextEmpty(c: Cell)
    ensures GetText(c) == "" <==> forall i :: 0 <= i < |c.texts| ==> Strip(c.texts[i]) == ""
  {
    var r := StrippedStrings(c.texts);
    StrippedStringsBlank(c.texts);
    if r != [] {
      StrippedStringsNonEmpty(c.texts);
      assert r[0] in r;
      assert |Concat(r)| >= |r[0]| > 0;
    }
  }

  /** A body cell's text: its first stripped text node, or "" when its stripped
      text is empty. */
  function CellText(c: Cell): string {
    if GetText(c) != "" then StrippedStrings(c.texts)[0] else ""
  }

  /** A cell's text is empty exactly when all its text is blank, and otherwise
      is its first non-blank text node, stripped. */
  lemma CellTextFirstNode(c: Cell)
    ensures CellText(c) == "" <==> forall i :: 0 <= i < |c.texts| ==> Strip(c.texts[i]) == ""
    ensures CellText(c) != "" ==>
              exists j :: (0 <= j < |c.texts| && CellText(c) == Strip(c.texts[j])
                           && forall i :: 0 <= i < j ==> Strip(c.texts[i]) == "")
  {
    GetTextEmpty(c);
    if GetText(c) != "" {
      var r := StrippedStrings(c.texts);
      StrippedStringsNonEmpty(c.texts);
      assert r[0] in r;
      FirstStrippedString(c.texts);
    }
  }

  /** `get_column_names`: one label per `th`, in order, the stripped text
      encoded and cut to 20 bytes. */
  function GetColumnNames(head: seq<Cell>, encoding: string, encode: Encoder): (r: seq<Bytes>)
    ensures |r| == |head|
    ensures forall i :: 0 <= i < |r| ==> r[i] == FixedWidth(encode(encoding, GetText(head[i])))
  {
    seq(|head|, i requires 0 <= i < |head| => FixedWidth(encode(encoding, GetText(head[i]))))
  }

  /** How many cells the row loop consumes: it stops after index
      `strings + floats - 1`, but always handles the first cell. */
  function Consumed(n: nat, strings: int, floats: int): nat {
    Min(n, Max(strings + floats, 1))
  }

  /** How many of the consumed cells land in the string part. */
  function StringCount(n: nat, strings: int, floats: int): nat {
    Min(Consumed(n, strings, floats), Max(strings, 0))
  }

  /** How a cell of the string part is read: its text, encoded and cut to 20 bytes. */
  function StringCell(encoding: string, encode: Encoder): Cell -> Bytes {
    c => FixedWidth(encode(encoding, CellText(c)))
  }

  /** How a cell of the numeric part is read: its text, parsed as a number. */
  function NumberCell(isGerman: string): Cell -> Option<real> {
    c => ParseCell(CellText(c), isGerman)
  }

  /** The body of the row loop from cell `i` on: cell `i` goes to the string
      part (read by `str`) when `i < strings` and to the numeric part (read by
      `num`) otherwise, and the loop breaks after index `strings + floats - 1`. */
  function SplitFrom<C>(cells: seq<C>, i: nat, strings: int, floats: int,
                        str: C -> Bytes, num: C -> Option<real>): Record
    requires i <= |cells|
    decreases |cells| - i
  {
    if i == |cells| then Record([], [])
    else
      var here :=
        if i < strings then Record([str(cells[i])], [])
        else Record([], [num(cells[i])]);
      if i >= strings + floats - 1 then here
      else
        var rest := SplitFrom(cells, i + 1, strings, floats, str, num);
        Record(here.strings + rest.strings, here.numbers + rest.numbers)
  }

  /** How many cells the row loop puts into each part from cell `i` on. */
  lemma {:induction false} SplitFromLengths<C>(cells: seq<C>, i: nat, strings: int, floats: int,
                                               str: C -> Bytes, num: C -> Option<real>)
    requires i < Consumed(|cells|, strings, floats) || i == Consumed(|cells|, strings, floats) == |cells|
    decreases |cells| - i
    ensures var r := SplitFrom(cells, i, strings, floats, str, num);
            var sc := StringCount(|cells|, strings, floats);
            && |r.strings| == Max(sc - i, 0)
            && |r.numbers| == Consumed(|cells|, strings, floats) - Max(i, sc)
  {
    var c := Consumed(|cells|, strings, floats);
    var sc := StringCount(|cells|, strings, floats);
    if i < |cells| {
      if i >= strings + floats - 1 {
        assert c == i + 1;
      } else {
        SplitFromLengths(cells, i + 1, strings, floats, str, num);
        if i < strings {
          assert i < sc;
        } else {
          assert sc <= i;
        }
      }
    }
  }

  /** Each cell of `s` read by `f`, in order. */
  function MapCells<C, T>(s: seq<C>, f: C -> T): (r: seq<T>)
    ensures |r| == |s|
    ensures forall k :: 0 <= k < |s| ==> r[k] == f(s[k])
  {
    if |s| == 0 then [] else [f(s[0])] + MapCells(s[1..], f)
  }

  /** Reading the cells from `i` to `j` is reading cell `i`, then the rest. */
  lemma MapCellsStep<C, T>(cells: seq<C>, i: nat, j: nat, f: C -> T)
    requires i < j <= |cells|
    ensures MapCells(cells[i..j], f) == [f(cells[i])] + MapCells(cells[i + 1..j], f)
  {
    assert cells[i..j][1..] == cells[i + 1..j];
  }

  /** Past the string columns the loop adds nothing to the string part. */
  lemma {:induction false} SplitFromNoStrings<C>(cells: seq<C>, i: nat, strings: int, floats: int,
                                                 str: C -> Bytes, num: C -> Option<real>)
    requires strings <= i <= |cells|
    decreases |cells| - i
    ensures SplitFrom(cells, i, strings, floats, str, num).strings == []
  {
    if i < |cells| && i < strings + floats - 1 {
      SplitFromNoStrings(cells, i + 1, strings, floats, str, num);
    }
  }

  /** The string part from cell `i` on is the next cells, in order, each read
      by `str`. */
  lemma {:induction false} SplitFromStrings<C>(cells: seq<C>, i: nat, strings: int, floats: int,
                                               str: C -> Bytes, num: C -> Option<real>)
    requires i <= |cells|
    decreases |cells| - i
    ensures i + |SplitFrom(cells, i, strings, floats, str, num).strings| <= |cells|
    ensures SplitFrom(cells, i, strings, floats, str, num).strings
            == MapCells(cells[i..i + |SplitFrom(cells, i, strings, floats, str, num).strings|], str)
  {
    var r := SplitFrom(cells, i, strings, floats, str, num);
    if i == |cells| {
      assert r.strings == [] && cells[i..i] == [];
    } else if strings <= i {
      SplitFromNoStrings(cells, i, strings, floats, str, num);
      assert cells[i..i] == [];
    } else if i >= strings + floats - 1 {
      assert r.strings == [str(cells[i])];
      MapCellsStep(cells, i, i + 1, str);
      assert MapCells(cells[i + 1..i + 1], str) == [];
      assert r.strings == MapCells(cells[i..i + 1], str);
    } else {
      var rest := SplitFrom(cells, i + 1, strings, floats, str, num);
      var m := |rest.strings|;
      SplitFromStrings(cells, i + 1, strings, floats, str, num);
      assert rest.strings == MapCells(cells[i + 1..i + 1 + m], str);
      assert r.strings == [str(cells[i])] + rest.strings;
      MapCellsStep(cells, i, i + 1 + m, str);
      assert r.strings == MapCells(cells[i..i + 1 + m], str);
    }
  }

  /** While the loop is still in the string columns it adds nothing to the
      numeric part. */
  lemma {:induction false} SplitFromSkipsStrings<C>(cells: seq<C>, i: nat, strings: int, floats: int,
                                                    str: C -> Bytes, num: C -> Option<real>)
    requires i <= StringCount(|cells|, strings, floats) < Consumed(|cells|, strings, floats)
    decreases |cells| - i
    ensures SplitFrom(cells, i, strings, floats, str, num).numbers
            == SplitFrom(cells, StringCount(|cells|, strings, floats), strings, floats, str, num).numbers
  {
    var sc := StringCount(|cells|, strings, floats);
    if i < sc {
      assert i < |cells| && i < strings && i < strings + floats - 1;
      SplitFromSkipsStrings(cells, i + 1, strings, floats, str, num);
    }
  }

  /** Past the string columns the numeric part from cell `i` on is the next
      cells, in order, each read by `num`. */
  lemma {:induction false} SplitFromNumbersTail<C>(cells: seq<C>, i: nat, strings: int, floats: int,
                                                   str: C -> Bytes, num: C -> Option<real>)
    requires strings <= i <= |cells|
    decreases |cells| - i
    ensures i + |SplitFrom(cells, i, strings, floats, str, num).numbers| <= |cells|
    ensures SplitFrom(cells, i, strings, floats, str, num).numbers
            == MapCells(cells[i..i + |SplitFrom(cells, i, strings, floats, str, num).numbers|], num)
  {
    var r := SplitFrom(cells, i, strings, floats, str, num);
    if i == |cells| {
      assert r.numbers == [];
    } else if i >= strings + floats - 1 {
      assert r.numbers == [num(cells[i])];
      MapCellsStep(cells, i, i + 1, num);
      assert MapCells(cells[i + 1..i + 1], num) == [];
      assert r.numbers == MapCells(cells[i..i + 1], num);
    } else {
      var rest := SplitFrom(cells, i + 1, strings, floats, str, num);
      var m := |rest.numbers|;
      SplitFromNumbersTail(cells, i + 1, strings, floats, str, num);
      assert rest.numbers == MapCells(cells[i + 1..i + 1 + m], num);
      assert r.numbers == [num(cells[i])] + rest.numbers;
      MapCellsStep(cells, i, i + 1 + m, num);
      assert r.numbers == MapCells(cells[i..i + 1 + m], num);
    }
  }

  /** The whole row loop, from the first cell: of the row's `n` cells the
      first `c = min(n, max(strings + floats, 1))` are consumed, the first
      `sc = min(c, strings)` of them into the string part and the rest, in
      order, into the numeric part; trailing cells are ignored. */
  lemma SplitFromStart<C>(cells: seq<C>, strings: int, floats: int,
                          str: C -> Bytes, num: C -> Option<real>)
    ensures StringCount(|cells|, strings, floats) <= Consumed(|cells|, strings, floats) <= |cells|
    ensures SplitFrom(cells, 0, strings, floats, str, num).strings
            == MapCells(cells[..StringCount(|cells|, strings, floats)], str)
    ensures SplitFrom(cells, 0, strings, floats, str, num).numbers
            == MapCells(cells[StringCount(|cells|, strings, floats)..Consumed(|cells|, strings, floats)], num)
  {
    var r := SplitFrom(cells, 0, strings, floats, str, num);
    var c := Consumed(|cells|, strings, floats);
    var sc := StringCount(|cells|, strings, floats);
    SplitFromLengths(cells, 0, strings, floats, str, num);
    SplitFromStrings(cells, 0, strings, floats, str, num);
    assert |r.strings| == sc && |r.numbers| == c - sc;
    assert cells[0..sc] == cells[..sc];
    if sc < c {
      SplitFromSkipsStrings(cells, 0, strings, floats, str, num);
      SplitFromNumbersTail(cells, sc, strings, floats, str, num);
    } else {
      assert r.numbers == [];
    }
  }

  /** One `tr` of the body, read by the row loop; `SplitFromStart` states
      which cell lands where. */
  function SplitRow(cells: seq<Cell>, strings: int, floats: int,
                    isGerman: string, encoding: string, encode: Encoder): Record {
    SplitFrom(cells, 0, strings, floats, StringCell(encoding, encode), NumberCell(isGerman))
  }

  /** With 2 string and 3 numeric columns a row of 7 cells yields 2 strings
      and 3 numbers, the last read from the fifth cell; the last two cells
      are ignored. */
  lemma SplitFromDropsTrailing<C>(cells: seq<C>, str: C -> Bytes, num: C -> Option<real>)
    requires |cells| == 7
    ensures var r := SplitFrom(cells, 0, 2, 3, str, num);
            && |r.strings| == 2 && |r.numbers| == 3
            && r.numbers[2] == num(cells[4])
  {
    assert Consumed(7, 2, 3) == 5;
    assert StringCount(7, 2, 3) == 2;
    SplitFromStart(cells, 2, 3, str, num);
  }

  /** With no columns configured the first cell is still consumed, into the
      numeric part, before the loop breaks. */
  lemma SplitFromNoColumns<C>(cells: seq<C>, str: C -> Bytes, num: C -> Option<real>)
    requires |cells| > 0
    ensures SplitFrom(cells, 0, 0, 0, str, num) == Record([], [num(cells[0])])
  {
  }

  /** A numeric-position cell without text is missing, never zero. */
  lemma EmptyNumberCellIsMissing(c: Cell, isGerman: string)
    requires forall i :: 0 <= i < |c.texts| ==> Strip(c.texts[i]) == ""
    ensures NumberCell(isGerman)(c) == None
  {
    CellTextFirstNode(c);
    ParseCellEmpty(isGerman);
  }

  /** `get_table_data`: one record per `tr`, in body order. */
  function GetTableData(body: seq<seq<Cell>>, strings: int, floats: int,
                        isGerman: string, encoding: string, encode: Encoder): (r: seq<Record>)
    ensures |r| == |body|
    ensures forall k :: 0 <= k < |r| ==> r[k] == SplitRow(body[k], strings, floats, isGerman, encoding, encode)
  {
    seq(|body|, k requires 0 <= k < |body| => SplitRow(body[k], strings, floats, isGerman, encoding, encode))
  }

  /** The URL `get_table` fetches. The constructor computes the START/END
      substitution but discards its result, so the configured URL is fetched
      as it stands. */
  function FetchUrl(url: string, start: int, end: int): string {
    url
  }

  /** `get_table`: fetch, classify the failures, find the table by class name. */
  function GetTable(response: Response, tableClass: string): (r: Result<Option<StaticTable>, ScrapeError>)
    ensures r.Err? <==> !response.Fetched?
    ensures r.Err? ==> IsRequestException(r.error)
    ensures response.BadStatus? ==> r == Err(HttpError(response.code))
    ensures r.Ok? ==> (r.value.Some? <==> tableClass in response.document.byClass)
  {
    match response
    case TimedOut => Err(RequestsTimeout)
    case BadStatus(code) => Err(HttpError(code))
    case TransportFailure => Err(RequestFailure)
    case Fetched(doc) =>
      Ok(if tableClass in doc.byClass then Some(doc.byClass[tableClass]) else None)
  }

  /** `RequestsScraper(...)`: fetch the page at the unmodified URL, then read
      the header and the body rows of the located table. */
  function Scrape(name: string, url: string, tableClass: string, isGerman: string,
                  strings: int, floats: int, encoding: Option<string>,
                  today: int, midnight: int -> int, fetch: string -> Response, now: int, encode: Encoder): (r: Result<Snapshot, ScrapeError>)
    ensures r.Err? && IsRequestException(r.error) <==> !fetch(url).Fetched?
    ensures r.Ok? <==>
              && fetch(url).Fetched?
              && tableClass in fetch(url).document.byClass
              && fetch(url).document.byClass[tableClass].head.Some?
              && fetch(url).document.byClass[tableClass].body.Some?
    ensures r.Ok? ==>
              var table := fetch(url).document.byClass[tableClass];
              var enc := EncodingOrDefault(encoding);
              && r.value == Snapshot(name,
                                     GetColumnNames(table.head.value, enc, encode),
                                     GetTableData(table.body.value, strings, floats, isGerman, enc, encode),
                                     now)
  {
    var enc := EncodingOrDefault(encoding);
    var window := StartEndTime(None, today, midnight);
    var found :- GetTable(fetch(FetchUrl(url, window.0, window.1)), tableClass);
    if found.None? || found.value.head.None? || found.value.body.None? then Err(MissingElement)
    else
      Ok(Snapshot(name,
                  GetColumnNames(found.value.head.value, enc, encode),
                  GetTableData(found.value.body.value, strings, floats, isGerman, enc, encode),
                  now))
  }

  /** The day window never reaches the request: two scrapes on different
      days, or with different clocks, fetch the same URL and return the same
      result. */
  lemma ScrapeIgnoresWindow(name: string, url: string, tableClass: string, isGerman: string,
                            strings: int, floats: int, encoding: Option<string>,
                            day1: int, midnight1: int -> int, day2: int, midnight2: int -> int,
                            fetch: string -> Response, now: int, encode: Encoder)
    ensures Scrape(name, url, tableClass, isGerman, strings, floats, encoding, day1, midnight1, fetch, now, encode)
         == Scrape(name, url, tableClass, isGerman, strings, floats, encoding, day2, midnight2, fetch, now, encode)
  {
  }
}
