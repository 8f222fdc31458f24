/** One collection run: read the source configuration, register every source
    in the store, and per source decide whether to scrape, with a bounded
    retry loop around the scraper. Scraping itself is modelled by the outcome
    of each attempt, given as a function from attempt number to outcome. */
module Orchestrator {
  import opened Results
  import opened Tables
  import opened DataCollector

  /** The configuration columns, in file order. */
  const ConfigColumns: seq<string> :=
    ["name", "url", "method", "page_handler", "cockie_handler",
     "table_name", "is_german", "num_str_cols", "num_float_cols", "encoding"]

  /** How many times `get_data` tries a scraper. */
  const MaxAttempts: nat := 5

  /** How long `get_data` sleeps after a retried failure. */
  const RetryDelay: nat := 30

  /** `dict(zip(keys, values))`: pairs up to the shorter of the two, a later
      pair overwriting an earlier one with the same key. */
  function Pairs(keys: seq<string>, values: seq<string>): (r: map<string, string>)
    decreases |keys|
  {
    if |keys| == 0 || |values| == 0 then map[]
    else
      var n := if |keys| < |values| then |keys| else |values|;
      Pairs(keys[..n - 1], values[..n - 1])[keys[n - 1] := values[n - 1]]
  }

  /** Every key within reach is present, with the value of its last pair. */
  lemma {:induction false} PairsLookup(keys: seq<string>, values: seq<string>, i: nat)
    requires i < |keys| && i < |values|
    requires forall j :: i < j < |keys| && j < |values| ==> keys[j] != keys[i]
    ensures keys[i] in Pairs(keys, values) && Pairs(keys, values)[keys[i]] == values[i]
    decreases |keys|
  {
    var n := if |keys| < |values| then |keys| else |values|;
    if i < n - 1 {
      PairsLookup(keys[..n - 1], values[..n - 1], i);
    }
  }

  /** A row's fields under the configuration column names. */
  function Zip(row: seq<string>): map<string, string> {
    Pairs(ConfigColumns, row)
  }

  /** A row that reaches the second column has its URL under "url". */
  lemma ZipUrl(row: seq<string>)
    requires |row| > 1
    ensures "url" in Zip(row) && Zip(row)["url"] == row[1]
  {
    assert forall j :: 1 < j < |ConfigColumns| ==> ConfigColumns[j] != "url";
    PairsLookup(ConfigColumns, row, 1);
  }

  /** The sources read from the configuration: their names in first-insertion
      order (Python dict order) and each name's fields. */
  datatype Config = Config(order: seq<string>, entries: map<string, map<string, string>>)

  predicate Distinct(s: seq<string>) {
    forall i, j :: 0 <= i < j < |s| ==> s[i] != s[j]
  }

  /** What a configuration keeps: every name once, in order, each with fields. */
  predicate WellFormed(c: Config) {
    && Distinct(c.order)
    && (forall k :: k in c.entries ==> k in c.order)
    && (forall i :: 0 <= i < |c.order| ==> c.order[i] in c.entries)
  }

  datatype CollectError =
    | EmptyRow(index: nat)          // `row[0]` on an empty row
    | MissingField(field: string)   // a configuration field the row does not reach
    | Store(error: StoreError)      // the store raised
    | Raised                        // the scraper raised past `get_data`
    | NothingToUnpack               // `get_data` returned `None`

  /** `wp_data[row[0]] = ...`: a new name goes to the end of the order; a name
      seen before keeps its place and gets the new fields. */
  function Insert(c: Config, row: seq<string>): (r: Config)
    requires |row| > 0
    ensures r.entries == c.entries[row[0] := Zip(row)]
    ensures row[0] in c.entries ==> r.order == c.order
    ensures row[0] !in c.entries ==> r.order == c.order + [row[0]]
  {
    if row[0] in c.entries then Config(c.order, c.entries[row[0] := Zip(row)])
    else Config(c.order + [row[0]], c.entries[row[0] := Zip(row)])
  }

  /** Inserting keeps every name once, each with fields. */
  lemma InsertWellFormed(c: Config, row: seq<string>)
    requires WellFormed(c) && |row| > 0
    ensures WellFormed(Insert(c, row))
  {
  }

  /** The configuration after the first `n` lines, the header line skipped. */
  function Load(rows: seq<seq<string>>, n: nat): (r: Result<Config, CollectError>)
    requires n <= |rows|
    ensures r.Err? ==> r.error.EmptyRow? && r.error.index < n
  {
    if n <= 1 then Ok(Config([], map[]))
    else
      var before :- Load(rows, n - 1);
      if |rows[n - 1]| == 0 then Err(EmptyRow(n - 1))
      else Ok(Insert(before, rows[n - 1]))
  }

  /** No line among the first `n` after the header is empty. */
  predicate NoEmptyLine(rows: seq<seq<string>>, n: nat)
    requires n <= |rows|
  {
    forall i :: 1 <= i < n ==> |rows[i]| > 0
  }

  /** Reading the configuration succeeds exactly when no line after the
      header is empty, and then keeps every name once, each with fields. */
  lemma {:induction false} LoadAccepts(rows: seq<seq<string>>, n: nat)
    requires n <= |rows|
    ensures Load(rows, n).Ok? <==> NoEmptyLine(rows, n)
    ensures Load(rows, n).Ok? ==> WellFormed(Load(rows, n).value)
  {
    if n > 1 {
      LoadAccepts(rows, n - 1);
      if Load(rows, n - 1).Ok? && |rows[n - 1]| > 0 {
        InsertWellFormed(Load(rows, n - 1).value, rows[n - 1]);
      }
    }
  }

  /** One more line: a successful load extends the previous one by that line. */
  lemma LoadStep(rows: seq<seq<string>>, n: nat)
    requires 1 < n <= |rows| && Load(rows, n).Ok?
    ensures Load(rows, n - 1).Ok? && |rows[n - 1]| > 0
    ensures Load(rows, n).value.entries == Load(rows, n - 1).value.entries[rows[n - 1][0] := Zip(rows[n - 1])]
  {
  }

  /** The configuration has exactly the names of the lines after the header. */
  lemma {:induction false} LoadNames(rows: seq<seq<string>>, n: nat)
    requires n <= |rows| && NoEmptyLine(rows, n)
    ensures Load(rows, n).Ok?
    ensures forall k :: k in Load(rows, n).value.entries <==> exists i :: 1 <= i < n && rows[i][0] == k
  {
    LoadAccepts(rows, n);
    if n > 1 {
      LoadStep(rows, n);
      LoadNames(rows, n - 1);
      var before := Load(rows, n - 1).value.entries;
      var after := Load(rows, n).value.entries;
      var name := rows[n - 1][0];
      assert after == before[name := Zip(rows[n - 1])];
      forall k | k in after
        ensures exists i :: 1 <= i < n && rows[i][0] == k
      {
        if k != name {
          assert k in before;
          var i :| 1 <= i < n - 1 && rows[i][0] == k;
          assert 1 <= i < n && rows[i][0] == k;
        } else {
          assert 1 <= n - 1 < n && rows[n - 1][0] == k;
        }
      }
      forall k | exists i :: 1 <= i < n && rows[i][0] == k
        ensures k in after
      {
        var i :| 1 <= i < n && rows[i][0] == k;
        if i < n - 1 {
          assert k in before;
        }
      }
    }
  }

  /** Each name has the fields of the last line that carries it. */
  lemma {:induction false} LoadLastWins(rows: seq<seq<string>>, n: nat, i: nat)
    requires n <= |rows| && NoEmptyLine(rows, n)
    requires 1 <= i < n
    requires forall j :: i < j < n ==> rows[j][0] != rows[i][0]
    ensures Load(rows, n).Ok?
    ensures rows[i][0] in Load(rows, n).value.entries
    ensures Load(rows, n).value.entries[rows[i][0]] == Zip(rows[i])
  {
    LoadAccepts(rows, n);
    LoadStep(rows, n);
    var before := Load(rows, n - 1).value.entries;
    var after := Load(rows, n).value.entries;
    var name := rows[i][0];
    if i < n - 1 {
      LoadLastWins(rows, n - 1, i);
      assert rows[n - 1][0] != name;
      assert name in before && after[name] == before[name];
    } else {
      assert after[name] == Zip(rows[i]);
    }
  }

  /** The fields `collect` needs, looked up by name. */
  function Field(entry: map<string, string>, field: string): (r: Result<string, CollectError>)
    ensures r.Ok? <==> field in entry
    ensures r.Ok? ==> r.value == entry[field]
  {
    if field in entry then Ok(entry[field]) else Err(MissingField(field))
  }

  /** `dict(zip(wp_data.keys(), wp_urls))`: each source's URL. */
  function SourceUrls(c: Config): (r: Result<map<string, string>, CollectError>)
    ensures r.Ok? <==> forall k :: k in c.entries ==> "url" in c.entries[k]
    ensures r.Ok? ==> r.value.Keys == c.entries.Keys
    ensures r.Ok? ==> forall k :: k in r.value ==> r.value[k] == c.entries[k]["url"]
  {
    if forall k :: k in c.entries ==> "url" in c.entries[k] then
      Ok(map k | k in c.entries :: c.entries[k]["url"])
    else Err(MissingField("url"))
  }

  /** How one scraper attempt ended. */
  datatype Attempt =
    | Succeeded(snapshot: Snapshot)
    | RequestFailed      // a `RequestException`
    | OtherFailure       // any other exception

  /** How `get_data` ended: with a value (`None` after the last failed try,
      or for an unknown scraper) or with an exception it let through. */
  datatype Ending = Returned(value: Option<Snapshot>) | Propagated

  /** A run of `get_data`: how it ended, how often it slept and what it
      logged (`true` for a success entry, `false` for a failure entry). */
  datatype Run = Run(ending: Ending, sleeps: nat, logs: seq<bool>)

  /** Whether `get_data` sleeps and tries again after this outcome: the
      Selenium branch catches every exception, the Requests branch only a
      `RequestException`. */
  predicate Retried(scraper: string, a: Attempt) {
    (scraper == "SELENIUM" && !a.Succeeded?) || (scraper == "REQUESTS" && a.RequestFailed?)
  }

  /** The retry loop from attempt `i` on. The first attempt that is not
      retried decides the run; when every remaining attempt is retried, the
      run returns `None` after one failure entry. */
  function Attempts(scraper: string, outcome: nat -> Attempt, i: nat): (r: Run)
    requires scraper == "SELENIUM" || scraper == "REQUESTS"
    requires i <= MaxAttempts
    decreases MaxAttempts - i
    ensures i + r.sleeps <= MaxAttempts
    ensures forall k :: i <= k < i + r.sleeps ==> Retried(scraper, outcome(k))
    ensures i + r.sleeps == MaxAttempts ==> r.ending == Returned(None) && r.logs == [false]
    ensures i + r.sleeps < MaxAttempts ==>
              var last := outcome(i + r.sleeps);
              && !Retried(scraper, last)
              && (last.Succeeded? ==> r.ending == Returned(Some(last.snapshot)) && r.logs == [true])
              && (!last.Succeeded? ==> r.ending == Propagated && r.logs == [])
  {
    if i == MaxAttempts then Run(Returned(None), 0, [false])
    else if outcome(i).Succeeded? then Run(Returned(Some(outcome(i).snapshot)), 0, [true])
    else if Retried(scraper, outcome(i)) then
      var rest := Attempts(scraper, outcome, i + 1);
      Run(rest.ending, rest.sleeps + 1, rest.logs)
    else Run(Propagated, 0, [])
  }

  /** `get_data`: up to five tries of the configured scraper; any other method
      returns `None` without trying or logging. */
  function ScrapeWithRetry(scraper: string, outcome: nat -> Attempt): (r: Run)
    ensures scraper != "SELENIUM" && scraper != "REQUESTS" ==> r == Run(Returned(None), 0, [])
    ensures |r.logs| <= 1 && r.sleeps <= MaxAttempts
    ensures r.ending.Returned? && r.ending.value.Some? ==> r.logs == [true]
  {
    if scraper == "SELENIUM" || scraper == "REQUESTS" then Attempts(scraper, outcome, 0)
    else Run(Returned(None), 0, [])
  }

  /** The time `get_data` spends sleeping. */
  function SleepTime(r: Run): nat {
    r.sleeps * RetryDelay
  }

  /** The Selenium branch never lets an exception through. */
  lemma SeleniumNeverPropagates(outcome: nat -> Attempt)
    ensures ScrapeWithRetry("SELENIUM", outcome).ending.Returned?
  {
    var r := Attempts("SELENIUM", outcome, 0);
    if r.sleeps < MaxAttempts {
      assert !Retried("SELENIUM", outcome(r.sleeps));
    }
  }

  /** The Requests branch gives up at once on any other exception. */
  lemma RequestsStopsOnOtherFailure(outcome: nat -> Attempt)
    requires outcome(0) == OtherFailure
    ensures ScrapeWithRetry("REQUESTS", outcome) == Run(Propagated, 0, [])
  {
  }

  /** When every try fails and is retried, `get_data` sleeps five times,
      logs one failure and returns `None`. */
  lemma {:induction false} AllAttemptsFail(scraper: string, outcome: nat -> Attempt)
    requires scraper == "SELENIUM" || scraper == "REQUESTS"
    requires forall k :: 0 <= k < MaxAttempts ==> Retried(scraper, outcome(k))
    ensures ScrapeWithRetry(scraper, outcome) == Run(Returned(None), MaxAttempts, [false])
    ensures SleepTime(ScrapeWithRetry(scraper, outcome)) == 150
  {
    var r := Attempts(scraper, outcome, 0);
  }

  /** The first success ends the loop after one sleep per earlier try. */
  lemma FirstSuccessReturns(scraper: string, outcome: nat -> Attempt, k: nat)
    requires scraper == "SELENIUM" || scraper == "REQUESTS"
    requires k < MaxAttempts && outcome(k).Succeeded?
    requires forall j :: 0 <= j < k ==> Retried(scraper, outcome(j))
    ensures ScrapeWithRetry(scraper, outcome) == Run(Returned(Some(outcome(k).snapshot)), k, [true])
  {
    var r := Attempts(scraper, outcome, 0);
  }

  /** What `collect` makes of a run: the snapshot, or the failure that ends
      the collection (an exception, or unpacking `None`). */
  function Scraped(r: Run): (s: Result<Snapshot, CollectError>)
    ensures s.Ok? <==> r.ending.Returned? && r.ending.value.Some?
    ensures s.Ok? ==> s.value == r.ending.value.value
  {
    match r.ending
    case Propagated => Err(Raised)
    case Returned(None) => Err(NothingToUnpack)
    case Returned(Some(s)) => Ok(s)
  }

  function FromStore<T>(r: Result<T, StoreError>): Result<T, CollectError> {
    match r
    case Ok(v) => Ok(v)
    case Err(e) => Err(Store(e))
  }

  /** The per-source step of `collect`: without column names, scrape and
      store the names and today's data; with names but without today's data,
      scrape and store the data; with both, leave the store alone. */
  function ProcessSource(c: Collector, file: File, key: string, entry: map<string, string>,
                         today: int, outcome: nat -> Attempt): (r: Result<File, CollectError>)
    ensures Lookup(c, file, key).Err? ==> r == Err(Store(NoGroup(c.parent, key)))
    ensures (&& Lookup(c, file, key).Ok?
             && IsSavedColumns(c, file, key) == Ok(true)
             && IsSavedData(c, file, key, Some(today), today) == Ok(true)) ==> r == Ok(file)
    ensures r.Ok? ==> IsSavedColumns(c, r.value, key) == Ok(true)
    ensures r.Ok? ==> IsSavedData(c, r.value, key, Some(today), today) == Ok(true)
  {
    if Lookup(c, file, key).Err? then Err(Store(Lookup(c, file, key).error))
    else
      var hasColumns := IsSavedColumns(c, file, key).value;
      var hasData := IsSavedData(c, file, key, Some(today), today).value;
      if hasColumns && hasData then Ok(file)
      else
        var scraper :- Field(entry, "method");
        var snapshot :- Scraped(ScrapeWithRetry(scraper, outcome));
        var named := if hasColumns then file else StoreColumnNames(c, file, snapshot.columnNames, key).value;
        StoreColumnsThenGet(c, file, snapshot.columnNames, key, key, today, today);
        StoreThenGet(c, named, snapshot.data, key, snapshot.scrapedAt, Some(today), today);
        StoreDataKeepsColumns(c, named, snapshot.data, key, snapshot.scrapedAt, Some(today), today, key);
        Ok(StoreData(c, named, snapshot.data, key, snapshot.scrapedAt, Some(today), today).value)
  }

  /** A source with names and today's data is never scraped: the attempts do
      not matter. */
  lemma SavedSourceNotScraped(c: Collector, file: File, key: string, entry: map<string, string>,
                              today: int, o1: nat -> Attempt, o2: nat -> Attempt)
    requires IsSavedColumns(c, file, key) == Ok(true)
    requires IsSavedData(c, file, key, Some(today), today) == Ok(true)
    ensures ProcessSource(c, file, key, entry, today, o1) == ProcessSource(c, file, key, entry, today, o2) == Ok(file)
  {
  }

  /** A source without column names gets the scraped names and data. */
  lemma NewSourceStoresSnapshot(c: Collector, file: File, key: string, entry: map<string, string>,
                                today: int, outcome: nat -> Attempt, s: Snapshot)
    requires Lookup(c, file, key).Ok? && IsSavedColumns(c, file, key) == Ok(false)
    requires "method" in entry && ScrapeWithRetry(entry["method"], outcome).ending == Returned(Some(s))
    ensures var r := ProcessSource(c, file, key, entry, today, outcome);
            && r.Ok?
            && GetColumnNames(c, r.value, key) == Ok(s.columnNames)
            && (IsSavedData(c, file, key, Some(today), today) == Ok(false) ==>
                  GetData(c, r.value, key, Some(today), today) == Ok(s.data))
  {
    var named := StoreColumnNames(c, file, s.columnNames, key).value;
    StoreColumnsThenGet(c, file, s.columnNames, key, key, today, today);
    StoreThenGet(c, named, s.data, key, s.scrapedAt, Some(today), today);
    StoreDataKeepsColumns(c, named, s.data, key, s.scrapedAt, Some(today), today, key);
  }

  /** A source with column names but without today's data gets the scraped
      data for today; its stored names stay as they are. */
  lemma MissingDataStoresSnapshot(c: Collector, file: File, key: string, entry: map<string, string>,
                                  today: int, outcome: nat -> Attempt, s: Snapshot)
    requires IsSavedColumns(c, file, key) == Ok(true)
    requires IsSavedData(c, file, key, Some(today), today) == Ok(false)
    requires "method" in entry && ScrapeWithRetry(entry["method"], outcome).ending == Returned(Some(s))
    ensures var r := ProcessSource(c, file, key, entry, today, outcome);
            && r.Ok?
            && GetData(c, r.value, key, Some(today), today) == Ok(s.data)
            && GetColumnNames(c, r.value, key) == GetColumnNames(c, file, key)
  {
    assert Lookup(c, file, key).Ok?;
    StoreThenGet(c, file, s.data, key, s.scrapedAt, Some(today), today);
    StoreDataKeepsColumns(c, file, s.data, key, s.scrapedAt, Some(today), today, key);
  }

  /** A source missing its names or today's data fails the collection when
      its entry has no "method" field, or when `get_data` raised or gave
      `None`; the error is the one the step met. */
  lemma IncompleteSourceFails(c: Collector, file: File, key: string, entry: map<string, string>,
                              today: int, outcome: nat -> Attempt)
    requires Lookup(c, file, key).Ok?
    requires IsSavedColumns(c, file, key) == Ok(false) || IsSavedData(c, file, key, Some(today), today) == Ok(false)
    requires "method" !in entry || Scraped(ScrapeWithRetry(entry["method"], outcome)).Err?
    ensures var r := ProcessSource(c, file, key, entry, today, outcome);
            && r.Err?
            && ("method" !in entry ==> r.error == MissingField("method"))
            && ("method" in entry ==> r.error == Scraped(ScrapeWithRetry(entry["method"], outcome)).error)
  {
    assert IsSavedColumns(c, file, key).Ok? && IsSavedData(c, file, key, Some(today), today).Ok?;
  }

  /** The source loop of `collect`, over the names from index `i` on; the
      first failure ends it. */
  function ProcessFrom(c: Collector, file: File, config: Config, i: nat, today: int,
                       outcomes: string -> (nat -> Attempt)): Result<File, CollectError>
    requires WellFormed(config) && i <= |config.order|
    decreases |config.order| - i
  {
    if i == |config.order| then Ok(file)
    else
      var key := config.order[i];
      var next :- ProcessSource(c, file, key, config.entries[key], today, outcomes(key));
      ProcessFrom(c, next, config, i + 1, today, outcomes)
  }

  /** Whether a source has column names and today's data. */
  predicate Complete(c: Collector, file: File, key: string, today: int) {
    IsSavedColumns(c, file, key) == Ok(true) && IsSavedData(c, file, key, Some(today), today) == Ok(true)
  }

  /** One source's step keeps every complete source complete. */
  lemma ProcessSourceKeepsComplete(c: Collector, file: File, k: string, entry: map<string, string>,
                                   today: int, outcome: nat -> Attempt, key: string)
    requires Complete(c, file, key, today)
    requires ProcessSource(c, file, k, entry, today, outcome).Ok?
    ensures Complete(c, ProcessSource(c, file, k, entry, today, outcome).value, key, today)
  {
    var g := Lookup(c, file, k).value;
    if !(g.columns.Some? && today in g.datasets) {
      var s := Scraped(ScrapeWithRetry(entry["method"], outcome)).value;
      var named := if g.columns.Some? then file else StoreColumnNames(c, file, s.columnNames, k).value;
      StoreColumnsThenGet(c, file, s.columnNames, k, key, today, today);
      StoreDataKeepsColumns(c, named, s.data, k, s.scrapedAt, Some(today), today, key);
      if key != k {
        StoreDataFrame(c, named, s.data, k, s.scrapedAt, Some(today), today, key, today);
      }
    }
  }

  /** A source loop that gets through leaves every source it passed, and
      every source complete before it, complete. */
  lemma {:induction false} ProcessFromCompletes(c: Collector, file: File, config: Config, i: nat, today: int,
                                                outcomes: string -> (nat -> Attempt), key: string)
    requires WellFormed(config) && i <= |config.order|
    requires ProcessFrom(c, file, config, i, today, outcomes).Ok?
    requires Complete(c, file, key, today) || exists k :: i <= k < |config.order| && config.order[k] == key
    decreases |config.order| - i
    ensures Complete(c, ProcessFrom(c, file, config, i, today, outcomes).value, key, today)
  {
    if i < |config.order| {
      var k := config.order[i];
      var step := ProcessSource(c, file, k, config.entries[k], today, outcomes(k));
      assert step.Ok?;
      var next := step.value;
      assert ProcessFrom(c, file, config, i, today, outcomes) == ProcessFrom(c, next, config, i + 1, today, outcomes);
      if Complete(c, file, key, today) {
        ProcessSourceKeepsComplete(c, file, k, config.entries[k], today, outcomes(k), key);
      } else {
        var j :| i <= j < |config.order| && config.order[j] == key;
        if j == i {
          assert Complete(c, next, key, today);
        } else {
          assert i + 1 <= j < |config.order| && config.order[j] == key;
        }
      }
      ProcessFromCompletes(c, next, config, i + 1, today, outcomes, key);
    }
  }

  /** `collect`: read the configuration, register every source in the store,
      then process the sources in configuration order. */
  function Collect(rows: seq<seq<string>>, file: File, today: int,
                   outcomes: string -> (nat -> Attempt)): Result<File, CollectError>
  {
    var config :- Load(rows, |rows|);
    LoadAccepts(rows, |rows|);
    var urls :- SourceUrls(config);
    var (c, registered) := Open(Some(ParentName), Some(urls), file, today);
    ProcessFrom(c, registered, config, 0, today, outcomes)
  }

  /** A collection that gets through is the source loop over the store
      with every configured source registered. */
  lemma CollectIsLoop(rows: seq<seq<string>>, file: File, today: int, outcomes: string -> (nat -> Attempt))
    ensures Collect(rows, file, today, outcomes).Ok? ==>
              && Load(rows, |rows|).Ok? && SourceUrls(Load(rows, |rows|).value).Ok?
              && WellFormed(Load(rows, |rows|).value)
              && var config := Load(rows, |rows|).value;
                 var start := Open(Some(ParentName), Some(SourceUrls(config).value), file, today);
                 Collect(rows, file, today, outcomes) == ProcessFrom(start.0, start.1, config, 0, today, outcomes)
  {
    LoadAccepts(rows, |rows|);
  }

  /** A collection that gets through leaves every configured source with
      column names and today's data. */
  lemma CollectCompletesEverySource(rows: seq<seq<string>>, file: File, today: int,
                                    outcomes: string -> (nat -> Attempt), key: string)
    ensures Collect(rows, file, today, outcomes).Ok? ==>
              Load(rows, |rows|).Ok? && SourceUrls(Load(rows, |rows|).value).Ok?
    ensures Collect(rows, file, today, outcomes).Ok? && key in Load(rows, |rows|).value.entries ==>
              var c := Collector(ParentName, SourceUrls(Load(rows, |rows|).value).value);
              Complete(c, Collect(rows, file, today, outcomes).value, key, today)
  {
    CollectIsLoop(rows, file, today, outcomes);
    if Collect(rows, file, today, outcomes).Ok? {
      var config := Load(rows, |rows|).value;
      if key in config.entries {
        LoopCompletesConfigured(config, SourceUrls(config).value, file, today, outcomes, key);
      }
    }
  }

  /** The source loop over a freshly opened store completes every configured
      source. */
  lemma LoopCompletesConfigured(config: Config, urls: map<string, string>, file: File, today: int,
                                outcomes: string -> (nat -> Attempt), key: string)
    requires WellFormed(config) && key in config.entries
    ensures var start := Open(Some(ParentName), Some(urls), file, today);
            ProcessFrom(start.0, start.1, config, 0, today, outcomes).Ok? ==>
              Complete(Collector(ParentName, urls), ProcessFrom(start.0, start.1, config, 0, today, outcomes).value, key, today)
  {
    var start := Open(Some(ParentName), Some(urls), file, today);
    if ProcessFrom(start.0, start.1, config, 0, today, outcomes).Ok? {
      assert start.0 == Collector(ParentName, urls);
      assert key in config.order;
      ProcessFromCompletes(start.0, start.1, config, 0, today, outcomes, key);
    }
  }

  /** Every configured source is a group of the store before the source loop
      runs. */
  lemma RegisteredBeforeLoop(rows: seq<seq<string>>, file: File, today: int)
    requires Load(rows, |rows|).Ok? && SourceUrls(Load(rows, |rows|).value).Ok?
    ensures var config := Load(rows, |rows|).value;
            var (c, registered) := Open(Some(ParentName), Some(SourceUrls(config).value), file, today);
            forall k :: k in config.entries ==> Lookup(c, registered, k).Ok?
  {
  }
}
