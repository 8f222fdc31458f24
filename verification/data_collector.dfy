/** The store: one HDF5 file with a parent group holding one group per source.
    A source group keeps its URL, the column names written once, and one
    dataset per day, each written once. The file is modelled as a value that
    every operation takes and the writing ones return. */
module DataCollector {
  import opened Results
  import opened Functions
  import opened Tables

  /** The parent group used when none is given. */
  const ParentName: string := "webpages to be informed"

  /** The sources a collector registers when none are given: name to URL. */
  const GroupNames: map<string, string> :=
    map["SMARD.DE" := "https://www.smard.de/",
        "finance.yahoo.com" := "https://finance.yahoo.com",
        "divi Register" := "https://www.intensivregister.de/",
        "dwd" := "https://www.dwd.de"]

  /** A day's dataset: the records and the time they were scraped. */
  datatype Dataset = Dataset(rows: seq<Record>, scrapedAt: int)

  /** A source group: its URL, the day it was created, the column names once
      written, and the datasets by day. A day stands for the dataset name the
      source derives from it (the local-midnight timestamp as text), which is
      different for different days. */
  datatype Group = Group(url: string, createdOn: int, columns: Option<seq<Bytes>>, datasets: map<int, Dataset>)

  /** The parent group: the day it was created and the source groups. */
  datatype Root = Root(createdOn: int, groups: map<string, Group>)

  /** The file: top-level groups by name. */
  type File = map<string, Root>

  /** What a collector remembers: the name of its parent group and the
      sources it registered. */
  datatype Collector = Collector(parent: string, sources: map<string, string>)

  datatype StoreError =
    | NoGroup(parent: string, group: string)
    | NoDataset
    | NoColumnNames(group: string)

  /** The `ValueError` text each error carries. */
  function Message(e: StoreError): string {
    match e
    case NoGroup(parent, group) => "No group \"" + parent + "/" + group + "\" in database."
    case NoDataset => "No dataset in database."
    case NoColumnNames(group) => "No column names in group " + group + "."
  }

  /** A new source group: its URL, today's date and nothing stored yet. */
  function NewGroup(url: string, today: int): Group {
    Group(url, today, None, map[])
  }

  /** `DataCollector(...)`: create the parent group when missing, then a group
      for every source that does not have one yet; existing groups and every
      other top-level group are kept as they are. */
  function Open(parentName: Option<string>, groupNames: Option<map<string, string>>,
                file: File, today: int): (r: (Collector, File))
    ensures r.0.parent == (if parentName.Some? then parentName.value else ParentName)
    ensures r.0.sources == (if groupNames.Some? then groupNames.value else GroupNames)
    ensures r.1.Keys == file.Keys + {r.0.parent}
    ensures forall p :: p in file && p != r.0.parent ==> r.1[p] == file[p]
    ensures r.0.parent in file ==> r.1[r.0.parent].createdOn == file[r.0.parent].createdOn
    ensures r.0.parent !in file ==> r.1[r.0.parent].createdOn == today
    ensures var before := if r.0.parent in file then file[r.0.parent].groups else map[];
            && r.1[r.0.parent].groups.Keys == before.Keys + r.0.sources.Keys
            && (forall name :: name in before ==> r.1[r.0.parent].groups[name] == before[name])
            && (forall name :: name in r.0.sources && name !in before ==>
                  r.1[r.0.parent].groups[name] == NewGroup(r.0.sources[name], today))
  {
    var parent := if parentName.Some? then parentName.value else ParentName;
    var sources := if groupNames.Some? then groupNames.value else GroupNames;
    var root := if parent in file then file[parent] else Root(today, map[]);
    var groups := map name | name in root.groups.Keys + sources.Keys ::
                    if name in root.groups then root.groups[name] else NewGroup(sources[name], today);
    (Collector(parent, sources), file[parent := Root(root.createdOn, groups)])
  }

  /** Opening a file the collector has already opened changes nothing, on
      any later day. */
  lemma OpenIdempotent(parentName: Option<string>, groupNames: Option<map<string, string>>,
                       file: File, today: int, later: int)
    ensures var (c, once) := Open(parentName, groupNames, file, today);
            Open(parentName, groupNames, once, later) == (c, once)
  {
    var (c, once) := Open(parentName, groupNames, file, today);
    var (c2, twice) := Open(parentName, groupNames, once, later);
    var parent := c.parent;
    var g1 := once[parent].groups;
    var g2 := twice[parent].groups;
    assert c.sources.Keys <= g1.Keys;
    assert g2.Keys == g1.Keys;
    assert forall n :: n in g1 ==> g2[n] == g1[n];
    assert g2 == g1;
    assert twice[parent] == once[parent];
    assert forall p :: p in once ==> twice[p] == once[p];
    assert twice == once;
  }

  /** `file[parent][group]`, whose `KeyError` becomes the "no group" error. */
  function Lookup(c: Collector, file: File, group: string): (r: Result<Group, StoreError>)
    ensures r.Ok? <==> c.parent in file && group in file[c.parent].groups
    ensures r.Ok? ==> r.value == file[c.parent].groups[group]
    ensures r.Err? ==> r.error == NoGroup(c.parent, group)
  {
    if c.parent in file && group in file[c.parent].groups then Ok(file[c.parent].groups[group])
    else Err(NoGroup(c.parent, group))
  }

  /** The file with one source group replaced. */
  function Put(c: Collector, file: File, group: string, g: Group): File
    requires c.parent in file
  {
    file[c.parent := Root(file[c.parent].createdOn, file[c.parent].groups[group := g])]
  }

  /** `store_column_names`: the first column names written to a group stay;
      later writes are ignored. Nothing but that group's names changes. */
  function StoreColumnNames(c: Collector, file: File, columns: seq<Bytes>, group: string): (r: Result<File, StoreError>)
    ensures r.Err? <==> Lookup(c, file, group).Err?
    ensures r.Err? ==> r.error == NoGroup(c.parent, group)
    ensures r.Ok? && file[c.parent].groups[group].columns.Some? ==> r.value == file
    ensures r.Ok? ==> c.parent in r.value && r.value[c.parent].groups.Keys == file[c.parent].groups.Keys
    ensures r.Ok? ==>
              && r.value.Keys == file.Keys
              && (forall p :: p in file && p != c.parent ==> r.value[p] == file[p])
              && r.value[c.parent].createdOn == file[c.parent].createdOn
    ensures r.Ok? ==>
              var before := file[c.parent].groups;
              && (forall name :: name in before && name != group ==> r.value[c.parent].groups[name] == before[name])
              && r.value[c.parent].groups[group]
                 == before[group].(columns := if before[group].columns.Some? then before[group].columns else Some(columns))
  {
    var g :- Lookup(c, file, group);
    if g.columns.Some? then Ok(file)
    else Ok(Put(c, file, group, g.(columns := Some(columns))))
  }

  /** `store_data`: the first dataset written for a day stays; later writes
      for that day are ignored. The day defaults to today. */
  function StoreData(c: Collector, file: File, rows: seq<Record>, group: string,
                     scrapedAt: int, day: Option<int>, today: int): (r: Result<File, StoreError>)
    ensures r.Err? <==> Lookup(c, file, group).Err?
    ensures r.Err? ==> r.error == NoGroup(c.parent, group)
    ensures r.Ok? && DayOrToday(day, today) in file[c.parent].groups[group].datasets ==> r.value == file
    ensures r.Ok? ==> c.parent in r.value && r.value[c.parent].groups.Keys == file[c.parent].groups.Keys
  {
    var d := DayOrToday(day, today);
    var g :- Lookup(c, file, group);
    if d in g.datasets then Ok(file)
    else Ok(Put(c, file, group, g.(datasets := g.datasets[d := Dataset(rows, scrapedAt)])))
  }

  /** `get_data`: the records stored for a day, today by default. */
  function GetData(c: Collector, file: File, group: string, day: Option<int>, today: int): (r: Result<seq<Record>, StoreError>)
    ensures Lookup(c, file, group).Err? ==> r == Err(NoGroup(c.parent, group))
    ensures Lookup(c, file, group).Ok? ==>
              var g := Lookup(c, file, group).value;
              && (r.Ok? <==> DayOrToday(day, today) in g.datasets)
              && (r.Ok? ==> r.value == g.datasets[DayOrToday(day, today)].rows)
              && (r.Err? ==> r.error == NoDataset)
  {
    var g :- Lookup(c, file, group);
    var d := DayOrToday(day, today);
    if d in g.datasets then Ok(g.datasets[d].rows) else Err(NoDataset)
  }

  /** `get_column_names`. */
  function GetColumnNames(c: Collector, file: File, group: string): (r: Result<seq<Bytes>, StoreError>)
    ensures Lookup(c, file, group).Err? ==> r == Err(NoGroup(c.parent, group))
    ensures Lookup(c, file, group).Ok? ==>
              var g := Lookup(c, file, group).value;
              && (r.Ok? <==> g.columns.Some?)
              && (r.Ok? ==> Some(r.value) == g.columns)
              && (r.Err? ==> r.error == NoColumnNames(group))
  {
    var g :- Lookup(c, file, group);
    if g.columns.Some? then Ok(g.columns.value) else Err(NoColumnNames(group))
  }

  /** `is_saved_data`: whether a dataset exists for the day, today by default. */
  function IsSavedData(c: Collector, file: File, group: string, day: Option<int>, today: int): (r: Result<bool, StoreError>)
    ensures r.Err? <==> Lookup(c, file, group).Err?
    ensures r.Ok? ==> (r.value <==> GetData(c, file, group, day, today).Ok?)
  {
    var g :- Lookup(c, file, group);
    Ok(DayOrToday(day, today) in g.datasets)
  }

  /** `is_saved_columns`: whether the group has column names. */
  function IsSavedColumns(c: Collector, file: File, group: string): (r: Result<bool, StoreError>)
    ensures r.Err? <==> Lookup(c, file, group).Err?
    ensures r.Ok? ==> (r.value <==> GetColumnNames(c, file, group).Ok?)
  {
    var g :- Lookup(c, file, group);
    Ok(g.columns.Some?)
  }

  /** The days `get_last_days_group_data` asks for: today and the
      `numDays - 1` days before it. */
  predicate InLastDays(day: int, numDays: int, today: int) {
    today - numDays < day <= today
  }

  /** How many days `get_last_days_group_data` looks back when not told. */
  const DefaultNumDays := 7

  /** `get_last_days_group_data`: the stored records of the last `numDays`
      days (a week by default), by day; days without a dataset are absent. */
  function GetLastDays(c: Collector, file: File, group: string, numDays: Option<int>, today: int): (r: Result<map<int, seq<Record>>, StoreError>)
    ensures r.Err? <==> Lookup(c, file, group).Err?
    ensures r.Err? ==> r.error == NoGroup(c.parent, group)
    ensures r.Ok? ==> forall d :: d in r.value <==>
              && InLastDays(d, if numDays.Some? then numDays.value else DefaultNumDays, today)
              && GetData(c, file, group, Some(d), today).Ok?
    ensures r.Ok? ==> forall d :: d in r.value ==> Ok(r.value[d]) == GetData(c, file, group, Some(d), today)
  {
    var n := if numDays.Some? then numDays.value else DefaultNumDays;
    var g :- Lookup(c, file, group);
    Ok(map d | d in g.datasets && InLastDays(d, n, today) :: g.datasets[d].rows)
  }

  /** Asking for no days, or fewer, gives nothing. */
  lemma GetLastDaysNone(c: Collector, file: File, group: string, numDays: int, today: int)
    requires numDays <= 0
    requires Lookup(c, file, group).Ok?
    ensures GetLastDays(c, file, group, Some(numDays), today) == Ok(map[])
  {
    var r := GetLastDays(c, file, group, Some(numDays), today).value;
    assert forall d :: d !in r;
  }

  /** Storing a day's records and reading the day back gives the records,
      unless the day was stored before, in which case the first records stay. */
  lemma StoreThenGet(c: Collector, file: File, rows: seq<Record>, group: string,
                     scrapedAt: int, day: Option<int>, today: int)
    requires Lookup(c, file, group).Ok?
    ensures var after := StoreData(c, file, rows, group, scrapedAt, day, today);
            && after.Ok?
            && IsSavedData(c, after.value, group, day, today) == Ok(true)
            && (GetData(c, file, group, day, today).Err? ==> GetData(c, after.value, group, day, today) == Ok(rows))
            && (GetData(c, file, group, day, today).Ok? ==>
                  GetData(c, after.value, group, day, today) == GetData(c, file, group, day, today))
  {
  }

  /** Storing the records of one day changes no other day of any group. */
  lemma StoreDataFrame(c: Collector, file: File, rows: seq<Record>, group: string,
                       scrapedAt: int, day: Option<int>, today: int, other: string, otherDay: int)
    requires Lookup(c, file, group).Ok?
    requires other != group || otherDay != DayOrToday(day, today)
    ensures var after := StoreData(c, file, rows, group, scrapedAt, day, today).value;
            GetData(c, after, other, Some(otherDay), today) == GetData(c, file, other, Some(otherDay), today)
  {
  }

  /** Storing records changes no column names. */
  lemma StoreDataKeepsColumns(c: Collector, file: File, rows: seq<Record>, group: string,
                              scrapedAt: int, day: Option<int>, today: int, other: string)
    requires Lookup(c, file, group).Ok?
    ensures var after := StoreData(c, file, rows, group, scrapedAt, day, today).value;
            GetColumnNames(c, after, other) == GetColumnNames(c, file, other)
  {
  }

  /** Storing column names and reading them back gives the names first
      stored; no dataset changes, and no other group's names. */
  lemma StoreColumnsThenGet(c: Collector, file: File, columns: seq<Bytes>, group: string,
                            other: string, day: int, today: int)
    requires Lookup(c, file, group).Ok?
    ensures var after := StoreColumnNames(c, file, columns, group).value;
            && IsSavedColumns(c, after, group) == Ok(true)
            && (GetColumnNames(c, file, group).Err? ==> GetColumnNames(c, after, group) == Ok(columns))
            && (GetColumnNames(c, file, group).Ok? ==> GetColumnNames(c, after, group) == GetColumnNames(c, file, group))
            && GetData(c, after, other, Some(day), today) == GetData(c, file, other, Some(day), today)
            && (other != group ==> GetColumnNames(c, after, other) == GetColumnNames(c, file, other))
  {
  }

  /** A collector just opened knows every source it registered, and a new
      source has neither column names nor data. */
  lemma OpenedSourcesAreEmpty(parentName: Option<string>, groupNames: Option<map<string, string>>,
                              file: File, today: int, name: string, day: int)
    requires var sources := if groupNames.Some? then groupNames.value else GroupNames;
             var parent := if parentName.Some? then parentName.value else ParentName;
             name in sources && (parent !in file || name !in file[parent].groups)
    ensures var (c, after) := Open(parentName, groupNames, file, today);
            && Lookup(c, after, name).Ok?
            && IsSavedColumns(c, after, name) == Ok(false)
            && IsSavedData(c, after, name, Some(day), today) == Ok(false)
  {
  }
}
