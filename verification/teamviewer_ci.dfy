/**
 * `teamviewer_ci_parser.py`: reads a TeamViewer incoming_connections log
 * (one tab-separated connection per line) into the store under a case
 * reference, and writes the rows of a case out as a CSV or an HTML report.
 */
module TeamViewerCi {
  import opened Text
  import opened CsvRows
  import opened ConnectionStore

  /** The seven tab-separated columns of a log line, in order. */
  const FieldKeys: seq<string> := ["teamviewer_id", "teamviewer_name", "connection_start",
    "connection_end", "local_user", "connection_type", "unique_id"]

  /** The columns of the CSV report, in order. */
  const ReportHeader: seq<string> := ["id", CaseKey] + FieldKeys

  /** Entries go to the store in slices of this many. */
  const BatchSize: nat := 50

  // ---------------------------------------------------------------------------
  // One line into one entry

  /**
   * The dict the parser builds from a split line: the keys filled in column
   * order for as many fields as there are, up to seven, and `case_ref` only
   * when all seven were there (the first missing field raises before it).
   */
  function EntryOf(fields: seq<string>, caseRef: string): Entry {
    var n := Min(|fields|, |FieldKeys|);
    seq(n, j requires 0 <= j < n => (FieldKeys[j], fields[j]))
      + (if |fields| >= |FieldKeys| then [(CaseKey, caseRef)] else [])
  }

  /**
   * The body of the `try`: fill the dict key by key until a field index
   * fails; `complete` is false exactly when an error is logged.
   */
  method FillEntry(fields: seq<string>, caseRef: string) returns (entry: Entry, complete: bool)
    ensures entry == EntryOf(fields, caseRef)
    ensures complete <==> |fields| >= |FieldKeys|
  {
    entry := [];
    var i := 0;
    while i < |FieldKeys| && i < |fields|
      invariant i <= |FieldKeys| && i <= |fields|
      invariant entry == seq(i, j requires 0 <= j < i => (FieldKeys[j], fields[j]))
    {
      entry := entry + [(FieldKeys[i], fields[i])];
      i := i + 1;
    }
    complete := i == |FieldKeys|;
    if complete {
      entry := entry + [(CaseKey, caseRef)];
    }
  }

  /**
   * Read as a dict, an entry has each column key bound to its field when the
   * line had that many fields, and `case_ref` bound to the case only when
   * the line had all seven; fields past the seventh are not looked at.
   */
  lemma EntryOfLookup(fields: seq<string>, caseRef: string)
    ensures var e := EntryOf(fields, caseRef);
      forall j :: 0 <= j < |FieldKeys| ==>
        Lookup(e, FieldKeys[j]) == if j < |fields| then Some(fields[j]) else None
    ensures Lookup(EntryOf(fields, caseRef), CaseKey) == if |fields| >= |FieldKeys| then Some(caseRef) else None
    ensures EntryOf(fields, caseRef) == EntryOf(fields[..Min(|fields|, |FieldKeys|)], caseRef)
  {
    var e := EntryOf(fields, caseRef);
    var n := Min(|fields|, |FieldKeys|);
    assert forall j :: 0 <= j < n ==> e[j] == (FieldKeys[j], fields[j]);
    forall j | 0 <= j < |FieldKeys|
      ensures Lookup(e, FieldKeys[j]) == if j < |fields| then Some(fields[j]) else None
    {
      LookupAt(e, j, FieldKeys[j]);
    }
    if |fields| >= |FieldKeys| {
      assert e[7] == (CaseKey, caseRef);
      LookupAt(e, 7, CaseKey);
    } else {
      assert forall k :: 0 <= k < |e| ==> e[k].0 != CaseKey;
    }
  }

  /** In an entry whose first keys are distinct, the pair at `i` is what `Lookup` finds for its key; a key missing from the entry is not found. */
  lemma LookupAt(e: Entry, i: nat, key: string)
    requires forall k :: 0 <= k < |e| && k < 8 ==> e[k].0 == (FieldKeys + [CaseKey])[k]
    requires |e| <= 8
    requires i < 8 && key == (FieldKeys + [CaseKey])[i]
    ensures i < |e| ==> Lookup(e, key) == Some(e[i].1)
    ensures i >= |e| ==> Lookup(e, key) == None
  {
    var keys := FieldKeys + [CaseKey];
    assert forall a, b :: 0 <= a < b < 8 ==> keys[a] != keys[b];
    if i < |e| {
      var r := Lookup(e, key);
      var k :| 0 <= k < |e| && e[k] == (key, r.value);
      assert k == i;
    }
  }

  /**
   * A complete line read back as a report row: the id, the case, then the
   * seven fields in column order.
   */
  lemma ReportCellsOfCompleteLine(id: nat, fields: seq<string>, caseRef: string)
    requires |fields| >= |FieldKeys|
    ensures ReportCells(Row(id, EntryOf(fields, caseRef))) == [NatToString(id), caseRef] + fields[..7]
  {
    var e := EntryOf(fields, caseRef);
    EntryOfLookup(fields, caseRef);
    var cells := ReportCells(Row(id, e));
    var want := [NatToString(id), caseRef] + fields[..7];
    forall j | 0 <= j < 9
      ensures cells[j] == want[j]
    {
      if j > 1 {
        assert ReportHeader[j] == FieldKeys[j - 2];
      }
    }
  }

  // ---------------------------------------------------------------------------
  // The whole file into entries

  /** The entries of a log file: one per non-blank line, in order. */
  function ParsedEntries(lines: seq<string>, caseRef: string): seq<Entry> {
    var kept := NonBlankLines(lines);
    seq(|kept|, k requires 0 <= k < |kept| => EntryOf(Split(kept[k], '\t'), caseRef))
  }

  /** How many kept lines have fewer than seven fields: the errors logged. */
  function ShortLines(kept: seq<string>): nat
    decreases |kept|
  {
    if |kept| == 0 then 0
    else ShortLines(kept[..|kept| - 1]) + (if |Split(kept[|kept| - 1], '\t')| < |FieldKeys| then 1 else 0)
  }

  /** How many entries lack `case_ref`. */
  function WithoutCase(entries: seq<Entry>): nat
    decreases |entries|
  {
    if |entries| == 0 then 0
    else WithoutCase(entries[..|entries| - 1]) + (if Lookup(entries[|entries| - 1], CaseKey).None? then 1 else 0)
  }

  /**
   * The read loop of `get_teamviewer_connections`: every line right-stripped,
   * blank ones skipped, every other one split on tabs and turned into
   * exactly one entry, whether or not it had seven fields.
   */
  method ReadEntries(lines: seq<string>, caseRef: string) returns (entries: seq<Entry>, errors: nat)
    ensures entries == ParsedEntries(lines, caseRef)
    ensures errors == ShortLines(NonBlankLines(lines))
  {
    entries := [];
    errors := 0;
    for i := 0 to |lines|
      invariant entries == ParsedEntries(lines[..i], caseRef)
      invariant errors == ShortLines(NonBlankLines(lines[..i]))
    {
      ReadStep(lines, caseRef, i);
      var line := RStrip(lines[i]);
      if line != "" {
        var fields := Split(line, '\t');
        var entry, complete := FillEntry(fields, caseRef);
        if !complete {
          errors := errors + 1;
        }
        entries := entries + [entry];
      }
    }
    assert lines[..|lines|] == lines;
  }

  /** Reading one more line adds its entry, and its error, if any. */
  lemma ReadStep(lines: seq<string>, caseRef: string, i: nat)
    requires i < |lines|
    ensures var line := RStrip(lines[i]); var fields := Split(line, '\t');
      && ParsedEntries(lines[..i + 1], caseRef)
        == ParsedEntries(lines[..i], caseRef) + (if line == "" then [] else [EntryOf(fields, caseRef)])
      && ShortLines(NonBlankLines(lines[..i + 1]))
        == ShortLines(NonBlankLines(lines[..i])) + (if line != "" && |fields| < |FieldKeys| then 1 else 0)
  {
    var line := RStrip(lines[i]);
    assert lines[..i + 1][..i] == lines[..i];
    var before := NonBlankLines(lines[..i]);
    var after := NonBlankLines(lines[..i + 1]);
    assert after == before + (if line == "" then [] else [line]);
    if line != "" {
      assert after[..|after| - 1] == before;
    }
  }

  /**
   * Every logged error stands for exactly one stored entry without a
   * `case_ref`: the line it came from had fewer than seven fields.
   */
  lemma {:induction false} ErrorsAreIncompleteEntries(lines: seq<string>, caseRef: string)
    ensures ShortLines(NonBlankLines(lines)) == WithoutCase(ParsedEntries(lines, caseRef))
    ensures |ParsedEntries(lines, caseRef)| == |NonBlankLines(lines)|
    decreases |lines|
  {
    if |lines| > 0 {
      var init := lines[..|lines| - 1];
      ErrorsAreIncompleteEntries(init, caseRef);
      var kept := NonBlankLines(lines);
      var s := RStrip(lines[|lines| - 1]);
      if s != "" {
        var es := ParsedEntries(lines, caseRef);
        assert kept[..|kept| - 1] == NonBlankLines(init);
        assert es[..|es| - 1] == ParsedEntries(init, caseRef);
        EntryOfLookup(Split(s, '\t'), caseRef);
      }
    }
  }

  // ---------------------------------------------------------------------------
  // Chunked insert

  /** `[s[x:x+size] for x in range(0, len(s), size)]`. */
  function Chunks<T>(s: seq<T>, size: nat): seq<seq<T>>
    requires size > 0
    decreases |s|
  {
    if |s| == 0 then [] else [s[..Min(size, |s|)]] + Chunks(s[Min(size, |s|)..], size)
  }

  function Flatten<T>(ss: seq<seq<T>>): seq<T>
    decreases |ss|
  {
    if |ss| == 0 then [] else ss[0] + Flatten(ss[1..])
  }

  /** The chunks put back together are the whole list, and each holds between one and `size` elements. */
  lemma {:induction false} ChunksCover<T>(s: seq<T>, size: nat)
    requires size > 0
    ensures Flatten(Chunks(s, size)) == s
    ensures forall k :: 0 <= k < |Chunks(s, size)| ==> 0 < |Chunks(s, size)[k]| <= size
    decreases |s|
  {
    if |s| > 0 {
      var m := Min(size, |s|);
      ChunksCover(s[m..], size);
      assert s[..m] + s[m..] == s;
    }
  }

  /**
   * There are as many chunks as it takes to hold `|s|` elements `size` at a
   * time: all but the last are full.
   */
  lemma {:induction false} ChunksCount<T>(s: seq<T>, size: nat)
    requires size > 0
    ensures var c := |Chunks(s, size)|;
      |s| <= c * size && (c == 0 || (c - 1) * size < |s|)
    decreases |s|
  {
    if |s| > 0 {
      var m := Min(size, |s|);
      ChunksCount(s[m..], size);
      var c' := |Chunks(s[m..], size)|;
      assert (c' + 1) * size == c' * size + size;
    }
  }

  /**
   * Chunk `k` is the slice `s[k*size : k*size + size]`: every element lands
   * in exactly one chunk, at its own position.
   */
  lemma {:induction false} ChunkAt<T>(s: seq<T>, size: nat, k: nat)
    requires size > 0 && k < |Chunks(s, size)|
    ensures k * size < |s|
    ensures Chunks(s, size)[k] == s[k * size..Min(k * size + size, |s|)]
    decreases k
  {
    var m := Min(size, |s|);
    var rest := s[m..];
    assert Chunks(s, size) == [s[..m]] + Chunks(rest, size);
    if k > 0 {
      assert Chunks(s, size)[k] == Chunks(rest, size)[k - 1];
      ChunkAt(rest, size, k - 1);
      var a := (k - 1) * size;
      MulStep(k, size);
      assert m == size && k * size == a + m;
      DropSlice(s, m, a, Min(a + size, |rest|));
      assert m + Min(a + size, |rest|) == Min(k * size + size, |s|);
    }
  }

  lemma MulStep(k: nat, size: nat)
    requires k > 0
    ensures k * size == (k - 1) * size + size
  {
  }

  /** Slicing after dropping `d` elements is slicing further along. */
  lemma DropSlice<T>(s: seq<T>, d: nat, a: nat, b: nat)
    requires d <= |s| && a <= b <= |s| - d
    ensures s[d..][a..b] == s[d + a..d + b]
  {
  }

  /**
   * Taking the batch at `x` keeps the chunks taken so far, followed by the
   * chunks still to come, equal to all the chunks.
   */
  lemma ChunksStep<T>(s: seq<T>, x: nat, size: nat, done: seq<seq<T>>)
    requires size > 0 && x < |s|
    requires done + Chunks(s[x..], size) == Chunks(s, size)
    ensures (done + [s[x..Min(x + size, |s|)]]) + Chunks(s[Min(x + size, |s|)..], size) == Chunks(s, size)
  {
    var hi := Min(x + size, |s|);
    var t := s[x..];
    var m := Min(size, |t|);
    assert Chunks(t, size) == [t[..m]] + Chunks(t[m..], size);
    assert hi == x + m;
    assert t[..m] == s[x..hi];
    assert t[m..] == s[hi..];
  }

  /**
   * The insert loop of `get_teamviewer_connections`: `insert_many` on each
   * slice of `BatchSize` entries, in order. The store grows by exactly the
   * entries, appended in order and numbered on from the last id.
   */
  method BulkInsert(store: Store, entries: seq<Entry>) returns (ghost chunks: seq<seq<Entry>>)
    requires store.Valid()
    modifies store
    ensures store.Valid() && store.cases == old(store.cases)
    ensures store.rows == old(store.rows) + Numbered(entries, |old(store.rows)| + 1)
    ensures chunks == Chunks(entries, BatchSize)
  {
    ghost var before := store.rows;
    chunks := [];
    var x := 0;
    while x < |entries|
      invariant x <= |entries|
      invariant store.Valid() && store.cases == old(store.cases)
      invariant chunks + Chunks(entries[x..], BatchSize) == Chunks(entries, BatchSize)
      invariant store.rows == before + Numbered(entries[..x], |before| + 1)
      decreases |entries| - x
    {
      var hi := Min(x + BatchSize, |entries|);
      var batch := entries[x..hi];
      ChunksStep(entries, x, BatchSize, chunks);
      NumberedStep(before, store.rows, entries, x, hi);
      store.InsertMany(batch);
      chunks := chunks + [batch];
      x := hi;
    }
    assert entries[..x] == entries;
  }

  /**
   * `get_teamviewer_connections`: the entries of the file, appended to the
   * store; returns how many errors were logged.
   */
  method GetTeamViewerConnections(store: Store, lines: seq<string>, caseRef: string) returns (errors: nat)
    requires store.Valid()
    modifies store
    ensures store.Valid() && store.cases == old(store.cases)
    ensures store.rows == old(store.rows) + Numbered(ParsedEntries(lines, caseRef), |old(store.rows)| + 1)
    ensures errors == ShortLines(NonBlankLines(lines))
  {
    var entries;
    entries, errors := ReadEntries(lines, caseRef);
    ghost var chunks := BulkInsert(store, entries);
  }

  // ---------------------------------------------------------------------------
  // Reports

  /**
   * One stored row as `csv.DictWriter` writes it: the id in decimal, then
   * each other report column's value, "" where the row has none.
   */
  function ReportCells(row: Row): seq<string> {
    [NatToString(row.id)]
      + seq(|ReportHeader| - 1, j requires 0 <= j < |ReportHeader| - 1 => Lookup(row.entry, ReportHeader[j + 1]).GetOr(""))
  }

  /** What `write_to_csv` writes for a case: the header, then one row per stored row of the case. */
  function ReportTable(rows: seq<Row>, caseRef: string): seq<seq<string>> {
    var selected := RowsOfCase(rows, caseRef);
    [ReportHeader] + seq(|selected|, k requires 0 <= k < |selected| => ReportCells(selected[k]))
  }

  /**
   * `write_to_csv`: the comma-separated report of one case, as the records
   * written: the nine-name header, then one record per row of the case, in
   * insertion order.
   */
  method WriteToCsv(store: Store, caseRef: string) returns (records: seq<string>)
    ensures records == FormatRows(ReportTable(store.rows, caseRef), ',')
    ensures |records| == 1 + store.Count(caseRef)
  {
    records := WriteRows(ReportTable(store.rows, caseRef), ',');
  }

  /** Which writer `write_output` picks. */
  datatype Writer = NoRecords | CsvWriter | HtmlWriter | UnknownType

  /** The branches of `write_output`, in the order written. */
  function ChooseWriter(count: nat, path: string): Writer {
    if count == 0 then NoRecords
    else if EndsWith(path, ".csv") then CsvWriter
    else if EndsWith(path, ".html") then HtmlWriter
    else if !(EndsWith(path, ".csv") || EndsWith(path, ".html")) then UnknownType
    else assert false; UnknownType
  }

  /**
   * Dispatch is by record count first, then by suffix: with no records
   * nothing is written whatever the path; otherwise ".csv" picks the CSV
   * writer, ".html" the HTML writer, and anything else is reported as an
   * unknown file type. The final "unknown error" branch is never reached.
   */
  lemma ChooseWriterCases(count: nat, path: string)
    ensures ChooseWriter(count, path) == NoRecords <==> count == 0
    ensures ChooseWriter(count, path) == CsvWriter <==> count > 0 && EndsWith(path, ".csv")
    ensures ChooseWriter(count, path) == HtmlWriter <==> count > 0 && EndsWith(path, ".html")
    ensures ChooseWriter(count, path) == UnknownType <==>
      count > 0 && !EndsWith(path, ".csv") && !EndsWith(path, ".html")
  {
    if EndsWith(path, ".csv") {
      assert path[|path| - 1] == path[|path| - 4..][3] == 'v';
      assert !EndsWith(path, ".html") by {
        if |path| >= 5 {
          assert path[|path| - 5..][4] == path[|path| - 1];
        }
      }
    }
  }

  /** What `write_output` produces. */
  datatype Report =
    | NoRecordsFound
    | CsvReport(records: seq<string>)
    | HtmlReport(caseRef: string, rows: seq<Row>)
    | UnknownFileType

  /** The report `write_output` produces for a case from the stored rows. */
  function OutputFor(rows: seq<Row>, path: string, caseRef: string): Report {
    match ChooseWriter(|RowsOfCase(rows, caseRef)|, path)
    case NoRecords => NoRecordsFound
    case CsvWriter => CsvReport(FormatRows(ReportTable(rows, caseRef), ','))
    case HtmlWriter => HtmlReport(caseRef, RowsOfCase(rows, caseRef))
    case UnknownType => UnknownFileType
  }

  /**
   * `write_output`: counts the rows of the case, then writes the report the
   * path's suffix asks for, or nothing.
   */
  method WriteOutput(store: Store, path: string, caseRef: string) returns (report: Report)
    ensures report == OutputFor(store.rows, path, caseRef)
    ensures report.NoRecordsFound? <==> store.Count(caseRef) == 0
    ensures report.CsvReport? ==> |report.records| == 1 + store.Count(caseRef)
  {
    ChooseWriterCases(store.Count(caseRef), path);
    var count := store.Count(caseRef);
    if count == 0 {
      report := NoRecordsFound;
    } else if EndsWith(path, ".csv") {
      var records := WriteToCsv(store, caseRef);
      report := CsvReport(records);
    } else if EndsWith(path, ".html") {
      report := HtmlReport(caseRef, RowsOfCase(store.rows, caseRef));
    } else {
      report := UnknownFileType;
    }
  }

  // ---------------------------------------------------------------------------
  // The run

  /** What one run did. */
  datatype RunResult = Parsed(errors: nat) | Output(report: Report) | ArgumentError

  /**
   * `main`: the store is open, the case is registered (in every mode), then
   * the input file is parsed into the store, or the report is written, or
   * the arguments are rejected and nothing else happens.
   */
  method Run(store: Store, caseRef: string, mode: string, path: string, inputLines: seq<string>)
    returns (result: RunResult)
    requires store.Valid()
    modifies store
    ensures store.Valid()
    ensures store.cases == Registered(old(store.cases), caseRef)
    ensures mode == "input" ==>
      && store.rows == old(store.rows) + Numbered(ParsedEntries(inputLines, caseRef), |old(store.rows)| + 1)
      && result == Parsed(ShortLines(NonBlankLines(inputLines)))
    ensures mode != "input" ==> store.rows == old(store.rows)
    ensures mode == "output" ==> result == Output(OutputFor(old(store.rows), path, caseRef))
    ensures mode != "input" && mode != "output" ==> result == ArgumentError
  {
    var index, created := store.GetOrAddCase(caseRef);
    if mode == "input" {
      var errors := GetTeamViewerConnections(store, inputLines, caseRef);
      result := Parsed(errors);
    } else if mode == "output" {
      var report := WriteOutput(store, path, caseRef);
      result := Output(report);
    } else {
      result := ArgumentError;
    }
  }
}
