/**
 * The SQLite database behind `teamviewer_ci_parser.py` (the peewee models
 * `Case` and `TeamViewerLogs`), as an in-memory object: the registered case
 * references in registration order, and the stored log rows in insertion
 * order, numbered by their surrogate ids 1, 2, 3, ...
 */
module ConnectionStore {
  import opened Text

  /**
   * A log entry as the parser builds it: a dict filled key by key, kept as
   * its (key, value) pairs in insertion order.
   */
  type Entry = seq<(string, string)>

  /** `entry.get(key)`: the value stored under the first pair with that key. */
  function Lookup(e: Entry, key: string): (r: Option<string>)
    ensures r.None? <==> forall k :: 0 <= k < |e| ==> e[k].0 != key
    ensures r.Some? ==> exists k :: 0 <= k < |e| && e[k] == (key, r.value)
    decreases |e|
  {
    if |e| == 0 then None
    else if e[0].0 == key then Some(e[0].1)
    else Lookup(e[1..], key)
  }

  /** A stored row: the surrogate id the table assigned, and the entry. */
  datatype Row = Row(id: nat, entry: Entry)

  /** The rows `insert_many` adds for `entries` when the next free id is `firstId`. */
  function Numbered(entries: seq<Entry>, firstId: nat): seq<Row> {
    seq(|entries|, k requires 0 <= k < |entries| => Row(firstId + k, entries[k]))
  }

  /** Numbering two batches one after the other numbers their concatenation. */
  lemma NumberedAppend(a: seq<Entry>, b: seq<Entry>, firstId: nat)
    ensures Numbered(a + b, firstId) == Numbered(a, firstId) + Numbered(b, firstId + |a|)
  {
  }

  /**
   * Rows numbered from `before` for the first `x` entries, followed by the
   * entries up to `hi` numbered after them, are the first `hi` entries
   * numbered from `before`.
   */
  lemma NumberedStep(before: seq<Row>, rows: seq<Row>, entries: seq<Entry>, x: nat, hi: nat)
    requires x <= hi <= |entries|
    requires rows == before + Numbered(entries[..x], |before| + 1)
    ensures rows + Numbered(entries[x..hi], |rows| + 1) == before + Numbered(entries[..hi], |before| + 1)
  {
    assert entries[..hi] == entries[..x] + entries[x..hi];
    NumberedAppend(entries[..x], entries[x..hi], |before| + 1);
  }

  /** The column that files a log row under its case. */
  const CaseKey: string := "case_ref"

  /** The row is filed under the case: its `case_ref` column holds it. */
  predicate OfCase(row: Row, caseRef: string) {
    Lookup(row.entry, CaseKey) == Some(caseRef)
  }

  /**
   * `TeamViewerLogs.select().where(case_ref == caseRef)`: the rows filed
   * under the case, in insertion order.
   */
  function RowsOfCase(rows: seq<Row>, caseRef: string): (r: seq<Row>)
    ensures |r| <= |rows|
    ensures forall k :: 0 <= k < |r| ==> OfCase(r[k], caseRef)
    decreases |rows|
  {
    if |rows| == 0 then []
    else
      var init := RowsOfCase(rows[..|rows| - 1], caseRef);
      if OfCase(rows[|rows| - 1], caseRef) then init + [rows[|rows| - 1]] else init
  }

  /** Selecting from two batches selects from each, in order. */
  lemma {:induction false} RowsOfCaseAppend(a: seq<Row>, b: seq<Row>, caseRef: string)
    ensures RowsOfCase(a + b, caseRef) == RowsOfCase(a, caseRef) + RowsOfCase(b, caseRef)
    decreases |b|
  {
    if |b| == 0 {
      assert a + b == a;
    } else {
      assert (a + b)[..|a + b| - 1] == a + b[..|b| - 1];
      RowsOfCaseAppend(a, b[..|b| - 1], caseRef);
    }
  }

  /** A row is selected exactly when it is stored and filed under the case. */
  lemma {:induction false} RowsOfCaseMembers(rows: seq<Row>, caseRef: string, row: Row)
    ensures row in RowsOfCase(rows, caseRef) <==> row in rows && OfCase(row, caseRef)
    decreases |rows|
  {
    if |rows| > 0 {
      var init := rows[..|rows| - 1];
      RowsOfCaseMembers(init, caseRef, row);
      assert rows == init + [rows[|rows| - 1]];
    }
  }

  predicate Distinct(cs: seq<string>) {
    forall a, b :: 0 <= a < b < |cs| ==> cs[a] != cs[b]
  }

  /** The Case table after `Case.get_or_create(case_ref=caseRef)`. */
  function Registered(cases: seq<string>, caseRef: string): seq<string> {
    if caseRef in cases then cases else cases + [caseRef]
  }

  /**
   * Registration keeps every case already there, adds the reference at most
   * once, leaves the table free of duplicates, and is idempotent.
   */
  lemma RegisteredProperties(cases: seq<string>, caseRef: string)
    requires Distinct(cases)
    ensures var r := Registered(cases, caseRef);
      && caseRef in r
      && r[..|cases|] == cases
      && |r| == |cases| + (if caseRef in cases then 0 else 1)
      && Distinct(r)
      && Registered(r, caseRef) == r
  {
    var r := Registered(cases, caseRef);
    assert r[..|cases|] == cases;
    if caseRef !in cases {
      forall a, b | 0 <= a < b < |r|
        ensures r[a] != r[b]
      {
        if b == |cases| {
          assert r[a] == cases[a];
        }
      }
    }
  }

  /** Where a registered reference sits. */
  function IndexOf(cases: seq<string>, caseRef: string): (i: nat)
    requires caseRef in cases
    ensures i < |cases| && cases[i] == caseRef
    ensures forall j :: 0 <= j < i ==> cases[j] != caseRef
    decreases |cases|
  {
    if cases[0] == caseRef then 0 else 1 + IndexOf(cases[1..], caseRef)
  }

  /** The store: both tables, kept in memory. */
  class Store {
    var cases: seq<string>
    var rows: seq<Row>

    /** Case references are unique; ids count up from 1 in insertion order. */
    ghost predicate Valid()
      reads this
    {
      && Distinct(cases)
      && forall k :: 0 <= k < |rows| ==> rows[k].id == k + 1
    }

    /** `init_db` on a new database file: both tables created empty. */
    constructor ()
      ensures Valid() && cases == [] && rows == []
    {
      cases := [];
      rows := [];
    }

    /**
     * `get_or_add_case`: returns the position of the case and whether it was
     * created; the Case table gains the reference only if it was missing.
     */
    method GetOrAddCase(caseRef: string) returns (index: nat, created: bool)
      requires Valid()
      modifies this
      ensures Valid()
      ensures created <==> caseRef !in old(cases)
      ensures cases == Registered(old(cases), caseRef)
      ensures index < |cases| && cases[index] == caseRef
      ensures rows == old(rows)
    {
      RegisteredProperties(cases, caseRef);
      created := caseRef !in cases;
      if created {
        cases := cases + [caseRef];
      }
      index := IndexOf(cases, caseRef);
    }

    /** `TeamViewerLogs.insert_many(batch).execute()`: the batch appended, numbered on from the last id. */
    method InsertMany(batch: seq<Entry>)
      requires Valid()
      modifies this
      ensures Valid()
      ensures rows == old(rows) + Numbered(batch, |old(rows)| + 1)
      ensures cases == old(cases)
    {
      rows := rows + Numbered(batch, |rows| + 1);
    }

    /** `TeamViewerLogs.select().where(...).count()`. */
    function Count(caseRef: string): nat
      reads this
    {
      |RowsOfCase(rows, caseRef)|
    }
  }
}
