/**
 * One row written by Python's `csv.writer` (and by `csv.DictWriter`, which
 * hands it rows): the default dialect's minimal quoting, '"' as the quote
 * character, a doubled '"' inside a quoted field, and "\r\n" after every row.
 * The delimiter is a parameter: ',' for the case report, '\t' for the two
 * tab-separated writers.
 */
module CsvRows {
  import opened Text

  const Terminator: string := "\r\n"

  /** Minimal quoting quotes a field holding the delimiter, a '"', a \r or a \n. */
  predicate NeedsQuoting(f: string, delim: char) {
    delim in f || '"' in f || '\r' in f || '\n' in f
  }

  /** Every '"' in the field written twice. */
  function DoubleQuotes(f: string): string
    decreases |f|
  {
    if |f| == 0 then ""
    else (if f[0] == '"' then "\"\"" else [f[0]]) + DoubleQuotes(f[1..])
  }

  /** What a reader makes of the inside of a quoted field: "" stands for ". */
  function UndoubleQuotes(q: string): string
    decreases |q|
  {
    if |q| == 0 then ""
    else if |q| >= 2 && q[0] == '"' && q[1] == '"' then "\"" + UndoubleQuotes(q[2..])
    else [q[0]] + UndoubleQuotes(q[1..])
  }

  /** A field as it appears in the written row. */
  function FormatField(f: string, delim: char): string {
    if NeedsQuoting(f, delim) then "\"" + DoubleQuotes(f) + "\"" else f
  }

  /** A field as a reader recovers it from the written row. */
  function ReadField(q: string): string {
    if |q| >= 2 && q[0] == '"' && q[|q| - 1] == '"' then UndoubleQuotes(q[1..|q| - 1]) else q
  }

  function FormatFields(row: seq<string>, delim: char): (r: seq<string>)
    ensures |r| == |row|
    ensures forall k :: 0 <= k < |row| ==> r[k] == FormatField(row[k], delim)
    decreases |row|
  {
    if |row| == 0 then [] else [FormatField(row[0], delim)] + FormatFields(row[1..], delim)
  }

  /**
   * `writer.writerow(row)`: the formatted fields joined by the delimiter, then
   * the terminator; a row made of one empty field is written as `""`.
   */
  function FormatRow(row: seq<string>, delim: char): string {
    (if row == [""] then "\"\"" else Join(FormatFields(row, delim), delim)) + Terminator
  }

  /** The records `writerows(rows)` writes, one per row. */
  function FormatRows(rows: seq<seq<string>>, delim: char): seq<string> {
    seq(|rows|, k requires 0 <= k < |rows| => FormatRow(rows[k], delim))
  }

  /** A row with no field needing quotes. */
  predicate PlainRow(row: seq<string>, delim: char) {
    forall k :: 0 <= k < |row| ==> !NeedsQuoting(row[k], delim)
  }

  lemma {:induction false} UndoubleDouble(f: string)
    ensures UndoubleQuotes(DoubleQuotes(f)) == f
    decreases |f|
  {
    if |f| > 0 {
      UndoubleDouble(f[1..]);
      var rest := DoubleQuotes(f[1..]);
      if f[0] == '"' {
        var q := "\"\"" + rest;
        assert q[2..] == rest;
        assert UndoubleQuotes(q) == "\"" + UndoubleQuotes(rest);
      } else {
        var q := [f[0]] + rest;
        assert q[1..] == rest;
        assert UndoubleQuotes(q) == [f[0]] + UndoubleQuotes(rest);
      }
      assert [f[0]] + f[1..] == f;
    }
  }

  /** Every field, quoted or not, is read back as written. */
  lemma ReadFormatField(f: string, delim: char)
    ensures ReadField(FormatField(f, delim)) == f
  {
    if NeedsQuoting(f, delim) {
      var q := "\"" + DoubleQuotes(f) + "\"";
      assert q[1..|q| - 1] == DoubleQuotes(f);
      UndoubleDouble(f);
    } else if |f| >= 2 {
      assert f[0] != '"';
    }
  }

  lemma {:induction false} FormatFieldsPlain(row: seq<string>, delim: char)
    requires PlainRow(row, delim)
    ensures FormatFields(row, delim) == row
    decreases |row|
  {
    if |row| > 0 {
      FormatFieldsPlain(row[1..], delim);
      assert [row[0]] + row[1..] == row;
    }
  }

  lemma {:induction false} JoinAvoids(parts: seq<string>, d: char, c: char)
    requires c != d
    requires forall k :: 0 <= k < |parts| ==> c !in parts[k]
    ensures c !in Join(parts, d)
    decreases |parts|
  {
    if |parts| > 1 {
      JoinAvoids(parts[1..], d, c);
    }
  }

  /**
   * A plain row of at least one field (other than a lone empty field) is
   * written as its delimiter join plus "\r\n", holds no newline before its
   * terminator, and splitting that line on the delimiter gives the row back.
   */
  lemma PlainRowRoundTrip(row: seq<string>, delim: char)
    requires |row| >= 1 && row != [""]
    requires PlainRow(row, delim)
    requires delim != '\n'
    ensures FormatRow(row, delim) == Join(row, delim) + Terminator
    ensures '\n' !in Join(row, delim)
    ensures Split(Join(row, delim), delim) == row
  {
    FormatFieldsPlain(row, delim);
    JoinAvoids(row, delim, '\n');
    SplitJoin(row, delim);
  }

  /** The records of a header row followed by more rows: the header's record, then theirs. */
  lemma FormatRowsAfterHeader(header: seq<string>, rows: seq<seq<string>>, delim: char, records: seq<string>)
    requires |records| == 1 + |rows| && records[0] == FormatRow(header, delim)
    requires forall k :: 0 <= k < |rows| ==> records[k + 1] == FormatRow(rows[k], delim)
    ensures records == FormatRows([header] + rows, delim)
  {
    var table := [header] + rows;
    forall k | 0 <= k < |table|
      ensures records[k] == FormatRow(table[k], delim)
    {
      if k > 0 {
        assert table[k] == rows[k - 1];
      }
    }
  }

  /**
   * `for row in rows: writer.writerow(row)`: one record per row, in order;
   * the file holds their concatenation.
   */
  method WriteRows(rows: seq<seq<string>>, delim: char) returns (records: seq<string>)
    ensures |records| == |rows|
    ensures forall k :: 0 <= k < |rows| ==> records[k] == FormatRow(rows[k], delim)
    ensures records == FormatRows(rows, delim)
  {
    records := [];
    for i := 0 to |rows|
      invariant |records| == i
      invariant forall k :: 0 <= k < i ==> records[k] == FormatRow(rows[k], delim)
    {
      records := records + [FormatRow(rows[i], delim)];
    }
  }
}
