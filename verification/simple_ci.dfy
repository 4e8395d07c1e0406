/**
 * `simple_ci_parser.py`: copies a TeamViewer incoming_connections log into a
 * tab-separated file under a fixed seven-column header, one row per
 * non-blank line, split on tabs with no check on the number of fields.
 */
module SimpleCi {
  import opened Text
  import opened CsvRows

  /** The header row `printtofile` writes first. */
  const Header: seq<string> := ["Teamviewer ID", "Teamviewer Name", "Connection start",
    "Connection End", "Local User", "Connections Type", "Unique ID"]

  /** An output file whose name holds this is taken for the master file. */
  const Master: string := "tv_master"

  /** The rows `teamViewerData` returns: each non-blank line, right-stripped and split on tabs. */
  function ParsedRows(lines: seq<string>): seq<seq<string>> {
    var kept := NonBlankLines(lines);
    seq(|kept|, k requires 0 <= k < |kept| => Split(kept[k], '\t'))
  }

  /**
   * `teamViewerData(input_file)`: the filtered lines, each split on tabs and
   * appended as it is.
   */
  method TeamViewerData(lines: seq<string>) returns (tvList: seq<seq<string>>)
    ensures tvList == ParsedRows(lines)
  {
    tvList := [];
    for i := 0 to |lines|
      invariant tvList == ParsedRows(lines[..i])
    {
      assert lines[..i + 1][..i] == lines[..i];
      var line := RStrip(lines[i]);
      if line != "" {
        var splitLines := Split(line, '\t');
        tvList := tvList + [splitLines];
      }
    }
    assert lines[..|lines|] == lines;
  }

  /**
   * There is one row per non-blank line, and each row joined back with tabs
   * is that line right-stripped; every row has at least one field, and its
   * last field is non-empty and does not end in whitespace.
   */
  lemma ParsedRowsShape(lines: seq<string>)
    ensures var rows := ParsedRows(lines); var kept := NonBlankLines(lines);
      && |rows| == |kept|
      && forall k :: 0 <= k < |rows| ==>
        && Join(rows[k], '\t') == kept[k]
        && |rows[k]| >= 1
        && rows[k][|rows[k]| - 1] != ""
        && rows[k][|rows[k]| - 1][|rows[k][|rows[k]| - 1]| - 1] !in Whitespace
  {
    var rows := ParsedRows(lines);
    var kept := NonBlankLines(lines);
    forall k | 0 <= k < |rows|
      ensures Join(rows[k], '\t') == kept[k]
      ensures rows[k][|rows[k]| - 1] != ""
      ensures rows[k][|rows[k]| - 1][|rows[k][|rows[k]| - 1]| - 1] !in Whitespace
    {
      RowOfLine(kept[k]);
    }
  }

  /** The row of one kept line: it joins back to the line, and its last field carries the line's last character. */
  lemma RowOfLine(line: string)
    requires line != "" && line[|line| - 1] !in Whitespace
    ensures var row := Split(line, '\t');
      && Join(row, '\t') == line
      && row[|row| - 1] != ""
      && row[|row| - 1][|row[|row| - 1]| - 1] == line[|line| - 1]
  {
    JoinSplit(line, '\t');
    SplitLast(line, '\t');
    SplitLastNonEmpty(line, '\t');
  }

  /** A row comes from a line exactly when that line is not blank once right-stripped. */
  lemma ParsedRowsMembers(lines: seq<string>, row: seq<string>)
    ensures row in ParsedRows(lines) <==>
      exists k :: 0 <= k < |lines| && RStrip(lines[k]) != "" && Split(RStrip(lines[k]), '\t') == row
  {
    var kept := NonBlankLines(lines);
    var rows := ParsedRows(lines);
    if row in rows {
      var j :| 0 <= j < |rows| && rows[j] == row;
      NonBlankLinesMembers(lines, kept[j]);
    }
    if exists k :: 0 <= k < |lines| && RStrip(lines[k]) != "" && Split(RStrip(lines[k]), '\t') == row {
      var k :| 0 <= k < |lines| && RStrip(lines[k]) != "" && Split(RStrip(lines[k]), '\t') == row;
      NonBlankLinesMembers(lines, RStrip(lines[k]));
      var j :| 0 <= j < |kept| && kept[j] == RStrip(lines[k]);
      assert rows[j] == row;
    }
  }

  /**
   * A line with no '"', '\r' or '\n' before its trailing whitespace is
   * written back as exactly its right-stripped text plus "\r\n": the copy
   * loses only trailing whitespace and blank lines.
   */
  lemma RecordIsStrippedLine(line: string)
    requires RStrip(line) != ""
    requires '"' !in RStrip(line) && '\r' !in RStrip(line) && '\n' !in RStrip(line)
    ensures FormatRow(Split(RStrip(line), '\t'), '\t') == RStrip(line) + Terminator
  {
    var s := RStrip(line);
    var row := Split(s, '\t');
    JoinSplit(s, '\t');
    SplitAvoids(s, '\t', '"');
    SplitAvoids(s, '\t', '\r');
    SplitAvoids(s, '\t', '\n');
    assert row != [""];
    PlainRowRoundTrip(row, '\t');
  }

  /**
   * `printtofile(output_file, results_list)`: the header record, then one
   * tab-separated record per row, in order.
   */
  method PrintToFile(rows: seq<seq<string>>) returns (records: seq<string>)
    ensures records == FormatRows([Header] + rows, '\t')
  {
    var header := WriteRows([Header], '\t');
    var written := WriteRows(rows, '\t');
    records := header + written;
    FormatRowsAfterHeader(Header, rows, '\t', records);
  }

  /** The guard in `main`: the output file's own name holds `tv_master`. */
  predicate NamesMaster(outputPath: string) {
    Contains(Basename(outputPath), Master)
  }

  /**
   * Only the file name counts: a directory called `tv_master` does not
   * trip the guard, and a file name holding it does wherever it lives.
   */
  lemma NamesMasterByFileName(dir: string, name: string)
    requires '/' !in name
    ensures NamesMaster(dir + "/" + name) <==> Contains(name, Master)
  {
    BasenameOfJoin(dir, name);
  }

  /** What one run of the script does. */
  datatype Outcome = Written(records: seq<string>) | MasterRefused | InputMissing

  /**
   * `main(input_file, output_file)`: a missing input is an error exit; an
   * output named like the master is refused and nothing is parsed or
   * written; otherwise the parsed rows are written under the header.
   */
  method Run(isFile: bool, lines: seq<string>, outputPath: string) returns (outcome: Outcome)
    ensures !isFile <==> outcome == InputMissing
    ensures outcome == MasterRefused <==> isFile && NamesMaster(outputPath)
    ensures outcome.Written? ==> outcome.records == FormatRows([Header] + ParsedRows(lines), '\t')
  {
    if isFile {
      if !NamesMaster(outputPath) {
        var resultsList := TeamViewerData(lines);
        var records := PrintToFile(resultsList);
        outcome := Written(records);
      } else {
        outcome := MasterRefused;
      }
    } else {
      outcome := InputMissing;
    }
  }
}
