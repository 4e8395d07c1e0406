/**
 * `teamviewer_oldlog_parser.py`: turns a TeamViewer `Logfile_OLD.log` into
 * two tab-separated files, one row per log line that starts with a digit
 * (`logfile_OLD_output.csv`), and one row per such line that mentions an
 * IPv4-shaped address (`ip_results.csv`), and lists every such address,
 * one per line, in `ip_list.txt`.
 */
module OldLog {
  import opened Text
  import opened CsvRows
  import opened DottedQuad

  /** `lines.strip(' \n')`: the characters of the first strip. */
  const LineEnds: set<char> := {' ', '\n'}

  /** Columns kept as they are before the rest of a line is glued into one. */
  const KeptColumns: nat := 5

  /** `data_parser` glues columns 5 and 6 only (`split_lines[5:7]`). */
  const DataTailEnd: nat := 7

  /** `lines[0].isdigit()`: a log line starts with a digit. */
  predicate Qualifies(line: string) {
    |line| > 0 && IsDigit(line[0])
  }

  /** The line both strips leave: `lines.strip(' \n').strip()`. */
  function Trimmed(line: string): string {
    Strip(StripSet(line, LineEnds))
  }

  /** `list(filter(None, stripped_lines.split(' ')))`: the space-separated words. */
  function Tokens(line: string): (r: seq<string>)
    ensures forall k :: 0 <= k < |r| ==> r[k] != "" && ' ' !in r[k]
  {
    NonEmpty(Split(Trimmed(line), ' '))
  }

  /**
   * `split_lines[5:] = [''.join(split_lines[5:hi])]`: the first five tokens
   * kept, the tokens from 5 up to `hi` glued with no separator into one last
   * field, and anything from `hi` on dropped. With five tokens or fewer the
   * glued field is empty.
   */
  function Glued(tokens: seq<string>, hi: nat): seq<string>
    requires Min(KeptColumns, |tokens|) <= hi
  {
    var m := Min(KeptColumns, |tokens|);
    tokens[..m] + [Concat(tokens[m..Min(hi, |tokens|)])]
  }

  /** A row of `logfile_OLD_output.csv`. */
  function DataRow(tokens: seq<string>): seq<string> {
    Glued(tokens, DataTailEnd)
  }

  /** A row of `ip_results.csv`: `split_lines[5:]` glued whole. */
  function IpRow(tokens: seq<string>): seq<string> {
    Glued(tokens, |tokens|)
  }

  /**
   * A row holds the first five tokens unchanged and one more field: the
   * tokens from 5 up to the cut-off, glued. With at most `hi` tokens nothing
   * is lost: the row glued back is every token glued.
   */
  lemma GluedShape(tokens: seq<string>, hi: nat)
    requires Min(KeptColumns, |tokens|) <= hi
    ensures var r := Glued(tokens, hi);
      && |r| == Min(KeptColumns, |tokens|) + 1
      && r[..|r| - 1] == tokens[..Min(KeptColumns, |tokens|)]
      && (|tokens| <= KeptColumns ==> r[|r| - 1] == "")
      && (|tokens| <= hi ==> Concat(r) == Concat(tokens))
  {
    var m := Min(KeptColumns, |tokens|);
    var r := Glued(tokens, hi);
    assert r[..|r| - 1] == tokens[..m];
    if |tokens| <= hi {
      assert tokens[m..Min(hi, |tokens|)] == tokens[m..];
      ConcatAppend(tokens[..m], [Concat(tokens[m..])]);
      ConcatAppend(tokens[..m], tokens[m..]);
      assert tokens[..m] + tokens[m..] == tokens;
      assert Concat([Concat(tokens[m..])]) == Concat(tokens[m..]) + Concat([]);
    }
  }

  /**
   * The data row keeps only columns 0 to 6 of the line: glued back, it is
   * the IP row's text minus the glued tokens from 7 on; with at most seven
   * tokens the two rows are the same.
   */
  lemma DataRowDropsTail(tokens: seq<string>)
    ensures Concat(DataRow(tokens)) + Concat(tokens[Min(DataTailEnd, |tokens|)..]) == Concat(IpRow(tokens))
    ensures |tokens| <= DataTailEnd ==> DataRow(tokens) == IpRow(tokens)
  {
    var m := Min(KeptColumns, |tokens|);
    var h := Min(DataTailEnd, |tokens|);
    var mid := tokens[m..h];
    var tail := tokens[h..];
    assert DataRow(tokens) == tokens[..m] + [Concat(mid)];
    assert tokens[m..Min(|tokens|, |tokens|)] == tokens[m..];
    assert IpRow(tokens) == tokens[..m] + [Concat(tokens[m..])];
    assert tokens[m..] == mid + tail;
    ConcatAppend(mid, tail);
    ConcatAppend(tokens[..m], [Concat(mid)]);
    ConcatAppend(tokens[..m], [Concat(tokens[m..])]);
    assert Concat([Concat(mid)]) == Concat(mid) + Concat([]);
    assert Concat([Concat(tokens[m..])]) == Concat(tokens[m..]) + Concat([]);
  }

  /**
   * The tokens are the trimmed line's text in order: glued back together
   * they are the trimmed line with every ' ' removed.
   */
  lemma TokensKeepText(line: string)
    ensures Concat(Tokens(line)) == RemoveChar(Trimmed(line), ' ')
  {
    var t := Trimmed(line);
    ConcatNonEmpty(Split(t, ' '));
    RemoveCharJoin(Split(t, ' '), ' ');
    JoinSplit(t, ' ');
  }

  /**
   * The IP row loses no character of the trimmed line but its spaces:
   * glued back together it is the trimmed line with every ' ' removed.
   */
  lemma IpRowKeepsText(line: string)
    ensures Concat(IpRow(Tokens(line))) == RemoveChar(Trimmed(line), ' ')
  {
    GluedShape(Tokens(line), |Tokens(line)|);
    TokensKeepText(line);
  }

  /**
   * A log line's first token starts with the line's leading digit, so every
   * row written for it has at least two fields, the first non-empty.
   */
  lemma QualifyingFirstToken(line: string)
    requires Qualifies(line)
    ensures |Tokens(line)| >= 1 && Tokens(line)[0][0] == line[0]
    ensures |DataRow(Tokens(line))| >= 2 && |IpRow(Tokens(line))| >= 2
  {
    TrimmedStart(line);
    var t := Trimmed(line);
    SplitFirst(t, ' ');
    var parts := Split(t, ' ');
    assert parts == [parts[0]] + parts[1..];
    assert NonEmpty(parts)[0] == parts[0];
  }

  /** A string starting with a character neither strip removes keeps that first character. */
  lemma StripKeepsFirst(s: string, cs: set<char>)
    requires s != "" && s[0] !in cs
    ensures StripSet(s, cs) != "" && StripSet(s, cs)[0] == s[0]
  {
    var l := LStripSet(s, cs);
    assert |l| == |s|;
    var r := RStripSet(l, cs);
  }

  /** Trimming a log line keeps its leading digit in front. */
  lemma TrimmedStart(line: string)
    requires Qualifies(line)
    ensures Trimmed(line) != "" && Trimmed(line)[0] == line[0]
  {
    StripKeepsFirst(line, LineEnds);
    StripKeepsFirst(StripSet(line, LineEnds), Whitespace);
  }

  /**
   * A line of a file (no '\n' but possibly the last character) that starts
   * with a digit and holds no tab, '"' or '\r' is written as its fields
   * joined by tabs plus "\r\n", and splitting that record on tabs gives the
   * row back.
   */
  lemma DataRecordRoundTrip(line: string)
    requires Qualifies(line)
    requires forall j :: 0 <= j < |line| - 1 ==> line[j] != '\n'
    requires '\t' !in line && '"' !in line && '\r' !in line
    ensures var row := DataRow(Tokens(line));
      FormatRow(row, '\t') == Join(row, '\t') + Terminator && Split(Join(row, '\t'), '\t') == row
  {
    var row := DataRow(Tokens(line));
    QualifyingFirstToken(line);
    assert row != [""];
    StripDropsLast(line, LineEnds, '\n');
    DataRowAvoids(line, '\n');
    StripSetAvoids(line, LineEnds, '\t');
    DataRowAvoids(line, '\t');
    StripSetAvoids(line, LineEnds, '"');
    DataRowAvoids(line, '"');
    StripSetAvoids(line, LineEnds, '\r');
    DataRowAvoids(line, '\r');
    PlainRowRoundTrip(row, '\t');
  }

  /** A character the first strip left out of the line is in no field of its data row. */
  lemma DataRowAvoids(line: string, c: char)
    requires c !in StripSet(line, LineEnds)
    ensures forall k :: 0 <= k < |DataRow(Tokens(line))| ==> c !in DataRow(Tokens(line))[k]
  {
    TokensAvoid(line, c);
    GluedAvoids(Tokens(line), DataTailEnd, c);
  }

  /** A character the first strip left out of the line is in no token. */
  lemma TokensAvoid(line: string, c: char)
    requires c !in StripSet(line, LineEnds)
    ensures forall k :: 0 <= k < |Tokens(line)| ==> c !in Tokens(line)[k]
  {
    var t := Trimmed(line);
    StripSetAvoids(StripSet(line, LineEnds), Whitespace, c);
    SplitAvoids(t, ' ', c);
    NonEmptyAvoids(Split(t, ' '), c);
  }

  /** A character no token holds is in no field of a row glued from them. */
  lemma GluedAvoids(tokens: seq<string>, hi: nat, c: char)
    requires Min(KeptColumns, |tokens|) <= hi
    requires forall k :: 0 <= k < |tokens| ==> c !in tokens[k]
    ensures forall k :: 0 <= k < |Glued(tokens, hi)| ==> c !in Glued(tokens, hi)[k]
  {
    var m := Min(KeptColumns, |tokens|);
    var glued := tokens[m..Min(hi, |tokens|)];
    assert forall k :: 0 <= k < |glued| ==> glued[k] == tokens[m + k];
    ConcatAvoids(glued, c);
    var row := tokens[..m] + [Concat(glued)];
    forall k | 0 <= k < |row|
      ensures c !in row[k]
    {
      if k < m {
        assert row[k] == tokens[k];
      }
    }
  }

  // ---------------------------------------------------------------------------
  // data_parser

  /**
   * The rows a parser returns for the lines of a file: for each line it
   * keeps, in file order, the row it makes of that line.
   */
  function Select(lines: seq<string>, keep: string -> bool, shape: string -> seq<string>): seq<seq<string>>
    decreases |lines|
  {
    if |lines| == 0 then []
    else
      var line := lines[|lines| - 1];
      Select(lines[..|lines| - 1], keep, shape) + (if keep(line) then [shape(line)] else [])
  }

  /** A row is returned exactly when it is the row of some kept line. */
  lemma {:induction false} SelectMembers(lines: seq<string>, keep: string -> bool, shape: string -> seq<string>, row: seq<string>)
    ensures row in Select(lines, keep, shape) <==> exists k :: 0 <= k < |lines| && keep(lines[k]) && shape(lines[k]) == row
    decreases |lines|
  {
    if |lines| > 0 {
      var init := lines[..|lines| - 1];
      SelectMembers(init, keep, shape, row);
      assert forall k :: 0 <= k < |init| ==> init[k] == lines[k];
    }
  }

  /** One more line adds its row when it is kept, and nothing otherwise. */
  lemma SelectStep(lines: seq<string>, i: nat, keep: string -> bool, shape: string -> seq<string>)
    requires i < |lines|
    ensures Select(lines[..i + 1], keep, shape)
      == Select(lines[..i], keep, shape) + (if keep(lines[i]) then [shape(lines[i])] else [])
  {
    assert lines[..i + 1][..i] == lines[..i];
  }

  function DataRowOf(line: string): seq<string> {
    DataRow(Tokens(line))
  }

  /** The rows `data_parser` returns: one per log line, in order. */
  function DataRows(lines: seq<string>): seq<seq<string>> {
    Select(lines, Qualifies, DataRowOf)
  }

  /**
   * Lines that are not kept (for `data_parser`, lines not starting with a
   * digit) leave no row; each kept line leaves one.
   */
  lemma {:induction false} SelectCount(lines: seq<string>, keep: string -> bool, shape: string -> seq<string>)
    ensures |Select(lines, keep, shape)| <= |lines|
    ensures (forall k :: 0 <= k < |lines| ==> keep(lines[k])) ==> |Select(lines, keep, shape)| == |lines|
    ensures (forall k :: 0 <= k < |lines| ==> !keep(lines[k])) ==> Select(lines, keep, shape) == []
    decreases |lines|
  {
    if |lines| > 0 {
      var init := lines[..|lines| - 1];
      SelectCount(init, keep, shape);
      assert forall k :: 0 <= k < |init| ==> init[k] == lines[k];
    }
  }

  /** `data_parser(input)`: one row per line of the file that starts with a digit. */
  method DataParser(text: string) returns (logList: seq<seq<string>>)
    ensures logList == DataRows(FileLines(text))
  {
    var lines := FileLines(text);
    logList := [];
    for i := 0 to |lines|
      invariant logList == DataRows(lines[..i])
    {
      var line := lines[i];
      assert line != "";
      SelectStep(lines, i, Qualifies, DataRowOf);
      if IsDigit(line[0]) {
        logList := logList + [DataRowOf(line)];
      }
    }
    assert lines[..|lines|] == lines;
  }

  // ---------------------------------------------------------------------------
  // ip_parser

  /** A line `ip_parser` keeps: a log line on which the pattern matches. */
  predicate IpLine(line: string) {
    Qualifies(line) && FindAll(line) != []
  }

  function IpRowOf(line: string): seq<string> {
    IpRow(Tokens(line))
  }

  /** The rows `ip_parser` returns: one per log line holding a dotted quad, in order. */
  function IpRows(lines: seq<string>): seq<seq<string>> {
    Select(lines, IpLine, IpRowOf)
  }

  /** Every dotted quad found on a log line, in file order, repeats kept. */
  function IpAddresses(lines: seq<string>): (r: seq<string>)
    ensures forall k :: 0 <= k < |r| ==> IsDottedQuad(r[k])
    decreases |lines|
  {
    if |lines| == 0 then []
    else
      var line := lines[|lines| - 1];
      IpAddresses(lines[..|lines| - 1]) + (if Qualifies(line) then FindAll(line) else [])
  }

  /** One more line adds the addresses found on it when it is a log line. */
  lemma IpAddressesStep(lines: seq<string>, i: nat)
    requires i < |lines|
    ensures IpAddresses(lines[..i + 1])
      == IpAddresses(lines[..i]) + (if Qualifies(lines[i]) then FindAll(lines[i]) else [])
  {
    assert lines[..i + 1][..i] == lines[..i];
  }

  /** A log line is kept by `ip_parser` exactly when a dotted quad occurs in it anywhere. */
  lemma IpLineIff(line: string)
    ensures IpLine(line) <==> Qualifies(line) && exists a: nat, b: nat :: QuadAt(line, a, b)
  {
    FindAllNonEmpty(line);
  }

  /**
   * Only log lines can have an IP row, and each IP row stands for at least
   * one listed address; a log line has an IP row exactly when a dotted quad
   * occurs in it anywhere.
   */
  lemma {:induction false} IpRowsBound(lines: seq<string>)
    ensures |IpRows(lines)| <= |DataRows(lines)|
    ensures |IpRows(lines)| <= |IpAddresses(lines)|
    decreases |lines|
  {
    if |lines| > 0 {
      IpRowsBound(lines[..|lines| - 1]);
    }
  }

  /** What `ip_list.txt` holds after writing `addrs`: each address on its own line. */
  function IpListText(addrs: seq<string>): string
    decreases |addrs|
  {
    if |addrs| == 0 then "" else addrs[0] + "\n" + IpListText(addrs[1..])
  }

  lemma {:induction false} IpListTextAppend(addrs: seq<string>, a: string)
    ensures IpListText(addrs + [a]) == IpListText(addrs) + a + "\n"
    decreases |addrs|
  {
    if |addrs| > 0 {
      assert (addrs + [a])[1..] == addrs[1..] + [a];
      IpListTextAppend(addrs[1..], a);
    }
  }

  lemma DottedQuadLine(t: string)
    requires IsDottedQuad(t)
    ensures t != "" && '\n' !in t
  {
    var parts := Split(t, '.');
    JoinSplit(t, '.');
    forall k | 0 <= k < |parts|
      ensures '\n' !in parts[k]
    {
      assert forall m :: 0 <= m < |parts[k]| ==> parts[k][m] != '\n';
    }
    JoinAvoids(parts, '.', '\n');
    assert Join(parts, '.') == parts[0] + ['.'] + Join(parts[1..], '.');
  }

  /** Read back line by line, `ip_list.txt` gives the addresses in order, one per line. */
  lemma {:induction false} IpListReadBack(addrs: seq<string>)
    requires forall k :: 0 <= k < |addrs| ==> IsDottedQuad(addrs[k])
    ensures FileLines(IpListText(addrs)) == seq(|addrs|, k requires 0 <= k < |addrs| => addrs[k] + "\n")
    decreases |addrs|
  {
    if |addrs| > 0 {
      DottedQuadLine(addrs[0]);
      IpListReadBack(addrs[1..]);
      FileLinesFirst(addrs[0], IpListText(addrs[1..]));
    }
  }

  /** `ip_list.txt` after `ip_parser`: untouched when no address was found, else the full list. */
  function IpListFile(addrs: seq<string>): Option<string> {
    if addrs == [] then None else Some(IpListText(addrs))
  }

  /** The inner write loop: `ip_list.txt` rewritten with every address so far. */
  method WriteIpList(addrs: seq<string>) returns (content: string)
    ensures content == IpListText(addrs)
  {
    content := "";
    for w := 0 to |addrs|
      invariant content == IpListText(addrs[..w])
    {
      IpListTextAppend(addrs[..w], addrs[w]);
      assert addrs[..w + 1] == addrs[..w] + [addrs[w]];
      content := content + addrs[w] + "\n";
    }
    assert addrs[..|addrs|] == addrs;
  }

  /**
   * `for i in ip: ip_addr.append(i)` with the list file rewritten after each
   * append: the addresses extended by the line's matches, the file holding
   * them all.
   */
  method AddAddresses(ipAddr: seq<string>, ipList: Option<string>, ip: seq<string>)
    returns (ipAddr': seq<string>, ipList': Option<string>)
    requires ipList == IpListFile(ipAddr)
    ensures ipAddr' == ipAddr + ip
    ensures ipList' == IpListFile(ipAddr')
  {
    ipAddr' := ipAddr;
    ipList' := ipList;
    for n := 0 to |ip|
      invariant ipAddr' == ipAddr + ip[..n]
      invariant ipList' == IpListFile(ipAddr')
    {
      ipAddr' := ipAddr' + [ip[n]];
      var content := WriteIpList(ipAddr');
      ipList' := Some(content);
      assert ip[..n + 1] == ip[..n] + [ip[n]];
    }
    assert ip[..|ip|] == ip;
  }

  /**
   * `ip_parser(input)`: for every log line, the dotted quads on it are added
   * to the address list, and after each one the whole list is written out
   * again; a log line with at least one address also gets an IP row.
   */
  method IpParser(text: string) returns (ipLogs: seq<seq<string>>, ipAddr: seq<string>, ipList: Option<string>)
    ensures ipLogs == IpRows(FileLines(text))
    ensures ipAddr == IpAddresses(FileLines(text))
    ensures ipList == IpListFile(ipAddr)
  {
    var lines := FileLines(text);
    ipLogs := [];
    ipAddr := [];
    ipList := None;
    for i := 0 to |lines|
      invariant ipLogs == IpRows(lines[..i])
      invariant ipAddr == IpAddresses(lines[..i])
      invariant ipList == IpListFile(ipAddr)
    {
      var line := lines[i];
      assert line != "";
      SelectStep(lines, i, IpLine, IpRowOf);
      IpAddressesStep(lines, i);
      if IsDigit(line[0]) {
        var ip := FindAll(line);
        if ip != [] {
          ipAddr, ipList := AddAddresses(ipAddr, ipList, ip);
          ipLogs := ipLogs + [IpRowOf(line)];
        }
      }
    }
    assert lines[..|lines|] == lines;
  }

  // ---------------------------------------------------------------------------
  // write_to_csv and main

  /** `write_to_csv(output, results)`: one tab-separated record per row. */
  method WriteToCsv(results: seq<seq<string>>) returns (records: seq<string>)
    ensures records == FormatRows(results, '\t')
    ensures |records| == |results|
  {
    records := WriteRows(results, '\t');
  }

  /** The files one run leaves behind. */
  datatype Outcome =
    | Written(logOutput: seq<string>, ipResults: seq<string>, ipList: Option<string>)
    | NoInputFile

  /**
   * `main(input)`: when the input is a file, both reports are written and
   * the address list is left as `ip_parser` wrote it; otherwise nothing is
   * written.
   */
  method Run(isFile: bool, text: string) returns (outcome: Outcome)
    ensures !isFile ==> outcome == NoInputFile
    ensures isFile ==> outcome == Written(
      FormatRows(DataRows(FileLines(text)), '\t'),
      FormatRows(IpRows(FileLines(text)), '\t'),
      IpListFile(IpAddresses(FileLines(text))))
  {
    if isFile {
      var results := DataParser(text);
      var logOutput := WriteToCsv(results);
      var ipLogs, ipAddr, ipList := IpParser(text);
      var ipResults := WriteToCsv(ipLogs);
      outcome := Written(logOutput, ipResults, ipList);
    } else {
      outcome := NoInputFile;
    }
  }
}
