/**
 * The Python string operations the three log parsers are built from, stated
 * over ASCII: `str.split(sep)` with a one-character separator, `sep.join`,
 * `''.join`, `str.strip`/`str.rstrip`, `filter(None, ...)`, `str.isdigit`,
 * `str.endswith`, the `in` substring test, `os.path.basename` and `str(n)`.
 */
module Text {

  datatype Option<T> = None | Some(value: T) {
    /** The value, or `default` when there is none (`dict.get(key, default)`). */
    function GetOr(default: T): T {
      if Some? then value else default
    }
  }

  /**
   * The ASCII characters `str.isspace` counts as whitespace: space, \t, \n,
   * \v, \f, \r and the four separators \x1c to \x1f.
   */
  const Whitespace: set<char> :=
    {' ', '\t', '\n', '\U{000B}', '\U{000C}', '\r', '\U{001C}', '\U{001D}', '\U{001E}', '\U{001F}'}

  /** `str.isdigit` restricted to the ASCII digits. */
  predicate IsDigit(c: char) {
    '0' <= c <= '9'
  }

  predicate AllDigits(s: string) {
    forall k :: 0 <= k < |s| ==> IsDigit(s[k])
  }

  function Min(a: nat, b: nat): nat {
    if a < b then a else b
  }

  // ---------------------------------------------------------------------------
  // Stripping

  /** `s.rstrip(cs)`: drop the longest suffix made of characters in `cs`. */
  function RStripSet(s: string, cs: set<char>): (r: string)
    ensures r <= s
    ensures r == [] || r[|r| - 1] !in cs
    ensures forall k :: |r| <= k < |s| ==> s[k] in cs
    decreases |s|
  {
    if |s| > 0 && s[|s| - 1] in cs then RStripSet(s[..|s| - 1], cs) else s
  }

  /** `s.lstrip(cs)`: drop the longest prefix made of characters in `cs`. */
  function LStripSet(s: string, cs: set<char>): (r: string)
    ensures |r| <= |s| && r == s[|s| - |r|..]
    ensures r == [] || r[0] !in cs
    ensures forall k :: 0 <= k < |s| - |r| ==> s[k] in cs
    decreases |s|
  {
    if |s| > 0 && s[0] in cs then LStripSet(s[1..], cs) else s
  }

  /** `s.strip(cs)`. */
  function StripSet(s: string, cs: set<char>): string {
    RStripSet(LStripSet(s, cs), cs)
  }

  /** `s.rstrip()`. */
  function RStrip(s: string): string {
    RStripSet(s, Whitespace)
  }

  /** `s.strip()`. */
  function Strip(s: string): string {
    StripSet(s, Whitespace)
  }

  /** A stripped string keeps no stripped character at either end. */
  lemma StripSetEnds(s: string, cs: set<char>)
    ensures var r := StripSet(s, cs);
      r == [] || (r[0] !in cs && r[|r| - 1] !in cs)
  {
    var l := LStripSet(s, cs);
    var r := RStripSet(l, cs);
    if r != [] {
      assert r[0] == l[0];
    }
  }

  /** A stripped character found nowhere but at the end of `s` is gone once `s` is stripped. */
  lemma StripDropsLast(s: string, cs: set<char>, c: char)
    requires c in cs
    requires forall j :: 0 <= j < |s| - 1 ==> s[j] != c
    ensures c !in StripSet(s, cs)
  {
    var l := LStripSet(s, cs);
    var r := RStripSet(l, cs);
    var off := |s| - |l|;
    assert l == s[off..];
  }

  // ---------------------------------------------------------------------------
  // Split and join

  /**
   * `s.split(d)`: the pieces between occurrences of `d`, always at least
   * one (the empty string splits into `[""]`), none containing `d`.
   */
  function Split(s: string, d: char): (r: seq<string>)
    ensures |r| >= 1
    ensures forall k :: 0 <= k < |r| ==> d !in r[k]
    decreases |s|
  {
    if |s| == 0 then [""]
    else if s[0] == d then [""] + Split(s[1..], d)
    else
      var rest := Split(s[1..], d);
      [[s[0]] + rest[0]] + rest[1..]
  }

  /** `d.join(parts)`. */
  function Join(parts: seq<string>, d: char): string
    decreases |parts|
  {
    if |parts| == 0 then ""
    else if |parts| == 1 then parts[0]
    else parts[0] + [d] + Join(parts[1..], d)
  }

  /** `''.join(parts)`. */
  function Concat(parts: seq<string>): string
    decreases |parts|
  {
    if |parts| == 0 then "" else parts[0] + Concat(parts[1..])
  }

  /** `list(filter(None, parts))`: the non-empty parts, in order. */
  function NonEmpty(parts: seq<string>): (r: seq<string>)
    ensures |r| <= |parts|
    ensures forall k :: 0 <= k < |r| ==> r[k] != ""
    ensures forall k :: 0 <= k < |r| ==> r[k] in parts
    decreases |parts|
  {
    if |parts| == 0 then []
    else if parts[0] == "" then NonEmpty(parts[1..])
    else [parts[0]] + NonEmpty(parts[1..])
  }

  /** `s` with every occurrence of `c` deleted. */
  function RemoveChar(s: string, c: char): string
    decreases |s|
  {
    if |s| == 0 then ""
    else if s[0] == c then RemoveChar(s[1..], c)
    else [s[0]] + RemoveChar(s[1..], c)
  }

  /** Joining the pieces of a split gives back the string. */
  lemma {:induction false} JoinSplit(s: string, d: char)
    ensures Join(Split(s, d), d) == s
    decreases |s|
  {
    if |s| > 0 {
      var rest := Split(s[1..], d);
      JoinSplit(s[1..], d);
      if s[0] == d {
        assert Split(s, d) == [""] + rest;
        assert ([""] + rest)[1..] == rest;
      } else {
        var r := Split(s, d);
        assert r == [[s[0]] + rest[0]] + rest[1..];
        if |rest| > 1 {
          assert r[1..] == rest[1..];
          assert Join(rest, d) == rest[0] + [d] + Join(rest[1..], d);
        }
      }
    }
  }

  /** A string without the separator splits into itself alone. */
  lemma {:induction false} SplitNoSeparator(s: string, d: char)
    requires d !in s
    ensures Split(s, d) == [s]
    decreases |s|
  {
    if |s| > 0 {
      SplitNoSeparator(s[1..], d);
      assert [s[0]] + s[1..] == s;
    }
  }

  /** Splitting `a d b`, where `a` holds no separator, peels `a` off. */
  lemma {:induction false} SplitAtFirst(a: string, b: string, d: char)
    requires d !in a
    ensures Split(a + [d] + b, d) == [a] + Split(b, d)
    decreases |a|
  {
    var s := a + [d] + b;
    if |a| == 0 {
      assert s[0] == d && s[1..] == b;
    } else {
      assert s[0] == a[0] && s[1..] == a[1..] + [d] + b;
      SplitAtFirst(a[1..], b, d);
      assert [a[0]] + a[1..] == a;
    }
  }

  /** Splitting a join gives back the parts, when no part holds the separator. */
  lemma {:induction false} SplitJoin(parts: seq<string>, d: char)
    requires |parts| >= 1
    requires forall k :: 0 <= k < |parts| ==> d !in parts[k]
    ensures Split(Join(parts, d), d) == parts
    decreases |parts|
  {
    if |parts| == 1 {
      SplitNoSeparator(parts[0], d);
    } else {
      SplitJoin(parts[1..], d);
      SplitAtFirst(parts[0], Join(parts[1..], d), d);
      assert [parts[0]] + parts[1..] == parts;
    }
  }

  /** The last piece of a split is a suffix of the string. */
  lemma {:induction false} SplitLast(s: string, d: char)
    ensures var last := Split(s, d)[|Split(s, d)| - 1];
      |last| <= |s| && last == s[|s| - |last|..]
    decreases |s|
  {
    if |s| > 0 {
      SplitLast(s[1..], d);
      var rest := Split(s[1..], d);
      var rl := rest[|rest| - 1];
      var r := Split(s, d);
      if s[0] == d {
        assert r == [""] + rest;
        assert r[|r| - 1] == rl;
        DropSuffix(s, |rl|);
      } else if |rest| == 1 {
        JoinSplit(s[1..], d);
        assert r == [[s[0]] + rest[0]];
        assert [s[0]] + s[1..] == s;
      } else {
        assert r == [[s[0]] + rest[0]] + rest[1..];
        assert r[|r| - 1] == rl;
        DropSuffix(s, |rl|);
      }
    }
  }

  lemma DropSuffix(s: string, n: nat)
    requires 0 < |s| && n <= |s| - 1
    ensures s[1..][|s| - 1 - n..] == s[|s| - n..]
  {
  }

  /** The last piece is non-empty when the string ends in a character other than the separator. */
  lemma {:induction false} SplitLastNonEmpty(s: string, d: char)
    requires |s| > 0 && s[|s| - 1] != d
    ensures Split(s, d)[|Split(s, d)| - 1] != ""
    decreases |s|
  {
    var rest := Split(s[1..], d);
    var r := Split(s, d);
    if s[0] == d {
      assert |s| > 1 && s[1..][|s| - 2] == s[|s| - 1];
      SplitLastNonEmpty(s[1..], d);
      assert r == [""] + rest;
    } else if |rest| > 1 {
      assert |s| > 1 && s[1..][|s| - 2] == s[|s| - 1];
      SplitLastNonEmpty(s[1..], d);
      assert r == [[s[0]] + rest[0]] + rest[1..];
    }
  }

  /** No piece of a split holds a character the string does not hold. */
  lemma {:induction false} SplitAvoids(s: string, d: char, c: char)
    requires c !in s
    ensures forall k :: 0 <= k < |Split(s, d)| ==> c !in Split(s, d)[k]
    decreases |s|
  {
    if |s| > 0 {
      SplitAvoids(s[1..], d, c);
    }
  }

  lemma {:induction false} NonEmptyAvoids(parts: seq<string>, c: char)
    requires forall k :: 0 <= k < |parts| ==> c !in parts[k]
    ensures forall k :: 0 <= k < |NonEmpty(parts)| ==> c !in NonEmpty(parts)[k]
    decreases |parts|
  {
    if |parts| > 0 {
      NonEmptyAvoids(parts[1..], c);
      assert forall k :: 0 <= k < |parts[1..]| ==> parts[1..][k] == parts[k + 1];
    }
  }

  /**
   * When a split has more than one piece, the first piece is the string up
   * to the first separator, and what follows that separator splits into
   * the other pieces.
   */
  lemma {:induction false} SplitFront(s: string, d: char)
    requires |Split(s, d)| > 1
    ensures var p := Split(s, d)[0];
      && |p| < |s| && s[..|p|] == p && s[|p|] == d
      && Split(s[|p| + 1..], d) == Split(s, d)[1..]
    decreases |s|
  {
    if s[0] == d {
      assert Split(s, d) == [""] + Split(s[1..], d);
    } else {
      var rest := Split(s[1..], d);
      assert Split(s, d) == [[s[0]] + rest[0]] + rest[1..];
      SplitFront(s[1..], d);
      var q := rest[0];
      assert s[1..][..|q|] == q && s[1..][|q|] == d;
      assert s[..|q| + 1] == [s[0]] + s[1..][..|q|];
      assert s[|q| + 2..] == s[1..][|q| + 1..];
    }
  }

  /** The first piece of a split starts with the string's first character unless that is the separator. */
  lemma SplitFirst(s: string, d: char)
    requires s != "" && s[0] != d
    ensures Split(s, d)[0] != "" && Split(s, d)[0][0] == s[0]
  {
  }

  /** A concatenation holds no character that none of its parts holds. */
  lemma {:induction false} ConcatAvoids(parts: seq<string>, c: char)
    requires forall k :: 0 <= k < |parts| ==> c !in parts[k]
    ensures c !in Concat(parts)
    decreases |parts|
  {
    if |parts| > 0 {
      ConcatAvoids(parts[1..], c);
    }
  }

  /** Stripping adds no character. */
  lemma StripSetAvoids(s: string, cs: set<char>, c: char)
    requires c !in s
    ensures c !in StripSet(s, cs)
  {
    var l := LStripSet(s, cs);
    assert l == s[|s| - |l|..];
  }

  lemma {:induction false} ConcatAppend(a: seq<string>, b: seq<string>)
    ensures Concat(a + b) == Concat(a) + Concat(b)
    decreases |a|
  {
    if |a| == 0 {
      assert a + b == b;
    } else {
      assert (a + b)[0] == a[0] && (a + b)[1..] == a[1..] + b;
      ConcatAppend(a[1..], b);
    }
  }

  /** Dropping empty parts loses no characters. */
  lemma {:induction false} ConcatNonEmpty(parts: seq<string>)
    ensures Concat(NonEmpty(parts)) == Concat(parts)
    decreases |parts|
  {
    if |parts| > 0 {
      ConcatNonEmpty(parts[1..]);
      if parts[0] != "" {
        assert NonEmpty(parts) == [parts[0]] + NonEmpty(parts[1..]);
        assert ([parts[0]] + NonEmpty(parts[1..]))[1..] == NonEmpty(parts[1..]);
      }
    }
  }

  lemma {:induction false} RemoveCharAppend(a: string, b: string, c: char)
    ensures RemoveChar(a + b, c) == RemoveChar(a, c) + RemoveChar(b, c)
    decreases |a|
  {
    if |a| == 0 {
      assert a + b == b;
    } else {
      assert (a + b)[0] == a[0] && (a + b)[1..] == a[1..] + b;
      RemoveCharAppend(a[1..], b, c);
    }
  }

  lemma {:induction false} RemoveCharAbsent(s: string, c: char)
    requires c !in s
    ensures RemoveChar(s, c) == s
    decreases |s|
  {
    if |s| > 0 {
      RemoveCharAbsent(s[1..], c);
      assert [s[0]] + s[1..] == s;
    }
  }

  /**
   * Deleting the separator from a join leaves the concatenation of the
   * parts, when no part holds the separator.
   */
  lemma {:induction false} RemoveCharJoin(parts: seq<string>, c: char)
    requires forall k :: 0 <= k < |parts| ==> c !in parts[k]
    ensures RemoveChar(Join(parts, c), c) == Concat(parts)
    decreases |parts|
  {
    if |parts| == 1 {
      RemoveCharAbsent(parts[0], c);
    } else if |parts| > 1 {
      RemoveCharJoin(parts[1..], c);
      RemoveCharAppend(parts[0] + [c], Join(parts[1..], c), c);
      RemoveCharAppend(parts[0], [c], c);
      RemoveCharAbsent(parts[0], c);
    }
  }

  // ---------------------------------------------------------------------------
  // Lines of a file

  /**
   * `for line in f` over a text file: the lines in order, each keeping its
   * '\n', the last one without it when the text does not end in one. No
   * line is empty, and together they are the whole text.
   */
  function FileLines(t: string): (r: seq<string>)
    ensures forall k :: 0 <= k < |r| ==> r[k] != ""
    ensures forall k :: 0 <= k < |r| - 1 ==> r[k][|r[k]| - 1] == '\n'
    ensures forall k, j :: 0 <= k < |r| && 0 <= j < |r[k]| - 1 ==> r[k][j] != '\n'
    ensures Concat(r) == t
    decreases |t|
  {
    if |t| == 0 then []
    else if t[0] == '\n' then ["\n"] + FileLines(t[1..])
    else
      var rest := FileLines(t[1..]);
      if rest == [] then [[t[0]]]
      else
        assert ([[t[0]] + rest[0]] + rest[1..])[1..] == rest[1..];
        [[t[0]] + rest[0]] + rest[1..]
  }

  /** A line that holds no '\n' and is followed by one is read back whole. */
  lemma {:induction false} FileLinesFirst(a: string, rest: string)
    requires '\n' !in a
    ensures FileLines(a + "\n" + rest) == [a + "\n"] + FileLines(rest)
    decreases |a|
  {
    var t := a + "\n" + rest;
    if |a| == 0 {
      assert t[1..] == rest;
    } else {
      assert t[0] == a[0] && t[1..] == a[1..] + "\n" + rest;
      FileLinesFirst(a[1..], rest);
      var r := FileLines(t[1..]);
      assert r[0] == a[1..] + "\n" && r[1..] == FileLines(rest);
      assert [t[0]] + r[0] == a + "\n";
    }
  }

  // ---------------------------------------------------------------------------
  // Non-blank lines

  /**
   * `filter(None, (line.rstrip() for line in lines))`: every line
   * right-stripped, the ones that are then empty dropped, in order.
   */
  function NonBlankLines(lines: seq<string>): (r: seq<string>)
    ensures |r| <= |lines|
    ensures forall k :: 0 <= k < |r| ==> r[k] != "" && r[k][|r[k]| - 1] !in Whitespace
    decreases |lines|
  {
    if |lines| == 0 then []
    else
      var init := NonBlankLines(lines[..|lines| - 1]);
      var s := RStrip(lines[|lines| - 1]);
      if s == "" then init else init + [s]
  }

  /** Lines are filtered one by one: the filter distributes over concatenation. */
  lemma {:induction false} NonBlankLinesAppend(a: seq<string>, b: seq<string>)
    ensures NonBlankLines(a + b) == NonBlankLines(a) + NonBlankLines(b)
    decreases |b|
  {
    if |b| == 0 {
      assert a + b == a;
    } else {
      var b' := b[..|b| - 1];
      assert (a + b)[..|a + b| - 1] == a + b';
      NonBlankLinesAppend(a, b');
    }
  }

  /**
   * A string is among the kept lines exactly when some input line
   * right-strips to it and it is not empty.
   */
  lemma {:induction false} NonBlankLinesMembers(lines: seq<string>, s: string)
    ensures s in NonBlankLines(lines) <==> s != "" && exists k :: 0 <= k < |lines| && RStrip(lines[k]) == s
    decreases |lines|
  {
    if |lines| > 0 {
      var init := lines[..|lines| - 1];
      NonBlankLinesMembers(init, s);
      if s != "" && (exists k :: 0 <= k < |lines| && RStrip(lines[k]) == s) {
        var k :| 0 <= k < |lines| && RStrip(lines[k]) == s;
        if k < |lines| - 1 {
          assert init[k] == lines[k];
        }
      }
      if exists k :: 0 <= k < |init| && RStrip(init[k]) == s {
        var k :| 0 <= k < |init| && RStrip(init[k]) == s;
        assert lines[k] == init[k];
      }
    }
  }

  // ---------------------------------------------------------------------------
  // Paths and substrings

  /** `s.endswith(suffix)`. */
  predicate EndsWith(s: string, suffix: string) {
    |suffix| <= |s| && s[|s| - |suffix|..] == suffix
  }

  /** The `in` test on strings: `sub` occurs somewhere in `s`. */
  predicate Contains(s: string, sub: string)
    decreases |s|
  {
    sub <= s || (|s| > 0 && Contains(s[1..], sub))
  }

  /** `sub` sits in `s` at offset `i`. */
  predicate OccursAt(s: string, sub: string, i: nat) {
    i + |sub| <= |s| && s[i..i + |sub|] == sub
  }

  /** `Contains` holds exactly when `sub` sits at some offset of `s`. */
  lemma {:induction false} ContainsAt(s: string, sub: string)
    ensures Contains(s, sub) <==> exists i: nat :: OccursAt(s, sub, i)
    decreases |s|
  {
    if sub <= s {
      assert OccursAt(s, sub, 0);
    }
    if |s| > 0 {
      ContainsAt(s[1..], sub);
      if exists i: nat :: OccursAt(s[1..], sub, i) {
        var i: nat :| OccursAt(s[1..], sub, i);
        assert OccursAt(s, sub, i + 1);
      }
      if exists i: nat :: OccursAt(s, sub, i) {
        var i: nat :| OccursAt(s, sub, i);
        if i > 0 {
          assert OccursAt(s[1..], sub, i - 1);
        }
      }
    } else if exists i: nat :: OccursAt(s, sub, i) {
      var i: nat :| OccursAt(s, sub, i);
      assert sub == [];
    }
  }

  /** `os.path.basename` on a POSIX path: everything after the last '/'. */
  function Basename(path: string): (r: string)
    ensures |r| <= |path| && r == path[|path| - |r|..]
    ensures '/' !in r
    ensures |r| < |path| ==> path[|path| - |r| - 1] == '/'
    decreases |path|
  {
    if |path| == 0 || path[|path| - 1] == '/' then ""
    else Basename(path[..|path| - 1]) + [path[|path| - 1]]
  }

  /** The basename of `dir/name` is `name`, whatever the directory. */
  lemma {:induction false} BasenameOfJoin(dir: string, name: string)
    requires '/' !in name
    ensures Basename(dir + "/" + name) == name
    decreases |name|
  {
    var p := dir + "/" + name;
    if |name| == 0 {
      assert p[|p| - 1] == '/';
    } else {
      assert p[..|p| - 1] == dir + "/" + name[..|name| - 1];
      BasenameOfJoin(dir, name[..|name| - 1]);
      assert name[..|name| - 1] + [name[|name| - 1]] == name;
    }
  }

  // ---------------------------------------------------------------------------
  // Decimal rendering

  function DigitChar(d: nat): (c: char)
    requires d < 10
    ensures IsDigit(c)
  {
    (('0' as int) + d) as char
  }

  function DigitValue(c: char): nat
    requires IsDigit(c)
  {
    (c as int) - ('0' as int)
  }

  /** `str(n)` for a non-negative integer. */
  function NatToString(n: nat): (r: string)
    ensures r != "" && AllDigits(r)
    decreases n
  {
    if n < 10 then [DigitChar(n)] else NatToString(n / 10) + [DigitChar(n % 10)]
  }

  /** The value of a string of decimal digits, `int(s)`. */
  function DecimalValue(s: string): nat
    requires AllDigits(s)
    decreases |s|
  {
    if |s| == 0 then 0 else 10 * DecimalValue(s[..|s| - 1]) + DigitValue(s[|s| - 1])
  }

  /** `int(str(n)) == n`. */
  lemma {:induction false} NatToStringRoundTrip(n: nat)
    ensures DecimalValue(NatToString(n)) == n
    decreases n
  {
    var r := NatToString(n);
    if n >= 10 {
      NatToStringRoundTrip(n / 10);
      assert r[..|r| - 1] == NatToString(n / 10);
    }
  }
}
