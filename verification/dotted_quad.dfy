/**
 * `re.findall(r'[0-9]+(?:\.[0-9]+){3}', line)`: the IPv4-shaped substrings
 * of a line, found by a left-to-right scan. At each position the pattern
 * either matches (taking every digit it can, since backtracking to a shorter
 * run leaves a digit where a dot is needed) or the scan moves on by one
 * character; after a match it resumes where the match ended.
 */
module DottedQuad {
  import opened Text

  /** `t` is `n` non-empty runs of ASCII digits joined by single dots. */
  predicate DigitRuns(t: string, n: nat) {
    var parts := Split(t, '.');
    |parts| == n && forall k :: 0 <= k < n ==> parts[k] != "" && AllDigits(parts[k])
  }

  /** How many runs the pattern asks for: `[0-9]+` then three times `\.[0-9]+`. */
  const RunCount: nat := 4

  /**
   * What the pattern accepts as a whole: four non-empty runs of ASCII digits
   * joined by single dots. No octet is range-checked.
   */
  predicate IsDottedQuad(t: string) {
    DigitRuns(t, RunCount)
  }

  /** `s[a..b]` is a dotted quad. */
  predicate QuadAt(s: string, a: nat, b: nat) {
    a <= b <= |s| && IsDottedQuad(s[a..b])
  }

  /** The end of the longest run of digits starting at `i` (a greedy `[0-9]*`). */
  function RunEnd(s: string, i: nat): (j: nat)
    requires i <= |s|
    ensures i <= j <= |s|
    ensures AllDigits(s[i..j])
    ensures j == |s| || !IsDigit(s[j])
    decreases |s| - i
  {
    if i < |s| && IsDigit(s[i]) then RunEnd(s, i + 1) else i
  }

  /** A digit run from `i` to `k` that reaches `k` is no longer than the greedy one, and equal to it when it stops where the digits stop. */
  lemma {:induction false} RunEndReaches(s: string, i: nat, k: nat)
    requires i <= k <= |s| && AllDigits(s[i..k])
    ensures RunEnd(s, i) >= k
    ensures k == |s| || !IsDigit(s[k]) ==> RunEnd(s, i) == k
    decreases k - i
  {
    if i < k {
      assert s[i] == s[i..k][0];
      assert s[i + 1..k] == s[i..k][1..];
      RunEndReaches(s, i + 1, k);
    }
  }

  lemma DigitsHaveNoDot(s: string)
    requires AllDigits(s)
    ensures '.' !in s
  {
    assert forall m :: 0 <= m < |s| ==> s[m] != '.';
  }

  /** Joining four parts puts the separator between each neighbouring pair. */
  lemma Join4(p0: string, p1: string, p2: string, p3: string, d: char)
    ensures Join([p0, p1, p2, p3], d) == p0 + [d] + p1 + [d] + p2 + [d] + p3
  {
    var parts := [p0, p1, p2, p3];
    assert parts[1..] == [p1, p2, p3];
    assert parts[1..][1..] == [p2, p3];
    assert parts[1..][1..][1..] == [p3];
    assert Join([p2, p3], d) == p2 + [d] + p3;
  }

  /**
   * `[0-9]+` followed by `n - 1` times `\.[0-9]+`, tried at `i`: `Some(j)`
   * when it matches `s[i..j]`. Each run takes every digit it can, since
   * giving one back leaves a digit where a dot or the end is needed.
   */
  function MatchRuns(s: string, i: nat, n: nat): (r: Option<nat>)
    requires i <= |s| && n >= 1
    ensures r.Some? ==> i < r.value <= |s|
    ensures r.Some? ==> r.value == |s| || !IsDigit(s[r.value])
    decreases n
  {
    var e := RunEnd(s, i);
    if e == i then None
    else if n == 1 then Some(e)
    else if e == |s| || s[e] != '.' then None
    else MatchRuns(s, e + 1, n - 1)
  }

  /** The regex tried at position `i`. */
  function MatchAt(s: string, i: nat): Option<nat>
    requires i <= |s|
  {
    MatchRuns(s, i, RunCount)
  }

  /** What the runs match is that many digit runs joined by dots. */
  lemma {:induction false} MatchRunsSound(s: string, i: nat, n: nat)
    requires i <= |s| && n >= 1 && MatchRuns(s, i, n).Some?
    ensures DigitRuns(s[i..MatchRuns(s, i, n).value], n)
    decreases n
  {
    var e := RunEnd(s, i);
    var j := MatchRuns(s, i, n).value;
    if n == 1 {
      DigitRunsOfRun(s[i..e]);
    } else {
      assert MatchRuns(s, i, n) == MatchRuns(s, e + 1, n - 1);
      MatchRunsSound(s, e + 1, n - 1);
      assert s[i..j] == s[i..e] + ['.'] + s[e + 1..j];
      DigitRunsCons(s[i..e], s[e + 1..j], n - 1);
    }
  }

  /** A non-empty run of digits is one run. */
  lemma DigitRunsOfRun(t: string)
    requires t != "" && AllDigits(t)
    ensures DigitRuns(t, 1)
  {
    DigitsHaveNoDot(t);
    SplitNoSeparator(t, '.');
  }

  /** A run of digits, a dot, then `n` runs make `n + 1` runs. */
  lemma DigitRunsCons(a: string, b: string, n: nat)
    requires a != "" && AllDigits(a) && DigitRuns(b, n)
    ensures DigitRuns(a + ['.'] + b, n + 1)
  {
    DigitsHaveNoDot(a);
    SplitAtFirst(a, b, '.');
    var parts := Split(a + ['.'] + b, '.');
    forall k | 0 <= k < n + 1
      ensures parts[k] != "" && AllDigits(parts[k])
    {
      if k > 0 {
        assert parts[k] == Split(b, '.')[k - 1];
      }
    }
  }

  /** One run is a non-empty run of digits. */
  lemma DigitRunsOne(t: string)
    requires DigitRuns(t, 1)
    ensures t != "" && AllDigits(t)
  {
    JoinSplit(t, '.');
  }

  /** More than one run: a first run of digits, a dot, then one run fewer. */
  lemma DigitRunsFront(t: string, n: nat) returns (m: nat)
    requires n > 1 && DigitRuns(t, n)
    ensures 0 < m < |t| && AllDigits(t[..m]) && t[m] == '.'
    ensures DigitRuns(t[m + 1..], n - 1)
  {
    var parts := Split(t, '.');
    SplitFront(t, '.');
    m := |parts[0]|;
    var rest := Split(t[m + 1..], '.');
    assert rest == parts[1..];
    forall k | 0 <= k < n - 1
      ensures rest[k] != "" && AllDigits(rest[k])
    {
      assert rest[k] == parts[k + 1];
    }
  }

  /** The runs in `s[i..j]`, located in `s`: a first run from `i` to `e`, a dot at `e`, the rest after it. */
  lemma DigitRunsFrontAt(s: string, i: nat, j: nat, n: nat) returns (e: nat)
    requires i <= j <= |s| && n > 1 && DigitRuns(s[i..j], n)
    ensures i < e < j && AllDigits(s[i..e]) && s[e] == '.'
    ensures DigitRuns(s[e + 1..j], n - 1)
  {
    var t := s[i..j];
    var m := DigitRunsFront(t, n);
    e := i + m;
    assert s[i..e] == t[..m];
    assert s[e + 1..j] == t[m + 1..];
  }

  /**
   * Where `n` digit runs joined by dots start at `i`, the runs match at `i`;
   * where they are not followed by a digit, the match ends exactly there.
   */
  lemma {:induction false} MatchRunsComplete(s: string, i: nat, j: nat, n: nat)
    requires i <= j <= |s| && n >= 1 && DigitRuns(s[i..j], n)
    ensures MatchRuns(s, i, n).Some?
    ensures j == |s| || !IsDigit(s[j]) ==> MatchRuns(s, i, n) == Some(j)
    decreases n
  {
    if n == 1 {
      DigitRunsOne(s[i..j]);
      RunEndReaches(s, i, j);
    } else {
      var e := DigitRunsFrontAt(s, i, j, n);
      RunEndReaches(s, i, e);
      MatchRunsComplete(s, e + 1, j, n - 1);
    }
  }

  /**
   * The matches `findall` reports from position `i` on, as (start, end)
   * pairs: in left-to-right order, none overlapping.
   */
  function FindSpans(s: string, i: nat): (r: seq<(nat, nat)>)
    requires i <= |s|
    ensures forall k :: 0 <= k < |r| ==> i <= r[k].0 < r[k].1 <= |s|
    ensures forall k :: 0 < k < |r| ==> r[k - 1].1 <= r[k].0
    decreases |s| - i
  {
    if i == |s| then []
    else
      match MatchAt(s, i)
      case Some(j) => [(i, j)] + FindSpans(s, j)
      case None => FindSpans(s, i + 1)
  }

  /** Every reported span is the regex's match at its start. */
  lemma {:induction false} FindSpanIsMatch(s: string, i: nat, k: nat)
    requires i <= |s| && k < |FindSpans(s, i)|
    ensures MatchAt(s, FindSpans(s, i)[k].0) == Some(FindSpans(s, i)[k].1)
    decreases |s| - i
  {
    var r := FindSpans(s, i);
    match MatchAt(s, i)
    case Some(j) =>
      assert r == [(i, j)] + FindSpans(s, j);
      if k > 0 {
        FindSpanIsMatch(s, j, k - 1);
      }
    case None =>
      assert r == FindSpans(s, i + 1);
      FindSpanIsMatch(s, i + 1, k);
  }

  /**
   * Every position where the regex would match lies inside some reported
   * span: the scan skips no match except one overlapping a match already
   * taken.
   */
  lemma {:induction false} FindSpansCover(s: string, i: nat, p: nat) returns (k: nat)
    requires i <= p < |s| && MatchAt(s, p).Some?
    ensures k < |FindSpans(s, i)| && FindSpans(s, i)[k].0 <= p < FindSpans(s, i)[k].1
    decreases |s| - i
  {
    var r := FindSpans(s, i);
    match MatchAt(s, i)
    case Some(j) =>
      assert r == [(i, j)] + FindSpans(s, j);
      if p < j {
        k := 0;
      } else {
        var k' := FindSpansCover(s, j, p);
        k := k' + 1;
      }
    case None =>
      assert p != i && r == FindSpans(s, i + 1);
      k := FindSpansCover(s, i + 1, p);
  }

  /** Every reported span is a dotted quad. */
  lemma FindSpansQuads(s: string, i: nat)
    requires i <= |s|
    ensures forall k :: 0 <= k < |FindSpans(s, i)| ==> QuadAt(s, FindSpans(s, i)[k].0, FindSpans(s, i)[k].1)
  {
    var r := FindSpans(s, i);
    forall k | 0 <= k < |r|
      ensures QuadAt(s, r[k].0, r[k].1)
    {
      FindSpanIsMatch(s, i, k);
      MatchRunsSound(s, r[k].0, RunCount);
    }
  }

  /** `re.findall(...)`: the matched substrings, left to right. */
  function FindAll(s: string): (r: seq<string>)
    ensures |r| == |FindSpans(s, 0)|
    ensures forall k :: 0 <= k < |r| ==> IsDottedQuad(r[k])
  {
    var spans := FindSpans(s, 0);
    FindSpansQuads(s, 0);
    seq(|spans|, k requires 0 <= k < |spans| => s[spans[k].0..spans[k].1])
  }

  /** `if ip:` holds exactly when the line holds a dotted quad anywhere. */
  lemma FindAllNonEmpty(s: string)
    ensures FindAll(s) != [] <==> exists a: nat, b: nat :: QuadAt(s, a, b)
  {
    var r := FindSpans(s, 0);
    if r != [] {
      FindSpansQuads(s, 0);
      assert QuadAt(s, r[0].0, r[0].1);
    }
    if exists a: nat, b: nat :: QuadAt(s, a, b) {
      var a: nat, b: nat :| QuadAt(s, a, b);
      MatchRunsComplete(s, a, b, RunCount);
      var k := FindSpansCover(s, 0, a);
    }
  }

  /** A line that is one dotted quad yields exactly that one match. */
  lemma WholeQuadFound(t: string)
    requires IsDottedQuad(t)
    ensures FindAll(t) == [t]
  {
    assert t[0..|t|] == t;
    assert QuadAt(t, 0, |t|);
    MatchRunsComplete(t, 0, |t|, RunCount);
    assert FindSpans(t, 0) == [(0, |t|)];
  }

  /**
   * Any four non-empty digit runs joined by dots are found whole, whatever
   * their length or value ("999.999.999.999" included): there is no range
   * check on the octets.
   */
  lemma AnyDigitRunsMatch(a: string, b: string, c: string, d: string)
    requires a != "" && b != "" && c != "" && d != ""
    requires AllDigits(a) && AllDigits(b) && AllDigits(c) && AllDigits(d)
    ensures FindAll(a + "." + b + "." + c + "." + d) == [a + "." + b + "." + c + "." + d]
  {
    var parts := [a, b, c, d];
    forall k | 0 <= k < 4
      ensures '.' !in parts[k]
    {
      DigitsHaveNoDot(parts[k]);
    }
    Join4(a, b, c, d, '.');
    SplitJoin(parts, '.');
    WholeQuadFound(a + "." + b + "." + c + "." + d);
  }
}
