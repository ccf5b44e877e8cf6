/** `VagrantMachine.parse_result`: one test-runner output file, named
    `.../test-<branch>.py<2|3>.out`, summarised as python version, branch
    name, coverage, test outcome, optional skip histogram, ERROR lines
    and FAIL lines. Each regular expression of the parser is modelled by a
    predicate over the text or its newline-separated lines. */
module Report {
  import opened Wrappers
  import opened Errors
  import opened Text
  import opened Seqs

  // ---------------------------------------------------------------------
  // The file name: r'/test-(.*)\.py([23])\.out$' searched in the path

  datatype FileName = FileName(branch: string, version: char)

  predicate IsVersionTail(t: string) {
    |t| == 8 && t[0] == '.' && t[1] == 'p' && t[2] == 'y' && (t[3] == '2' || t[3] == '3') &&
    t[4] == '.' && t[5] == 'o' && t[6] == 'u' && t[7] == 't'
  }

  /** `(.*)\.py([23])\.out$` anchored where "/test-" ended: `.` stops at a
      newline, and `$` also matches just before a final newline. */
  function VersionSuffix(r: string): (m: Option<FileName>)
    ensures m.Some? ==> (m.value.version == '2' || m.value.version == '3') && '\n' !in m.value.branch
  {
    if |r| >= 8 && IsVersionTail(r[|r| - 8..]) && '\n' !in r[..|r| - 8] then
      Some(FileName(r[..|r| - 8], r[|r| - 5]))
    else if |r| >= 9 && r[|r| - 1] == '\n' && IsVersionTail(r[|r| - 9..|r| - 1]) && '\n' !in r[..|r| - 9] then
      Some(FileName(r[..|r| - 9], r[|r| - 6]))
    else
      None
  }

  lemma VersionTailShape(t: string)
    requires IsVersionTail(t)
    ensures t == ".py" + [t[3]] + ".out"
  {
    assert t == t[..3] + [t[3]] + t[4..];
  }

  lemma TailAtEnd(r: string)
    requires |r| >= 8 && IsVersionTail(r[|r| - 8..])
    ensures r == r[..|r| - 8] + ".py" + [r[|r| - 5]] + ".out"
  {
    var t := r[|r| - 8..];
    VersionTailShape(t);
    assert t[3] == r[|r| - 5];
    assert r == r[..|r| - 8] + t;
  }

  lemma TailBeforeNewline(r: string)
    requires |r| >= 9 && r[|r| - 1] == '\n' && IsVersionTail(r[|r| - 9..|r| - 1])
    ensures r == r[..|r| - 9] + ".py" + [r[|r| - 6]] + ".out\n"
  {
    var t := r[|r| - 9..|r| - 1];
    VersionTailShape(t);
    assert t[3] == r[|r| - 6];
    assert r == r[..|r| - 9] + t + "\n";
  }

  /** What the suffix pattern matched is the branch, ".py", the version and
      ".out", at the very end or before a final newline. */
  lemma VersionSuffixShape(r: string)
    requires VersionSuffix(r).Some?
    ensures var m := VersionSuffix(r).value;
            r == m.branch + ".py" + [m.version] + ".out" ||
            r == m.branch + ".py" + [m.version] + ".out\n"
  {
    if |r| >= 8 && IsVersionTail(r[|r| - 8..]) && '\n' !in r[..|r| - 8] {
      TailAtEnd(r);
    } else {
      TailBeforeNewline(r);
    }
  }

  /** The name regex matches with its leading "/" at index `i`. */
  predicate NameMatchesAt(fn: string, i: int) {
    OccursAt(fn, "/test-", i) && VersionSuffix(fn[i + 6..]).Some?
  }

  function NameMatchIndex(fn: string): nat -> bool {
    i => NameMatchesAt(fn, i)
  }

  /** `re.search` of the file-name pattern: the leftmost position where the
      whole pattern matches decides the branch and version. */
  function ParseFileName(fn: string): (r: Option<FileName>)
    ensures r.Some? <==> exists i :: NameMatchesAt(fn, i)
    ensures r.Some? ==> (r.value.version == '2' || r.value.version == '3') && '\n' !in r.value.branch
  {
    assert forall i :: NameMatchesAt(fn, i) ==> 0 <= i <= |fn| && NameMatchIndex(fn)(i);
    match FirstFrom(NameMatchIndex(fn), 0, |fn| + 1)
    case None => None
    case Some(i) => VersionSuffix(fn[i + 6..])
  }

  /** The leftmost match, stated through the search's own predicate. */
  lemma NameMatchSearched(fn: string, i: int)
    requires NameMatchesAt(fn, i)
    requires forall j :: 0 <= j < i ==> !NameMatchesAt(fn, j)
    ensures 0 <= i <= |fn| && NameMatchIndex(fn)(i)
    ensures forall j: nat :: j < i ==> !NameMatchIndex(fn)(j)
  {
  }

  /** The leftmost match decides the result. */
  lemma ParseFileNameLeftmost(fn: string, i: int)
    requires NameMatchesAt(fn, i)
    requires forall j :: 0 <= j < i ==> !NameMatchesAt(fn, j)
    ensures ParseFileName(fn) == VersionSuffix(fn[i + 6..])
  {
    NameMatchSearched(fn, i);
    FirstFromLeast(NameMatchIndex(fn), 0, |fn| + 1, i);
  }

  lemma VersionSuffixOf(branch: string, v: char)
    requires '\n' !in branch && (v == '2' || v == '3')
    ensures VersionSuffix(branch + ".py" + [v] + ".out") == Some(FileName(branch, v))
  {
    var tail := branch + ".py" + [v] + ".out";
    assert tail[|tail| - 8..] == ".py" + [v] + ".out";
    assert tail[..|tail| - 8] == branch;
  }

  /** "/test-" has no proper border, so an occurrence that starts before a
      known one must lie wholly before it. */
  lemma NoMarkerBefore(prefix: string, rest: string, j: int)
    requires forall k :: !OccursAt(prefix, "/test-", k)
    requires 0 <= j < |prefix|
    ensures !OccursAt(prefix + "/test-" + rest, "/test-", j)
  {
    var fn := prefix + "/test-" + rest;
    var i := |prefix|;
    if j + 6 <= i {
      assert fn[j..j + 6] == prefix[j..j + 6];
      assert !OccursAt(prefix, "/test-", j);
    } else if j + 6 <= |fn| {
      assert fn[j..j + 6][i - j] == fn[i] == '/';
    }
  }

  /** No match starts inside a directory part free of "/test-". */
  lemma NoMatchBefore(prefix: string, tail: string)
    requires !Contains(prefix, "/test-")
    ensures forall j :: 0 <= j < |prefix| ==> !NameMatchesAt(prefix + "/test-" + tail, j)
  {
    ContainsIffOccurs(prefix, "/test-");
    forall j | 0 <= j < |prefix| ensures !NameMatchesAt(prefix + "/test-" + tail, j) {
      NoMarkerBefore(prefix, tail, j);
    }
  }

  /** A path ending in "/test-<branch>.py<v>.out" yields that branch and
      version, provided no earlier "/test-" occurs in the directory part. */
  lemma ParseJoinedFileName(prefix: string, branch: string, v: char)
    requires !Contains(prefix, "/test-")
    requires '\n' !in branch && (v == '2' || v == '3')
    ensures ParseFileName(prefix + "/test-" + branch + ".py" + [v] + ".out") == Some(FileName(branch, v))
  {
    var tail := branch + ".py" + [v] + ".out";
    var fn := prefix + "/test-" + tail;
    assert prefix + "/test-" + branch + ".py" + [v] + ".out" == fn;
    var i := |prefix|;
    assert fn[i..i + 6] == "/test-" && fn[i + 6..] == tail;
    VersionSuffixOf(branch, v);
    NoMatchBefore(prefix, tail);
    ParseFileNameLeftmost(fn, i);
  }

  // ---------------------------------------------------------------------
  // Coverage: r'---+\nTOTAL +(.+)\n---+'

  predicate EndsWithDashes(l: string) {
    |l| >= 3 && l[|l| - 3..] == "---"
  }

  /** `TOTAL +(.+)` covering one whole line. The greedy ` +` gives back its
      last space when nothing else is left for `.+`. */
  function TotalValue(l: string): (r: Option<string>)
    ensures r.Some? <==> "TOTAL " <= l && |l| >= 7
    ensures r.Some? ==> r.value != [] && |r.value| <= |l| - 6 && r.value == l[|l| - |r.value|..]
    ensures r.Some? ==> forall k :: 5 <= k < |l| - |r.value| ==> l[k] == ' '
    ensures r.Some? ==> r.value[0] != ' ' || r.value == " "
  {
    if !("TOTAL" <= l) then None
    else
      var rest := l[5..];
      var k := Span(rest, IsBlankChar);
      if k == 0 then None
      else if k < |rest| then Some(rest[k..])
      else if k >= 2 then Some(" ")
      else None
  }

  /** The coverage block with its first dash run ending line `i`. */
  function CoverageAt(lines: seq<string>, i: int): Option<string> {
    if 0 <= i && i + 2 < |lines| && EndsWithDashes(lines[i]) && "---" <= lines[i + 2] then
      TotalValue(lines[i + 1])
    else
      None
  }

  function CoverageIndex(lines: seq<string>): nat -> bool {
    i => CoverageAt(lines, i).Some?
  }

  /** `re.search` of the coverage block. */
  function Coverage(lines: seq<string>): (r: Option<string>)
    ensures r.Some? <==> exists i :: CoverageAt(lines, i).Some?
  {
    assert forall i :: CoverageAt(lines, i).Some? ==> 0 <= i < |lines| && CoverageIndex(lines)(i);
    match FirstFrom(CoverageIndex(lines), 0, |lines|)
    case None => None
    case Some(i) => CoverageAt(lines, i)
  }

  /** The first block in the file gives the coverage value. */
  lemma CoverageFirstBlock(lines: seq<string>, i: int)
    requires CoverageAt(lines, i).Some?
    requires forall j :: 0 <= j < i ==> CoverageAt(lines, j).None?
    ensures Coverage(lines) == CoverageAt(lines, i)
  {
    FirstFromLeast(CoverageIndex(lines), 0, |lines|, i);
  }

  // ---------------------------------------------------------------------
  // Test outcome: r'^((OK|FAILED)( +\([^\)]+\))?)' with re.M

  predicate LineStart(txt: string, p: int) {
    p == 0 || (0 < p <= |txt| && txt[p - 1] == '\n')
  }

  predicate IsBlankChar(c: char) {
    c == ' '
  }

  predicate NotCloseParen(c: char) {
    c != ')'
  }

  /** `s` is exactly what ` +\([^\)]+\)` matches, with its "(" at index `k`:
      one or more spaces, "(", one or more characters other than ")"
      (newlines included), and ")". */
  predicate DetailSplit(s: string, k: int) {
    1 <= k && k + 2 < |s| && (forall i :: 0 <= i < k ==> s[i] == ' ') && s[k] == '('
    && (forall i :: k < i < |s| - 1 ==> s[i] != ')') && s[|s| - 1] == ')'
  }

  predicate IsDetail(s: string) {
    exists k :: 0 <= k < |s| && DetailSplit(s, k)
  }

  /** The optional ` +\([^\)]+\)` after OK or FAILED: the prefix of `t` it
      matches, or "" when no prefix matches. At most one prefix can match,
      since it must end at the first ")". */
  function Detail(t: string): (r: string)
    ensures r <= t
    ensures r != [] ==> IsDetail(r)
    ensures forall n :: 0 <= n <= |t| && IsDetail(t[..n]) ==> r == t[..n]
    ensures r != [] <==> exists n :: 0 <= n <= |t| && IsDetail(t[..n])
    ensures r != [] ==> r[0] == ' ' && r[|r| - 1] == ')' && ')' !in r[..|r| - 1] && '(' in r
  {
    DetailPrefixes(t);
    var k := Span(t, IsBlankChar);
    if 1 <= k < |t| && t[k] == '(' then
      var u := t[k + 1..];
      var j := Span(u, NotCloseParen);
      if 1 <= j < |u| then
        var r := t[..k + j + 2];
        DetailFound(t, k, j);
        assert t[..|r|] == r;
        r
      else ""
    else ""
  }

  /** The prefix the spans delimit is a detail. */
  lemma DetailFound(t: string, k: nat, j: nat)
    requires k == Span(t, IsBlankChar) && 1 <= k < |t| && t[k] == '('
    requires j == Span(t[k + 1..], NotCloseParen) && 1 <= j < |t| - k - 1
    ensures DetailSplit(t[..k + j + 2], k)
    ensures var r := t[..k + j + 2]; r[0] == ' ' && r[|r| - 1] == ')' && ')' !in r[..|r| - 1] && '(' in r
  {
    var r := t[..k + j + 2];
    var u := t[k + 1..];
    assert r[|r| - 1] == u[j];
    forall i | k < i < |r| - 1 ensures r[i] != ')' {
      assert r[i] == u[i - k - 1];
    }
    assert r[k] == '(';
    assert r[..|r| - 1] == t[..k + 1] + u[..j];
  }

  /** Any prefix that is a detail is the one the spans delimit. */
  lemma DetailAt(t: string, n: nat)
    requires n <= |t| && IsDetail(t[..n])
    ensures var k := Span(t, IsBlankChar);
            1 <= k < |t| && t[k] == '(' &&
            var j := Span(t[k + 1..], NotCloseParen); 1 <= j < |t| - k - 1 && n == k + j + 2
  {
    var k :| 0 <= k < |t[..n]| && DetailSplit(t[..n], k);
    DetailBlanks(t, n, k);
    DetailClose(t, n, k);
  }

  /** The spaces of a detail prefix are the leading run of `t`. */
  lemma DetailBlanks(t: string, n: nat, k: int)
    requires n <= |t| && DetailSplit(t[..n], k)
    ensures Span(t, IsBlankChar) == k && t[k] == '('
  {
    var s := t[..n];
    assert s[k] == t[k];
    forall i | 0 <= i < k ensures IsBlankChar(t[i]) {
      assert s[i] == t[i];
    }
    SpanAt(t, IsBlankChar, k);
  }

  /** What follows the "(" of a detail prefix runs up to its ")". */
  lemma DetailClose(t: string, n: nat, k: int)
    requires n <= |t| && DetailSplit(t[..n], k)
    ensures Span(t[k + 1..], NotCloseParen) == n - k - 2
  {
    var s := t[..n];
    var u := t[k + 1..];
    assert u[n - k - 2] == s[n - 1];
    forall i | 0 <= i < n - k - 2 ensures NotCloseParen(u[i]) {
      assert u[i] == s[k + 1 + i];
    }
    SpanAt(u, NotCloseParen, n - k - 2);
  }

  lemma DetailPrefixes(t: string)
    ensures forall n :: 0 <= n <= |t| && IsDetail(t[..n]) ==>
              var k := Span(t, IsBlankChar);
              1 <= k < |t| && t[k] == '(' &&
              var j := Span(t[k + 1..], NotCloseParen); 1 <= j < |t| - k - 1 && n == k + j + 2
  {
    forall n | 0 <= n <= |t| && IsDetail(t[..n])
      ensures var k := Span(t, IsBlankChar);
              1 <= k < |t| && t[k] == '(' &&
              var j := Span(t[k + 1..], NotCloseParen); 1 <= j < |t| - k - 1 && n == k + j + 2
    {
      DetailAt(t, n);
    }
  }

  /** The outcome group when `rest` starts a line: the word OK or FAILED,
      then the detail that follows it, if any. */
  function SummaryAt(rest: string): (r: Option<string>)
    ensures r.Some? <==> "OK" <= rest || "FAILED" <= rest
    ensures r.Some? ==> r.value <= rest
    ensures r.Some? ==> "OK" <= r.value || "FAILED" <= r.value
    ensures r.Some? ==> r.value == (if "OK" <= rest then "OK" + Detail(rest[2..]) else "FAILED" + Detail(rest[6..]))
  {
    if "OK" <= rest then
      assert rest == "OK" + rest[2..];
      Some("OK" + Detail(rest[2..]))
    else if "FAILED" <= rest then
      assert rest == "FAILED" + rest[6..];
      Some("FAILED" + Detail(rest[6..]))
    else None
  }

  /** "OK" followed by a whole ` +\([^\)]+\)` match, such as
      "OK (12 tests)", is read whole. */
  lemma SummaryWithDetail(d: string)
    requires IsDetail(d)
    ensures SummaryAt("OK" + d) == Some("OK" + d)
  {
    assert d[..|d|] == d;
    SummaryOfOk(d);
  }

  /** The word need not end where "OK" does: when no space follows it, as
      in "OKAY", just "OK" is taken. */
  lemma SummaryWordOnly(t: string)
    requires t == [] || t[0] != ' '
    ensures SummaryAt("OK" + t) == Some("OK")
  {
    SummaryOfOk(t);
    assert Detail(t) == [];
    assert "OK" + [] == "OK";
  }

  /** After "OK" the detail is read as `Detail` finds it. */
  lemma SummaryOfOk(t: string)
    ensures SummaryAt("OK" + t) == Some("OK" + Detail(t))
  {
    assert "OK" <= "OK" + t && ("OK" + t)[2..] == t;
  }

  /** " (12 tests)" is such a match, with its "(" at index 1. */
  lemma TestCountIsDetail()
    ensures IsDetail(" (12 tests)")
  {
    assert DetailSplit(" (12 tests)", 1);
  }

  predicate SummaryStartsAt(txt: string, p: int) {
    LineStart(txt, p) && 0 <= p <= |txt| && SummaryAt(txt[p..]).Some?
  }

  function SummaryIndex(txt: string): nat -> bool {
    p => SummaryStartsAt(txt, p)
  }

  /** `re.search` with `^` in multi-line mode. */
  function Summary(txt: string): (r: Option<string>)
    ensures r.Some? <==> exists p :: SummaryStartsAt(txt, p)
  {
    assert forall p :: SummaryStartsAt(txt, p) ==> 0 <= p <= |txt| && SummaryIndex(txt)(p);
    match FirstFrom(SummaryIndex(txt), 0, |txt| + 1)
    case None => None
    case Some(p) => SummaryAt(txt[p..])
  }

  /** The first line that starts with OK or FAILED gives the outcome. */
  lemma SummaryFirstLine(txt: string, p: int)
    requires SummaryStartsAt(txt, p)
    requires forall q :: 0 <= q < p ==> !SummaryStartsAt(txt, q)
    ensures Summary(txt) == SummaryAt(txt[p..])
  {
    FirstFromLeast(SummaryIndex(txt), 0, |txt| + 1, p);
  }

  // ---------------------------------------------------------------------
  // Skips: r'... SKIP: (.*)$' with re.M, counted per reason

  function SkipIndex(line: string): nat -> bool {
    k => 3 <= k && OccursAt(line, " SKIP: ", k)
  }

  /** `... SKIP: (.*)$` within one line: a " SKIP: " with at least three
      characters before it; the reason is the rest of the line. */
  function SkipReason(line: string): (r: Option<string>)
    ensures r.Some? <==> exists k :: 3 <= k && OccursAt(line, " SKIP: ", k)
    ensures r.Some? ==> |r.value| <= |line| && r.value == line[|line| - |r.value|..]
  {
    assert forall k :: 3 <= k && OccursAt(line, " SKIP: ", k) ==> k <= |line| && SkipIndex(line)(k);
    match FirstFrom(SkipIndex(line), 3, |line| + 1)
    case None => None
    case Some(k) => Some(line[k + 7..])
  }

  /** The leftmost such " SKIP: " starts the reason. */
  lemma SkipReasonLeftmost(line: string, k: int)
    requires 3 <= k && OccursAt(line, " SKIP: ", k)
    requires forall j :: 3 <= j < k ==> !OccursAt(line, " SKIP: ", j)
    ensures SkipReason(line) == Some(line[k + 7..])
  {
    FirstFromLeast(SkipIndex(line), 3, |line| + 1, k);
  }

  /** What `findall` of the skip pattern returns: one reason per matching
      line, in file order. */
  function SkipReasons(lines: seq<string>): seq<string> {
    if lines == [] then []
    else
      (match SkipReason(lines[0])
       case Some(x) => [x]
       case None => []) + SkipReasons(lines[1..])
  }

  predicate HasSkip(line: string) {
    SkipReason(line).Some?
  }

  lemma SkipReasonsCons(l: string, rest: seq<string>)
    ensures SkipReasons([l] + rest) == (if HasSkip(l) then [SkipReason(l).value] else []) + SkipReasons(rest)
  {
    assert ([l] + rest)[1..] == rest;
  }

  /** `findall` yields one reason for each line that has one, in order. */
  lemma {:induction false} SkipReasonsPerLine(lines: seq<string>)
    ensures var ms := Select(lines, HasSkip);
            |SkipReasons(lines)| == |ms| &&
            forall k :: 0 <= k < |ms| ==> SkipReason(ms[k]) == Some(SkipReasons(lines)[k])
    decreases |lines|
  {
    if lines != [] {
      var l, rest := lines[0], lines[1..];
      assert lines == [l] + rest;
      SelectCons(l, rest, HasSkip);
      SkipReasonsCons(l, rest);
      SkipReasonsPerLine(rest);
      if HasSkip(l) {
        ReasonsShift(l, Select(rest, HasSkip), SkipReasons(rest));
      }
    }
  }

  lemma ReasonsShift(l: string, mr: seq<string>, rr: seq<string>)
    requires HasSkip(l) && |rr| == |mr|
    requires forall k :: 0 <= k < |mr| ==> SkipReason(mr[k]) == Some(rr[k])
    ensures var ms, r := [l] + mr, [SkipReason(l).value] + rr;
            forall k :: 0 <= k < |ms| ==> SkipReason(ms[k]) == Some(r[k])
  {
    var ms, r := [l] + mr, [SkipReason(l).value] + rr;
    forall k | 0 <= k < |ms| ensures SkipReason(ms[k]) == Some(r[k]) {
      if k > 0 {
        assert ms[k] == mr[k - 1] && r[k] == rr[k - 1];
      }
    }
  }

  /** Reasons with their counts, kept in Python's string order (the dict of
      counts iterated through `sorted(count.keys())`). */
  type Histogram = seq<(string, nat)>

  function KeysOf(h: Histogram): set<string> {
    set k | 0 <= k < |h| :: h[k].0
  }

  predicate SortedKeys(h: Histogram) {
    forall i, j :: 0 <= i < j < |h| ==> Less(h[i].0, h[j].0)
  }

  function CountIn(h: Histogram, x: string): nat {
    if h == [] then 0 else if h[0].0 == x then h[0].1 else CountIn(h[1..], x)
  }

  function Total(h: Histogram): nat {
    if h == [] then 0 else h[0].1 + Total(h[1..])
  }

  /** `count[x] += 1` (or `= 1` for a new reason). */
  function Bump(h: Histogram, x: string): Histogram {
    if h == [] then [(x, 1)]
    else if h[0].0 == x then [(x, h[0].1 + 1)] + h[1..]
    else if Less(x, h[0].0) then [(x, 1)] + h
    else [h[0]] + Bump(h[1..], x)
  }

  lemma {:induction false} CountAbsent(h: Histogram, x: string)
    requires x !in KeysOf(h)
    ensures CountIn(h, x) == 0
    decreases |h|
  {
    if h != [] {
      assert h[0].0 in KeysOf(h);
      assert KeysOf(h[1..]) <= KeysOf(h) by {
        forall y | y in KeysOf(h[1..]) ensures y in KeysOf(h) {
          var k :| 0 <= k < |h[1..]| && h[1..][k].0 == y;
          assert h[k + 1].0 == y;
        }
      }
      CountAbsent(h[1..], x);
    }
  }

  lemma KeysOfCons(e: (string, nat), h: Histogram)
    ensures KeysOf([e] + h) == {e.0} + KeysOf(h)
  {
    var g := [e] + h;
    forall y | y in KeysOf(g) ensures y in {e.0} + KeysOf(h) {
      var k :| 0 <= k < |g| && g[k].0 == y;
      if k > 0 {
        assert h[k - 1].0 == y;
      }
    }
    forall y | y in KeysOf(h) ensures y in KeysOf(g) {
      var k :| 0 <= k < |h| && h[k].0 == y;
      assert g[k + 1].0 == y;
    }
    assert g[0].0 == e.0;
  }

  lemma SortedTail(h: Histogram)
    requires h != [] && SortedKeys(h)
    ensures SortedKeys(h[1..])
    ensures forall y :: y in KeysOf(h[1..]) ==> Less(h[0].0, y)
  {
    forall y | y in KeysOf(h[1..]) ensures Less(h[0].0, y) {
      var k :| 0 <= k < |h[1..]| && h[1..][k].0 == y;
      assert h[k + 1].0 == y;
    }
  }

  /** A reason smaller than the first key is smaller than every key. */
  lemma BelowAllKeys(h: Histogram, x: string)
    requires h != [] && SortedKeys(h) && Less(x, h[0].0)
    ensures forall y :: y in KeysOf(h) ==> Less(x, y)
  {
    SortedTail(h);
    assert h == [h[0]] + h[1..];
    KeysOfCons(h[0], h[1..]);
    forall y | y in KeysOf(h[1..]) ensures Less(x, y) {
      LessTransitive(x, h[0].0, y);
    }
  }

  /** Prepending a key below every existing key keeps the keys sorted. */
  lemma SortedCons(e: (string, nat), h: Histogram)
    requires SortedKeys(h)
    requires forall y :: y in KeysOf(h) ==> Less(e.0, y)
    ensures SortedKeys([e] + h)
  {
    var r := [e] + h;
    forall i, j | 0 <= i < j < |r| ensures Less(r[i].0, r[j].0) {
      assert r[j].0 == h[j - 1].0;
      if i == 0 {
        assert r[j].0 in KeysOf(h);
      } else {
        assert r[i].0 == h[i - 1].0;
      }
    }
  }

  /** Counting one more occurrence adds `x` to the reasons. */
  lemma {:induction false} BumpKeySet(h: Histogram, x: string)
    ensures KeysOf(Bump(h, x)) == KeysOf(h) + {x}
    decreases |h|
  {
    if h == [] {
      KeysOfCons((x, 1), []);
    } else {
      assert h == [h[0]] + h[1..];
      KeysOfCons(h[0], h[1..]);
      if h[0].0 == x {
        KeysOfCons((x, h[0].1 + 1), h[1..]);
      } else if Less(x, h[0].0) {
        KeysOfCons((x, 1), h);
      } else {
        BumpKeySet(h[1..], x);
        KeysOfCons(h[0], Bump(h[1..], x));
      }
    }
  }

  /** Counting one more occurrence keeps the reasons sorted and adds `x` to
      the reasons. */
  lemma {:induction false} BumpKeys(h: Histogram, x: string)
    requires SortedKeys(h)
    ensures SortedKeys(Bump(h, x))
    ensures KeysOf(Bump(h, x)) == KeysOf(h) + {x}
    decreases |h|
  {
    BumpKeySet(h, x);
    if h != [] {
      SortedTail(h);
      if h[0].0 == x {
        SortedCons((x, h[0].1 + 1), h[1..]);
      } else if Less(x, h[0].0) {
        BelowAllKeys(h, x);
        SortedCons((x, 1), h);
      } else {
        LessTotal(x, h[0].0);
        BumpKeys(h[1..], x);
        SortedCons(h[0], Bump(h[1..], x));
      }
    }
  }

  /** Counting one more occurrence adds one to exactly that reason's count. */
  lemma {:induction false} BumpCount(h: Histogram, x: string, y: string)
    requires SortedKeys(h)
    ensures CountIn(Bump(h, x), y) == CountIn(h, y) + (if y == x then 1 else 0)
    decreases |h|
  {
    if h != [] && h[0].0 != x {
      if Less(x, h[0].0) {
        BelowAllKeys(h, x);
        LessIrreflexive(x);
        CountAbsent(h, x);
      } else {
        SortedTail(h);
        BumpCount(h[1..], x, y);
      }
    }
  }

  lemma {:induction false} BumpTotal(h: Histogram, x: string)
    ensures Total(Bump(h, x)) == Total(h) + 1
    decreases |h|
  {
    if h != [] && h[0].0 != x && !Less(x, h[0].0) {
      BumpTotal(h[1..], x);
    }
  }

  /** The histogram of a list of skip reasons: sorted reasons, each with the
      number of times it occurs, the counts adding up to the list length. */
  function Tally(reasons: seq<string>): (h: Histogram)
    ensures SortedKeys(h)
    ensures KeysOf(h) == set x | x in reasons
    ensures forall x :: CountIn(h, x) == multiset(reasons)[x]
    ensures Total(h) == |reasons|
  {
    if reasons == [] then []
    else
      var init := reasons[..|reasons| - 1];
      var last := reasons[|reasons| - 1];
      var h0 := Tally(init);
      BumpKeys(h0, last);
      BumpTotal(h0, last);
      forall y ensures CountIn(Bump(h0, last), y) == CountIn(h0, y) + (if y == last then 1 else 0) {
        BumpCount(h0, last, y);
      }
      assert reasons == init + [last];
      Bump(h0, last)
  }

  // ---------------------------------------------------------------------
  // ERROR and FAIL lines: r'^ERROR: .*$' and r'^FAIL: .*$' with re.M

  /** The whole lines that start with `prefix`, in file order. */
  function LinesStartingWith(lines: seq<string>, prefix: string): (r: seq<string>)
    ensures IsSubseq(r, lines)
    ensures forall x :: multiset(r)[x] == if prefix <= x then multiset(lines)[x] else 0
  {
    Select(lines, l => prefix <= l)
  }

  // ---------------------------------------------------------------------
  // The report and its rendering

  datatype Report = Report(
    version: char,
    branch: string,
    coverage: Option<string>,
    tests: Option<string>,
    skips: Histogram,
    errors: seq<string>,
    failures: seq<string>)

  /** Everything `parse_result` extracts from one file, before rendering. */
  function ParseReport(fn: string, txt: string, showSkips: bool): (r: Result<Report, Error>)
    ensures r.Success? <==> ParseFileName(fn).Some?
    ensures r.Failure? ==> r.error == FileNameMismatch(fn)
    ensures r.Success? ==> ParseFileName(fn) == Some(FileName(r.value.branch, r.value.version))
    ensures r.Success? ==> r.value.coverage == Coverage(Lines(txt))
    ensures r.Success? ==> r.value.tests == Summary(txt)
    ensures r.Success? && !showSkips ==> r.value.skips == []
    ensures r.Success? && showSkips ==> r.value.skips == Tally(SkipReasons(Lines(txt)))
    ensures r.Success? ==> r.value.errors == LinesStartingWith(Lines(txt), "ERROR: ")
    ensures r.Success? ==> r.value.failures == LinesStartingWith(Lines(txt), "FAIL: ")
  {
    match ParseFileName(fn)
    case None => Failure(FileNameMismatch(fn))
    case Some(name) =>
      var lines := Lines(txt);
      Success(Report(
        name.version,
        name.branch,
        Coverage(lines),
        Summary(txt),
        if showSkips then Tally(SkipReasons(lines)) else [],
        LinesStartingWith(lines, "ERROR: "),
        LinesStartingWith(lines, "FAIL: ")))
  }

  function SkipLine(reason: string, count: nat): string {
    "   skip: " + reason + " (" + NatToString(count) + "x)"
  }

  /** One skip line per histogram entry, in histogram order. */
  function SkipLines(h: Histogram): seq<string> {
    seq(|h|, k requires 0 <= k < |h| => SkipLine(h[k].0, h[k].1))
  }

  function Indent(ls: seq<string>): seq<string> {
    seq(|ls|, k requires 0 <= k < |ls| => "   " + ls[k])
  }

  /** The lines `parse_result` writes, in its fixed order: one per field
      present, one per histogram entry and one per ERROR and FAIL line. */
  function ReportLines(rep: Report): (r: seq<string>)
    ensures |r| == 2 + (if rep.coverage.Some? then 1 else 0) + (if rep.tests.Some? then 1 else 0)
                     + |rep.skips| + |rep.errors| + |rep.failures|
    ensures r[0] == "python: " + [rep.version] && r[1] == "branch: " + rep.branch
  {
    ["python: " + [rep.version], "branch: " + rep.branch]
    + (match rep.coverage case Some(c) => ["coverage: " + c] case None => [])
    + (match rep.tests case Some(t) => ["tests: " + t] case None => [])
    + SkipLines(rep.skips)
    + Indent(rep.errors)
    + Indent(rep.failures)
  }

  /** `parse_result`'s text: every line followed by a newline, starting
      with the python and branch lines. */
  function Render(rep: Report): (r: string)
    ensures "python: " + [rep.version] + "\nbranch: " + rep.branch + "\n" <= r
    ensures r != [] && r[|r| - 1] == '\n'
  {
    UnlinesHeader(rep);
    UnlinesEnd(ReportLines(rep));
    Unlines(ReportLines(rep))
  }

  /** `parse_result(fn, show_skips)` applied to the contents `txt` of `fn`. */
  function ParseResult(fn: string, txt: string, showSkips: bool): (r: Result<string, Error>)
    ensures r.Success? <==> ParseFileName(fn).Some?
    ensures r.Success? ==>
              var name := ParseFileName(fn).value;
              "python: " + [name.version] + "\nbranch: " + name.branch + "\n" <= r.value
  {
    match ParseReport(fn, txt, showSkips)
    case Failure(e) => Failure(e)
    case Success(rep) =>
      Success(Render(rep))
  }

  lemma UnlinesCons(l: string, rest: seq<string>)
    ensures Unlines([l] + rest) == l + "\n" + Unlines(rest)
  {
    assert ([l] + rest)[1..] == rest;
  }

  lemma UnlinesHeader(rep: Report)
    ensures "python: " + [rep.version] + "\nbranch: " + rep.branch + "\n" <= Unlines(ReportLines(rep))
  {
    var l0 := "python: " + [rep.version];
    var l1 := "branch: " + rep.branch;
    var rest := ReportLines(rep)[2..];
    assert ReportLines(rep) == [l0] + ([l1] + rest);
    UnlinesCons(l0, [l1] + rest);
    UnlinesCons(l1, rest);
    assert Unlines(ReportLines(rep)) == (l0 + "\n" + l1 + "\n") + Unlines(rest);
  }
}
