/** Reading a rendered report back into its fields. It is the inverse of
    the renderer in `Report` and shows that the rendering loses nothing:
    every line's prefix says which field it belongs to. */
module Readback {
  import opened Wrappers
  import opened Text
  import opened Seqs
  import opened Report

  /** A report whose fields the renderer writes unambiguously: ERROR and
      FAIL lines carry their prefixes, and no field spans lines. */
  predicate WellFormed(rep: Report) {
    && (forall k :: 0 <= k < |rep.errors| ==> "ERROR: " <= rep.errors[k] && '\n' !in rep.errors[k])
    && (forall k :: 0 <= k < |rep.failures| ==> "FAIL: " <= rep.failures[k] && '\n' !in rep.failures[k])
    && (forall k :: 0 <= k < |rep.skips| ==> '\n' !in rep.skips[k].0)
    && '\n' !in rep.branch && rep.version != '\n'
    && (rep.coverage.Some? ==> '\n' !in rep.coverage.value)
    && (rep.tests.Some? ==> '\n' !in rep.tests.value)
  }

  /** Length of the longest run of decimal digits at the end of `s`. */
  function DigitSuffix(s: string): (n: nat)
    ensures n <= |s|
    ensures forall k :: |s| - n <= k < |s| ==> IsDigit(s[k])
    ensures n < |s| ==> !IsDigit(s[|s| - n - 1])
  {
    if s == [] || !IsDigit(s[|s| - 1]) then 0 else 1 + DigitSuffix(s[..|s| - 1])
  }

  /** A `   skip: reason (Nx)` line read back into its reason and count. */
  function ReadSkip(l: string): Option<(string, nat)> {
    if |l| >= 11 && "   skip: " <= l && l[|l| - 2..] == "x)" then ReadCount(l[9..|l| - 2])
    else None
  }

  /** `reason (N` split at the trailing digit run. */
  function ReadCount(body: string): Option<(string, nat)> {
    var n := DigitSuffix(body);
    if n + 2 <= |body| && body[|body| - n - 2..|body| - n] == " (" then
      Some((body[..|body| - n - 2], DecimalValue(body[|body| - n..])))
    else
      None
  }

  function ReadSkips(ls: seq<string>): Option<Histogram> {
    if ls == [] then Some([])
    else
      match ReadSkip(ls[0])
      case None => None
      case Some(e) =>
        match ReadSkips(ls[1..])
        case None => None
        case Some(rest) => Some([e] + rest)
  }

  /** Drops the three-blank indentation of every line. */
  function Unindent(ls: seq<string>): seq<string> {
    seq(|ls|, k requires 0 <= k < |ls| => if |ls[k]| >= 3 then ls[k][3..] else ls[k])
  }

  predicate IsSkipLine(l: string) {
    "   skip: " <= l
  }

  predicate IsErrorLine(l: string) {
    "   ERROR: " <= l
  }

  predicate IsFailLine(l: string) {
    "   FAIL: " <= l
  }

  /** An optional line introduced by `prefix`: its value and the lines
      after it. */
  function ReadOptional(ls: seq<string>, prefix: string): (Option<string>, seq<string>) {
    if ls != [] && prefix <= ls[0] then (Some(ls[0][|prefix|..]), ls[1..]) else (None, ls)
  }

  /** The skip lines, then the ERROR lines, then nothing but FAIL lines. */
  function ReadTail(ls: seq<string>): Option<(Histogram, seq<string>, seq<string>)> {
    var ns := Span(ls, IsSkipLine);
    var ne := Span(ls[ns..], IsErrorLine);
    var fails := ls[ns + ne..];
    if !(forall k :: 0 <= k < |fails| ==> IsFailLine(fails[k])) then None
    else
      match ReadSkips(ls[..ns])
      case None => None
      case Some(skips) => Some((skips, Unindent(ls[ns..ns + ne]), Unindent(fails)))
  }

  /** The report whose lines are `ls`, if there is one. */
  function ReadLines(ls: seq<string>): Option<Report> {
    if |ls| < 2 || |ls[0]| != 9 || !("python: " <= ls[0]) || !("branch: " <= ls[1]) then None
    else
      var (coverage, r1) := ReadOptional(ls[2..], "coverage: ");
      var (tests, r2) := ReadOptional(r1, "tests: ");
      match ReadTail(r2)
      case None => None
      case Some((skips, errors, failures)) =>
        Some(Report(ls[0][8], ls[1][8..], coverage, tests, skips, errors, failures))
  }

  /** The report a rendered text shows, if there is one. */
  function ReadRendered(s: string): Option<Report> {
    var ls := Lines(s);
    if ls[|ls| - 1] != "" then None else ReadLines(ls[..|ls| - 1])
  }

  // ---------------------------------------------------------------------
  // Round trip

  /** The digits after " (" are exactly the trailing digit run. */
  lemma {:induction false} DigitSuffixAfterParen(a: string, d: string)
    requires forall k :: 0 <= k < |d| ==> IsDigit(d[k])
    ensures DigitSuffix(a + " (" + d) == |d|
    decreases |d|
  {
    var body := a + " (" + d;
    if d == [] {
      assert body[|body| - 1] == '(';
    } else {
      var init := d[..|d| - 1];
      assert body[|body| - 1] == d[|d| - 1];
      assert body[..|body| - 1] == a + " (" + init;
      DigitSuffixAfterParen(a, init);
    }
  }

  lemma ReadCountBack(reason: string, d: string)
    requires forall k :: 0 <= k < |d| ==> IsDigit(d[k])
    ensures ReadCount(reason + " (" + d) == Some((reason, DecimalValue(d)))
  {
    var body := reason + " (" + d;
    DigitSuffixAfterParen(reason, d);
    assert body[|body| - |d| - 2..|body| - |d|] == " (";
    assert body[..|body| - |d| - 2] == reason;
    assert body[|body| - |d|..] == d;
  }

  lemma SkipLineReadsBack(reason: string, count: nat)
    ensures ReadSkip(SkipLine(reason, count)) == Some((reason, count))
  {
    var d := NatToString(count);
    var l := SkipLine(reason, count);
    var body := reason + " (" + d;
    assert l == "   skip: " + body + "x)";
    assert l[9..|l| - 2] == body && l[|l| - 2..] == "x)";
    ReadCountBack(reason, d);
    NatToStringValue(count);
  }

  lemma {:induction false} SkipLinesReadBack(h: Histogram)
    ensures ReadSkips(SkipLines(h)) == Some(h)
    decreases |h|
  {
    if h != [] {
      SkipLineReadsBack(h[0].0, h[0].1);
      assert SkipLines(h)[1..] == SkipLines(h[1..]);
      SkipLinesReadBack(h[1..]);
      assert h == [h[0]] + h[1..];
    }
  }

  lemma UnindentIndent(ls: seq<string>)
    ensures Unindent(Indent(ls)) == ls
  {
  }

  /** The optional coverage and tests lines, then the skip, ERROR and FAIL
      lines. */
  function BodyLines(rep: Report): seq<string> {
    OptionalLine("coverage: ", rep.coverage) + OptionalLine("tests: ", rep.tests)
    + SkipLines(rep.skips) + Indent(rep.errors) + Indent(rep.failures)
  }

  /** The line written for an optional value: none when it is absent. */
  function OptionalLine(prefix: string, v: Option<string>): seq<string> {
    match v case Some(x) => [prefix + x] case None => []
  }

  lemma ReportLinesSplit(rep: Report)
    ensures ReportLines(rep) == ["python: " + [rep.version], "branch: " + rep.branch] + BodyLines(rep)
  {
  }

  /** The leading run of `a + b` is `a` when every line of `a` and no
      first line of `b` passes. */
  lemma SpanOfConcat(a: seq<string>, b: seq<string>, ok: string -> bool)
    requires forall k :: 0 <= k < |a| ==> ok(a[k])
    requires b != [] ==> !ok(b[0])
    ensures Span(a + b, ok) == |a|
  {
    if b != [] {
      SpanAt(a + b, ok, |a|);
    } else {
      assert a + b == a;
    }
  }

  lemma ReadOptionalPresent(prefix: string, v: string, rest: seq<string>)
    ensures ReadOptional([prefix + v] + rest, prefix) == (Some(v), rest)
  {
    assert ([prefix + v] + rest)[1..] == rest;
  }

  lemma SkipLinesClassified(h: Histogram)
    ensures forall k :: 0 <= k < |SkipLines(h)| ==> IsSkipLine(SkipLines(h)[k])
  {
  }

  lemma ErrorLinesClassified(errors: seq<string>)
    requires forall k :: 0 <= k < |errors| ==> "ERROR: " <= errors[k]
    ensures forall k :: 0 <= k < |errors| ==> IsErrorLine(Indent(errors)[k]) && !IsSkipLine(Indent(errors)[k])
  {
    var E := Indent(errors);
    forall k | 0 <= k < |E| ensures IsErrorLine(E[k]) && !IsSkipLine(E[k]) {
      assert E[k] == "   " + errors[k];
      assert E[k][..10] == "   " + errors[k][..7];
      assert E[k][3] == 'E';
    }
  }

  lemma FailLinesClassified(failures: seq<string>)
    requires forall k :: 0 <= k < |failures| ==> "FAIL: " <= failures[k]
    ensures forall k :: 0 <= k < |failures| ==>
              IsFailLine(Indent(failures)[k]) && !IsSkipLine(Indent(failures)[k]) && !IsErrorLine(Indent(failures)[k])
  {
    var F := Indent(failures);
    forall k | 0 <= k < |F| ensures IsFailLine(F[k]) && !IsSkipLine(F[k]) && !IsErrorLine(F[k]) {
      assert F[k] == "   " + failures[k];
      assert F[k][..9] == "   " + failures[k][..6];
      assert F[k][3] == 'F';
    }
  }

  /** Skip, ERROR and FAIL lines of a well-formed report read back. */
  lemma ReadTailLines(rep: Report)
    requires WellFormed(rep)
    ensures ReadTail(SkipLines(rep.skips) + Indent(rep.errors) + Indent(rep.failures)) ==
              Some((rep.skips, rep.errors, rep.failures))
  {
    var S, E, F := SkipLines(rep.skips), Indent(rep.errors), Indent(rep.failures);
    var tail := S + E + F;
    SkipLinesClassified(rep.skips);
    ErrorLinesClassified(rep.errors);
    FailLinesClassified(rep.failures);
    assert tail == S + (E + F);
    SpanOfConcat(S, E + F, IsSkipLine);
    assert tail[|S|..] == E + F;
    SpanOfConcat(E, F, IsErrorLine);
    assert tail[|S|..][|E|..] == F;
    assert tail[|S| + |E|..] == F;
    assert tail[..|S|] == S;
    assert tail[|S|..|S| + |E|] == E;
    SkipLinesReadBack(rep.skips);
    UnindentIndent(rep.errors);
    UnindentIndent(rep.failures);
  }

  /** The lines after the optional ones all start with a blank. */
  lemma TailStartsBlank(rep: Report)
    ensures var tail := SkipLines(rep.skips) + Indent(rep.errors) + Indent(rep.failures);
            tail != [] ==> tail[0] != [] && tail[0][0] == ' '
  {
    var S, E, F := SkipLines(rep.skips), Indent(rep.errors), Indent(rep.failures);
    if S != [] {
      assert (S + E + F)[0] == S[0];
    } else if E != [] {
      assert (S + E + F)[0] == E[0];
    } else if F != [] {
      assert (S + E + F)[0] == F[0];
    }
  }

  function TailLines(rep: Report): seq<string> {
    SkipLines(rep.skips) + Indent(rep.errors) + Indent(rep.failures)
  }

  /** An optional line reads back to its value, provided the next line
      does not start like it. */
  lemma ReadOptionalLine(prefix: string, v: Option<string>, rest: seq<string>)
    requires prefix != []
    requires rest != [] ==> rest[0] != [] && rest[0][0] != prefix[0]
    ensures ReadOptional(OptionalLine(prefix, v) + rest, prefix) == (v, rest)
  {
    match v {
      case Some(x) =>
        ReadOptionalPresent(prefix, x, rest);
      case None =>
        assert OptionalLine(prefix, v) + rest == rest;
        if rest != [] {
          assert !(prefix <= rest[0]);
        }
    }
  }

  /** The optional coverage and tests lines read back, leaving the rest. */
  lemma ReadOptionalLines(rep: Report)
    ensures var (c, r1) := ReadOptional(BodyLines(rep), "coverage: ");
            var (t, r2) := ReadOptional(r1, "tests: ");
            c == rep.coverage && t == rep.tests && r2 == TailLines(rep)
  {
    var tail := TailLines(rep);
    TailStartsBlank(rep);
    var T := OptionalLine("tests: ", rep.tests);
    assert BodyLines(rep) == OptionalLine("coverage: ", rep.coverage) + (T + tail);
    assert T + tail != [] ==> (T + tail)[0] != [] && (T + tail)[0][0] != 'c' by {
      if T != [] {
        assert (T + tail)[0] == T[0];
      } else if tail != [] {
        assert (T + tail)[0] == tail[0];
      }
    }
    ReadOptionalLine("coverage: ", rep.coverage, T + tail);
    ReadOptionalLine("tests: ", rep.tests, tail);
  }

  /** The rendered lines of a well-formed report read back into it. */
  lemma ReadReportLines(rep: Report)
    requires WellFormed(rep)
    ensures ReadLines(ReportLines(rep)) == Some(rep)
  {
    var ls := ReportLines(rep);
    ReportLinesSplit(rep);
    assert ls[2..] == BodyLines(rep);
    assert ls[0][8] == rep.version && ls[1][8..] == rep.branch;
    ReadOptionalLines(rep);
    ReadTailLines(rep);
  }

  /** No line a well-formed report renders to contains a newline. */
  lemma ReportLinesSingle(rep: Report)
    requires WellFormed(rep)
    ensures SingleLines(ReportLines(rep))
  {
    ReportLinesSplit(rep);
    var H := ["python: " + [rep.version], "branch: " + rep.branch];
    var C, T := OptionalLine("coverage: ", rep.coverage), OptionalLine("tests: ", rep.tests);
    var S, E, F := SkipLines(rep.skips), Indent(rep.errors), Indent(rep.failures);
    assert SingleLines(H) by {
      assert '\n' !in [rep.version];
    }
    OptionalLineSingle("coverage: ", rep.coverage);
    OptionalLineSingle("tests: ", rep.tests);
    SkipLinesSingle(rep.skips);
    IndentSingle(rep.errors);
    IndentSingle(rep.failures);
    ConcatSingle(C, T);
    ConcatSingle(C + T, S);
    ConcatSingle(C + T + S, E);
    ConcatSingle(C + T + S + E, F);
    assert BodyLines(rep) == C + T + S + E + F;
    ConcatSingle(H, BodyLines(rep));
  }

  predicate SingleLines(ls: seq<string>) {
    forall k :: 0 <= k < |ls| ==> '\n' !in ls[k]
  }

  lemma ConcatSingle(a: seq<string>, b: seq<string>)
    requires SingleLines(a) && SingleLines(b)
    ensures SingleLines(a + b)
  {
    forall k | 0 <= k < |a + b| ensures '\n' !in (a + b)[k] {
      if k < |a| {
        assert (a + b)[k] == a[k];
      } else {
        assert (a + b)[k] == b[k - |a|];
      }
    }
  }

  lemma OptionalLineSingle(prefix: string, v: Option<string>)
    requires '\n' !in prefix && (v.Some? ==> '\n' !in v.value)
    ensures SingleLines(OptionalLine(prefix, v))
  {
  }

  lemma SkipLinesSingle(h: Histogram)
    requires forall k :: 0 <= k < |h| ==> '\n' !in h[k].0
    ensures SingleLines(SkipLines(h))
  {
    var S := SkipLines(h);
    forall k | 0 <= k < |S| ensures '\n' !in S[k] {
      var d := NatToString(h[k].1);
      assert forall j :: 0 <= j < |d| ==> d[j] != '\n';
      assert S[k] == "   skip: " + h[k].0 + " (" + d + "x)";
    }
  }

  lemma IndentSingle(ls: seq<string>)
    requires SingleLines(ls)
    ensures SingleLines(Indent(ls))
  {
    forall k | 0 <= k < |ls| ensures '\n' !in Indent(ls)[k] {
      assert Indent(ls)[k] == "   " + ls[k];
    }
  }

  /** A well-formed report reads back from its rendered text. */
  lemma ReadRender(rep: Report)
    requires WellFormed(rep)
    ensures ReadRendered(Render(rep)) == Some(rep)
  {
    ReportLinesSingle(rep);
    UnlinesSplit(ReportLines(rep));
    ReadReportLines(rep);
    var ls := Lines(Render(rep));
    assert ls[..|ls| - 1] == ReportLines(rep);
  }

  /** Distinct well-formed reports render to distinct texts. */
  lemma RenderInjective(a: Report, b: Report)
    requires WellFormed(a) && WellFormed(b)
    requires Render(a) == Render(b)
    ensures a == b
  {
    ReadRender(a);
    ReadRender(b);
  }

  // ---------------------------------------------------------------------
  // What the parser produces

  /** A suffix of a line holds no newline either. */
  lemma SuffixSingle(l: string, v: string)
    requires '\n' !in l && |v| <= |l| && v == l[|l| - |v|..]
    ensures '\n' !in v
  {
    forall k | 0 <= k < |v| ensures v[k] != '\n' {
      assert v[k] == l[|l| - |v| + k];
    }
  }

  lemma SelectedLinesSingle(lines: seq<string>, prefix: string)
    requires forall k :: 0 <= k < |lines| ==> '\n' !in lines[k]
    ensures var r := LinesStartingWith(lines, prefix);
            forall k :: 0 <= k < |r| ==> prefix <= r[k] && '\n' !in r[k]
  {
    var r := LinesStartingWith(lines, prefix);
    forall k | 0 <= k < |r| ensures prefix <= r[k] && '\n' !in r[k] {
      assert r[k] in multiset(r);
      assert r[k] in multiset(lines);
    }
  }

  lemma {:induction false} SkipReasonsSingle(lines: seq<string>)
    requires forall k :: 0 <= k < |lines| ==> '\n' !in lines[k]
    ensures forall x :: x in SkipReasons(lines) ==> '\n' !in x
    decreases |lines|
  {
    if lines != [] {
      SkipReasonsSingle(lines[1..]);
      match SkipReason(lines[0]) {
        case Some(x) => SuffixSingle(lines[0], x);
        case None =>
      }
    }
  }

  lemma CoverageSingle(lines: seq<string>)
    requires forall k :: 0 <= k < |lines| ==> '\n' !in lines[k]
    ensures Coverage(lines).Some? ==> '\n' !in Coverage(lines).value
  {
    match FirstFrom(CoverageIndex(lines), 0, |lines|) {
      case None =>
      case Some(i) =>
        if CoverageAt(lines, i).Some? {
          SuffixSingle(lines[i + 1], CoverageAt(lines, i).value);
        }
    }
  }

  /** Everything `parse_result` extracts renders unambiguously, as long as
      the test summary it found fits on one line (its parenthesised detail
      may span lines). */
  lemma ParsedReportWellFormed(fn: string, txt: string, showSkips: bool)
    requires ParseReport(fn, txt, showSkips).Success?
    requires Summary(txt).Some? ==> '\n' !in Summary(txt).value
    ensures WellFormed(ParseReport(fn, txt, showSkips).value)
  {
    var rep := ParseReport(fn, txt, showSkips).value;
    var lines := Lines(txt);
    SelectedLinesSingle(lines, "ERROR: ");
    SelectedLinesSingle(lines, "FAIL: ");
    CoverageSingle(lines);
    SkipReasonsSingle(lines);
    forall k | 0 <= k < |rep.skips| ensures '\n' !in rep.skips[k].0 {
      assert rep.skips[k].0 in KeysOf(rep.skips);
    }
  }

  /** `parse_result`'s text splits into the lines of the parsed report, in
      their fixed order (python, branch, coverage, tests, skips, ERROR and
      FAIL lines), and reads back to that report. */
  lemma ParseResultReadsBack(fn: string, txt: string, showSkips: bool)
    requires ParseResult(fn, txt, showSkips).Success?
    requires Summary(txt).Some? ==> '\n' !in Summary(txt).value
    ensures Lines(ParseResult(fn, txt, showSkips).value) == ReportLines(ParseReport(fn, txt, showSkips).value) + [""]
    ensures ReadRendered(ParseResult(fn, txt, showSkips).value) == Some(ParseReport(fn, txt, showSkips).value)
  {
    var rep := ParseReport(fn, txt, showSkips).value;
    assert ParseResult(fn, txt, showSkips).value == Render(rep);
    ParsedReportWellFormed(fn, txt, showSkips);
    ReportLinesSingle(rep);
    UnlinesSplit(ReportLines(rep));
    ReadRender(rep);
  }
}
