/** Python `str` behaviour the commander relies on: whitespace, `split()`,
    `strip()`, `lower()`, splitting on newlines, substring search, `%i`
    formatting and string ordering. */
module Text {
  import opened Seqs

  /** Python's `str.isspace()`; `str.split()`, `str.strip()` and the regex
      class `\s` all use this set. */
  predicate IsSpace(c: char) {
    ('\t' <= c <= '\r') || ('\U{1C}' <= c <= '\U{1F}') || c == ' '
    || c == '\U{85}' || c == '\U{A0}' || c == '\U{1680}'
    || ('\U{2000}' <= c <= '\U{200A}') || c == '\U{2028}' || c == '\U{2029}'
    || c == '\U{202F}' || c == '\U{205F}' || c == '\U{3000}'
  }

  predicate NoSpace(w: string) {
    forall k :: 0 <= k < |w| ==> !IsSpace(w[k])
  }

  predicate AllSpace(w: string) {
    forall k :: 0 <= k < |w| ==> IsSpace(w[k])
  }

  /** Python truthiness of a string. */
  predicate Truthy(s: string) {
    s != []
  }

  // ---------------------------------------------------------------------
  // Substring search (a literal regex pattern found by `findall`)

  predicate OccursAt(s: string, p: string, i: int) {
    0 <= i && i + |p| <= |s| && s[i..i + |p|] == p
  }

  /** `p` occurs somewhere in `s`. */
  predicate Contains(s: string, p: string)
    decreases |s|
  {
    p <= s || (s != [] && Contains(s[1..], p))
  }

  /** Whatever a prefix of `s` contains, `s` contains. */
  lemma {:induction false} ContainsOfPrefix(s: string, k: nat, p: string)
    requires k <= |s| && Contains(s[..k], p)
    ensures Contains(s, p)
    decreases k
  {
    if p <= s[..k] {
      assert p <= s;
    } else {
      assert s[..k][1..] == s[1..][..k - 1];
      ContainsOfPrefix(s[1..], k - 1, p);
    }
  }

  lemma {:induction false} ContainsIffOccurs(s: string, p: string)
    ensures Contains(s, p) <==> exists i :: OccursAt(s, p, i)
    decreases |s|
  {
    if p <= s {
      assert OccursAt(s, p, 0);
    } else if s != [] {
      ContainsIffOccurs(s[1..], p);
      forall i | OccursAt(s[1..], p, i) ensures OccursAt(s, p, i + 1) {
        assert s[1..][i..i + |p|] == s[i + 1..i + 1 + |p|];
      }
      forall j | OccursAt(s, p, j) ensures OccursAt(s[1..], p, j - 1) {
        assert j != 0;
        assert s[1..][j - 1..j - 1 + |p|] == s[j..j + |p|];
      }
    }
  }

  /** Every character of a pattern that occurs in `s` is in `s`. */
  lemma ContainsHasChar(s: string, p: string, k: nat)
    requires k < |p|
    ensures Contains(s, p) ==> p[k] in s
  {
    ContainsIffOccurs(s, p);
    forall i | OccursAt(s, p, i) ensures p[k] in s {
      assert s[i..i + |p|][k] == s[i + k];
    }
  }

  /** A pattern occurs in any text that ends with it. */
  lemma ContainsAtEnd(a: string, p: string)
    ensures Contains(a + p, p)
  {
    ContainsIffOccurs(a + p, p);
    assert (a + p)[|a|..|a| + |p|] == p;
    assert OccursAt(a + p, p, |a|);
  }

  // ---------------------------------------------------------------------
  // str.lower()

  predicate IsUpper(c: char) {
    ('A' <= c <= 'Z') || ('\U{C0}' <= c <= '\U{DE}' && c != '\U{D7}')
  }

  function LowerChar(c: char): char {
    if IsUpper(c) then (c as int + 32) as char else c
  }

  /** Python's `str.lower()` on the ASCII and Latin-1 letters. */
  function Lower(s: string): (r: string)
    ensures |r| == |s|
    ensures forall k :: 0 <= k < |r| ==> !IsUpper(r[k])
    ensures forall k :: 0 <= k < |r| && !IsUpper(s[k]) ==> r[k] == s[k]
    ensures forall k :: 0 <= k < |s| && IsUpper(s[k]) ==> r[k] as int == s[k] as int + 32
  {
    seq(|s|, k requires 0 <= k < |s| => LowerChar(s[k]))
  }

  // ---------------------------------------------------------------------
  // str.split() with no separator

  predicate IsWordChar(c: char) {
    !IsSpace(c)
  }

  /** Python's `str.split()`: the maximal runs of non-whitespace characters. */
  function Words(s: string): (r: seq<string>)
    ensures forall k :: 0 <= k < |r| ==> r[k] != [] && NoSpace(r[k])
    decreases |s|
  {
    if s == [] then []
    else if IsSpace(s[0]) then Words(s[1..])
    else
      var n := Span(s, IsWordChar);
      [s[..n]] + Words(s[n..])
  }

  /** `re.split(r'\s', s)`: the pieces between single whitespace
      characters, empty pieces included. */
  function SpaceSplit(s: string): (r: seq<string>)
    ensures |r| >= 1
    ensures forall k :: 0 <= k < |r| ==> NoSpace(r[k])
    decreases |s|
  {
    var n := Span(s, IsWordChar);
    if n == |s| then [s] else [s[..n]] + SpaceSplit(s[n + 1..])
  }

  predicate NonEmpty(w: string) {
    w != []
  }

  /** `str.split()` is `re.split(r'\s', s)` with the empty pieces dropped:
      the words are the text's whitespace-separated pieces, in order. */
  lemma {:induction false} WordsArePieces(s: string)
    ensures Words(s) == Select(SpaceSplit(s), NonEmpty)
    decreases |s|
  {
    var n := Span(s, IsWordChar);
    if n == |s| {
      WholeWord(s);
    } else {
      var tail := s[n + 1..];
      assert SpaceSplit(s) == [s[..n]] + SpaceSplit(tail);
      WordsArePieces(tail);
      SelectCons(s[..n], SpaceSplit(tail), NonEmpty);
      WordThenSpace(s, n);
    }
  }

  /** A text without whitespace is one piece, and one word unless empty. */
  lemma WholeWord(s: string)
    requires Span(s, IsWordChar) == |s|
    ensures SpaceSplit(s) == [s]
    ensures Words(s) == Select([s], NonEmpty)
  {
    SelectCons(s, [], NonEmpty);
    assert [s] + [] == [s];
    if s != [] {
      assert Words(s) == [s[..|s|]] + Words(s[|s|..]);
      assert s[..|s|] == s;
      assert s[|s|..] == [];
    }
  }

  /** A word (possibly empty) ending at the first whitespace character. */
  lemma WordThenSpace(s: string, n: nat)
    requires n < |s| && n == Span(s, IsWordChar)
    ensures Words(s) == (if n == 0 then [] else [s[..n]]) + Words(s[n + 1..])
  {
    assert IsSpace(s[n]);
    if n != 0 {
      var rest := s[n..];
      assert rest[0] == s[n];
      assert rest[1..] == s[n + 1..];
      assert Words(rest) == Words(rest[1..]);
    }
  }

  // ---------------------------------------------------------------------
  // Joining and splitting on a separator

  /** Python's `sep.join(parts)`. */
  function Join(parts: seq<string>, sep: string): string {
    if |parts| == 0 then ""
    else if |parts| == 1 then parts[0]
    else parts[0] + sep + Join(parts[1..], sep)
  }

  lemma JoinCons(w: string, rest: seq<string>, sep: string)
    requires rest != []
    ensures Join([w] + rest, sep) == w + sep + Join(rest, sep)
  {
    assert ([w] + rest)[1..] == rest;
  }

  /** `''.join`: one more piece in front. */
  lemma JoinConcatCons(w: string, rest: seq<string>)
    ensures Join([w] + rest, "") == w + Join(rest, "")
  {
    if rest == [] {
      assert [w] + rest == [w];
    } else {
      JoinCons(w, rest, "");
    }
  }

  /** `str.split()` undoes joining words with single spaces. */
  lemma {:induction false} WordsOfJoin(ws: seq<string>)
    requires forall k :: 0 <= k < |ws| ==> ws[k] != [] && NoSpace(ws[k])
    ensures Words(Join(ws, " ")) == ws
    decreases |ws|
  {
    if ws != [] {
      var w := ws[0];
      var s := Join(ws, " ");
      var n := Span(s, IsWordChar);
      if |ws| == 1 {
        assert s == w;
        assert n == |w|;
        assert s[..n] == w && s[n..] == [];
        assert Words(s) == [s[..n]] + Words(s[n..]);
      } else {
        var rest := Join(ws[1..], " ");
        JoinCons(w, ws[1..], " ");
        assert ws == [w] + ws[1..];
        assert s == w + " " + rest;
        assert s[|w|] == ' ';
        assert n == |w|;
        assert s[..n] == w;
        assert s[n..] == " " + rest;
        assert (" " + rest)[1..] == rest;
        assert Words(s) == [s[..n]] + Words(s[n..]);
        WordsOfJoin(ws[1..]);
      }
    }
  }

  /** Python's `str.split('\n')`: the pieces between newline characters. */
  function Lines(s: string): (r: seq<string>)
    ensures |r| >= 1
    ensures forall k :: 0 <= k < |r| ==> '\n' !in r[k]
    ensures Join(r, "\n") == s
    decreases |s|
  {
    var n := Span(s, c => c != '\n');
    if n == |s| then [s]
    else
      var rest := Lines(s[n + 1..]);
      JoinCons(s[..n], rest, "\n");
      assert s == s[..n] + "\n" + s[n + 1..];
      [s[..n]] + rest
  }

  /** Splitting on newlines undoes joining newline-free lines with newlines. */
  lemma {:induction false} LinesOfJoin(ls: seq<string>)
    requires |ls| >= 1
    requires forall k :: 0 <= k < |ls| ==> '\n' !in ls[k]
    ensures Lines(Join(ls, "\n")) == ls
    decreases |ls|
  {
    var s := Join(ls, "\n");
    var n := Span(s, c => c != '\n');
    if |ls| == 1 {
      assert s == ls[0];
      assert forall k | 0 <= k < |s| :: s[k] != '\n';
    } else {
      var w := ls[0];
      JoinCons(w, ls[1..], "\n");
      assert ls == [w] + ls[1..];
      assert s[|w|] == '\n';
      assert forall k | 0 <= k < |w| :: s[k] == w[k] && w[k] != '\n';
      assert n == |w|;
      assert s[n + 1..] == Join(ls[1..], "\n");
      assert Lines(s) == [s[..n]] + Lines(s[n + 1..]);
      assert s[..n] == w;
      LinesOfJoin(ls[1..]);
    }
  }

  /** Lines each terminated by a newline, as the report renderer writes them. */
  function Unlines(ls: seq<string>): string {
    if ls == [] then "" else ls[0] + "\n" + Unlines(ls[1..])
  }

  lemma {:induction false} UnlinesIsJoin(ls: seq<string>)
    ensures Unlines(ls) == Join(ls + [""], "\n")
    decreases |ls|
  {
    if ls != [] {
      UnlinesIsJoin(ls[1..]);
      assert ls + [""] == [ls[0]] + (ls[1..] + [""]);
      JoinCons(ls[0], ls[1..] + [""], "\n");
    }
  }

  /** A non-empty `Unlines` ends with its last line and a newline. */
  lemma {:induction false} UnlinesEnd(ls: seq<string>)
    ensures ls == [] ==> Unlines(ls) == ""
    ensures ls != [] ==> |Unlines(ls)| >= |ls[|ls| - 1]| + 1 &&
                         Unlines(ls)[|Unlines(ls)| - |ls[|ls| - 1]| - 1..] == ls[|ls| - 1] + "\n"
    decreases |ls|
  {
    if |ls| > 1 {
      UnlinesEnd(ls[1..]);
    }
  }

  /** `Unlines` ends with the last character of its last line and a
      newline. */
  lemma {:induction false} UnlinesLastTwo(ls: seq<string>)
    requires ls != [] && ls[|ls| - 1] != []
    ensures var u := Unlines(ls); var last := ls[|ls| - 1];
            |u| >= 2 && u[|u| - 2..] == [last[|last| - 1], '\n']
  {
    UnlinesEnd(ls);
    var u := Unlines(ls);
    var last := ls[|ls| - 1];
    assert u[|u| - 2..] == u[|u| - |last| - 1..][|last| - 1..];
  }

  /** The last two characters after appending lines to `head`. */
  lemma LastTwoAfterLines(head: string, ls: seq<string>)
    requires |head| >= 2
    requires ls != [] ==> ls[|ls| - 1] != []
    ensures var full := head + Unlines(ls);
            |full| >= 2 &&
            full[|full| - 2..] == if ls == [] then head[|head| - 2..] else [ls[|ls| - 1][|ls[|ls| - 1]| - 1], '\n']
  {
    var full := head + Unlines(ls);
    if ls == [] {
      UnlinesEnd(ls);
      assert full == head;
    } else {
      UnlinesLastTwo(ls);
      assert full[|full| - 2..] == Unlines(ls)[|Unlines(ls)| - 2..];
    }
  }

  /** Newline-terminated lines split back into themselves plus one empty
      piece after the final newline. */
  lemma UnlinesSplit(ls: seq<string>)
    requires forall k :: 0 <= k < |ls| ==> '\n' !in ls[k]
    ensures Lines(Unlines(ls)) == ls + [""]
  {
    var padded := ls + [""];
    forall k | 0 <= k < |padded| ensures '\n' !in padded[k] {
      if k < |ls| {
        assert padded[k] == ls[k];
      }
    }
    UnlinesIsJoin(ls);
    LinesOfJoin(padded);
  }

  /** A header line followed by one item per line: the layout of both the
      help text and the machine list. */
  function Listing(header: string, items: seq<string>): string {
    header + "\n" + Join(items, "\n")
  }

  lemma ListingLines(header: string, items: seq<string>)
    requires '\n' !in header
    requires forall k :: 0 <= k < |items| ==> '\n' !in items[k]
    ensures Lines(Listing(header, items)) == [header] + (if items == [] then [""] else items)
  {
    var body := if items == [] then [""] else items;
    JoinCons(header, body, "\n");
    LinesOfJoin([header] + body);
  }

  // ---------------------------------------------------------------------
  // str.strip()

  /** Drops trailing whitespace. */
  function TrimEnd(t: string): (r: string)
    ensures r <= t && AllSpace(t[|r|..])
    ensures r != [] ==> !IsSpace(r[|r| - 1])
  {
    if t != [] && IsSpace(t[|t| - 1]) then TrimEnd(t[..|t| - 1]) else t
  }

  /** Python's `str.strip()`: the slice of `s` left after removing leading
      and trailing whitespace. */
  function Strip(s: string): (r: string)
    ensures exists a :: 0 <= a <= |s| - |r| && r == s[a..a + |r|]
                         && AllSpace(s[..a]) && AllSpace(s[a + |r|..])
    ensures r != [] ==> !IsSpace(r[0]) && !IsSpace(r[|r| - 1])
  {
    var a := Span(s, IsSpace);
    var r := TrimEnd(s[a..]);
    StripSlice(s, a, r);
    r
  }

  lemma StripSlice(s: string, a: nat, r: string)
    requires a <= |s| && AllSpace(s[..a]) && r <= s[a..] && AllSpace(s[a..][|r|..])
    ensures 0 <= a <= |s| - |r| && r == s[a..a + |r|] && AllSpace(s[a + |r|..])
  {
    assert s[a + |r|..] == s[a..][|r|..];
  }

  /** Trailing whitespace after a non-space character is exactly what
      `TrimEnd` drops. */
  lemma {:induction false} TrimEndAt(u: string, n: nat)
    requires 0 < n <= |u| && !IsSpace(u[n - 1]) && AllSpace(u[n..])
    ensures TrimEnd(u) == u[..n]
    decreases |u|
  {
    if |u| > n {
      assert IsSpace(u[n..][|u| - 1 - n]);
      assert u[..|u| - 1][n..] == u[n..][..|u| - 1 - n];
      TrimEndAt(u[..|u| - 1], n);
      assert u[..|u| - 1][..n] == u[..n];
    }
  }

  /** Stripping removes exactly the whitespace around a word that neither
      starts nor ends with whitespace. */
  lemma StripSurrounded(pre: string, t: string, post: string)
    requires AllSpace(pre) && AllSpace(post)
    requires t != [] && !IsSpace(t[0]) && !IsSpace(t[|t| - 1])
    ensures Strip(pre + t + post) == t
  {
    var s := pre + t + post;
    SpanAt(s, IsSpace, |pre|);
    assert s[|pre|..] == t + post;
    TrimEndAt(t + post, |t|);
    assert (t + post)[..|t|] == t;
  }

  // ---------------------------------------------------------------------
  // '%i' formatting of a count

  predicate IsDigit(c: char) {
    '0' <= c <= '9'
  }

  function DigitChar(d: nat): (c: char)
    requires d < 10
    ensures IsDigit(c) && c as int - '0' as int == d
  {
    ('0' as int + d) as char
  }

  /** The value of a string of decimal digits. */
  function DecimalValue(s: string): nat
    requires forall k :: 0 <= k < |s| ==> IsDigit(s[k])
  {
    if s == [] then 0
    else
      assert IsDigit(s[|s| - 1]);
      DecimalValue(s[..|s| - 1]) * 10 + (s[|s| - 1] as int - '0' as int)
  }

  /** Python's `'%i' % n` for a non-negative `n`. */
  function NatToString(n: nat): (r: string)
    ensures r != [] && forall k :: 0 <= k < |r| ==> IsDigit(r[k])
    ensures r[0] == '0' ==> n == 0
  {
    if n < 10 then [DigitChar(n)] else NatToString(n / 10) + [DigitChar(n % 10)]
  }

  lemma {:induction false} NatToStringValue(n: nat)
    ensures DecimalValue(NatToString(n)) == n
  {
    if n >= 10 {
      var r := NatToString(n);
      assert r[..|r| - 1] == NatToString(n / 10);
      NatToStringValue(n / 10);
    }
  }

  // ---------------------------------------------------------------------
  // Python's ordering of strings (code point by code point)

  predicate Less(a: string, b: string)
    decreases |a|
  {
    if a == [] then b != []
    else if b == [] then false
    else if a[0] != b[0] then a[0] < b[0]
    else Less(a[1..], b[1..])
  }

  lemma {:induction false} LessIrreflexive(a: string)
    ensures !Less(a, a)
    decreases |a|
  {
    if a != [] {
      LessIrreflexive(a[1..]);
    }
  }

  lemma {:induction false} LessTransitive(a: string, b: string, c: string)
    requires Less(a, b) && Less(b, c)
    ensures Less(a, c)
    decreases |a|
  {
    if a != [] && a[0] == b[0] && b[0] == c[0] {
      LessTransitive(a[1..], b[1..], c[1..]);
    }
  }

  lemma {:induction false} LessTotal(a: string, b: string)
    ensures a == b || Less(a, b) || Less(b, a)
    decreases |a|
  {
    if a != [] && b != [] && a[0] == b[0] {
      LessTotal(a[1..], b[1..]);
      if a[1..] == b[1..] {
        assert a == [a[0]] + a[1..] && b == [b[0]] + b[1..];
      }
    }
  }
}
