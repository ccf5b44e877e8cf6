/** Sequence facts shared by the router, the report parser and the
    commander: ordered selection, first-index search and leading runs. */
module Seqs {
  import opened Wrappers

  /** `a` can be obtained from `b` by deleting elements, keeping the order. */
  predicate IsSubseq<T(==)>(a: seq<T>, b: seq<T>)
    decreases |b|
  {
    a == [] ||
    (b != [] && ((a[0] == b[0] && IsSubseq(a[1..], b[1..])) || IsSubseq(a, b[1..])))
  }

  /** No element of `s` occurs twice. */
  predicate Distinct<T(==)>(s: seq<T>) {
    forall i, j :: 0 <= i < j < |s| ==> s[i] != s[j]
  }

  /** The elements of `s` that satisfy `keep`, in their original order
      (Python's list comprehension with a condition). */
  function Select<T(==,!new)>(s: seq<T>, keep: T -> bool): (r: seq<T>)
    ensures IsSubseq(r, s)
    ensures forall x :: multiset(r)[x] == if keep(x) then multiset(s)[x] else 0
    ensures (forall k :: 0 <= k < |s| ==> keep(s[k])) ==> r == s
  {
    if s == [] then []
    else
      var rest := Select(s[1..], keep);
      assert s == [s[0]] + s[1..];
      if keep(s[0]) then
        assert ([s[0]] + rest)[1..] == rest;
        [s[0]] + rest
      else
        rest
  }

  lemma SelectCons<T(!new)>(x: T, rest: seq<T>, keep: T -> bool)
    ensures Select([x] + rest, keep) == (if keep(x) then [x] else []) + Select(rest, keep)
  {
    assert ([x] + rest)[1..] == rest;
  }

  /** The least index `j` in `[i, n)` with `p(j)`: how every "first match
      wins" search of the source scans. */
  function FirstFrom(p: nat -> bool, i: nat, n: nat): (r: Option<nat>)
    ensures r.Some? ==> i <= r.value < n && p(r.value)
    ensures r.Some? ==> forall j :: i <= j < r.value ==> !p(j)
    ensures r.None? ==> forall j :: i <= j < n ==> !p(j)
    decreases n - i
  {
    if i >= n then None
    else if p(i) then Some(i)
    else FirstFrom(p, i + 1, n)
  }

  /** The search returns the least index satisfying `p`, whichever that is. */
  lemma FirstFromLeast(p: nat -> bool, i: nat, n: nat, k: nat)
    requires i <= k < n && p(k)
    requires forall j: nat :: i <= j < k ==> !p(j)
    ensures FirstFrom(p, i, n) == Some(k)
  {
  }

  /** Length of the longest prefix of `s` whose elements all satisfy `ok`
      (what a greedy regex repetition such as `[a-z]*` consumes). */
  function Span<T>(s: seq<T>, ok: T -> bool): (n: nat)
    ensures n <= |s|
    ensures forall k :: 0 <= k < n ==> ok(s[k])
    ensures n < |s| ==> !ok(s[n])
  {
    if s == [] || !ok(s[0]) then 0 else 1 + Span(s[1..], ok)
  }

  /** The leading run ends at the first element that fails `ok`. */
  lemma SpanAt<T>(s: seq<T>, ok: T -> bool, n: nat)
    requires n < |s| && !ok(s[n])
    requires forall k :: 0 <= k < n ==> ok(s[k])
    ensures Span(s, ok) == n
  {
  }
}
