/** The two argument readers every command handler shares:
    `_get_machines_from_text`, which turns the words after the command
    into the machines to act on, and `_strip_branch_name`, which takes a
    `#branch` tag out of the command text. */
module Arguments {
  import opened Wrappers
  import opened Text
  import opened Seqs
  import opened Vagrant

  /** The reply written when a command names no machine. */
  const NoMachinesGiven := "No machines given!"

  /** The branch used when the text carries no single `#branch` tag. */
  const DefaultBranch := "master"

  /** The lower-cased words after the command word. */
  function MachineArgs(text: string): (args: seq<string>)
    ensures |Words(text)| <= 1 <==> args == []
    ensures |args| == (if |Words(text)| <= 1 then 0 else |Words(text)| - 1)
    ensures forall k :: 0 <= k < |args| ==> args[k] == Lower(Words(text)[k + 1])
  {
    var ws := Words(text);
    if |ws| <= 1 then [] else seq(|ws| - 1, k requires 0 <= k < |ws| - 1 => Lower(ws[k + 1]))
  }

  /** Whether machine `m` is named by the lower-cased arguments `args`. */
  predicate Selected(args: seq<string>, m: Machine) {
    Lower(m.Name()) in args || "all" in args
  }

  /** The registered machines the arguments select, in registry order. */
  function Targets(machines: seq<Machine>, args: seq<string>): (r: seq<Machine>)
    ensures IsSubseq(r, machines)
    ensures "all" in args ==> r == machines
    ensures forall m :: multiset(r)[m] == if Selected(args, m) then multiset(machines)[m] else 0
  {
    Select(machines, m => Selected(args, m))
  }

  /** What `_get_machines_from_text` hands back: the machines to act on and
      the reply text after the call. */
  datatype Resolution = Resolution(targets: seq<Machine>, reply: string)

  /** `_get_machines_from_text`: a command without arguments overwrites the
      reply and selects nothing; otherwise the reply is left alone. */
  function GetMachinesFromText(machines: seq<Machine>, text: string, reply: string): (r: Resolution)
    ensures r.targets == Targets(machines, MachineArgs(text))
    ensures IsSubseq(r.targets, machines)
    ensures "all" in MachineArgs(text) ==> r.targets == machines
    ensures forall m :: m in r.targets <==> m in machines && Selected(MachineArgs(text), m)
    ensures MachineArgs(text) == [] ==> r.targets == [] && r.reply == NoMachinesGiven
    ensures MachineArgs(text) != [] ==> r.reply == reply
  {
    var args := MachineArgs(text);
    var targets := Targets(machines, args);
    assert forall m :: m in targets <==> multiset(targets)[m] > 0;
    if args == [] then
      assert forall m :: multiset(targets)[m] == 0;
      assert multiset(targets) == multiset{};
      Resolution(targets, NoMachinesGiven)
    else
      Resolution(targets, reply)
  }

  /** `[a-zA-Z0-9_-]` */
  predicate IsBranchChar(c: char) {
    ('a' <= c <= 'z') || ('A' <= c <= 'Z') || ('0' <= c <= '9') || c == '_' || c == '-'
  }

  /** `\s#` starts at index `p`. Matches of `\s#[a-zA-Z0-9_-]*` never
      overlap (the branch characters hold no whitespace), so `findall`
      finds exactly one match per such index. */
  predicate TagAt(text: string, p: int) {
    0 <= p && p + 1 < |text| && IsSpace(text[p]) && text[p + 1] == '#'
  }

  function TagIndex(text: string): nat -> bool {
    p => TagAt(text, p)
  }

  /** The result of `_strip_branch_name`: the branch and the command text
      it leaves behind. */
  datatype Stripped = Stripped(branch: string, text: string)

  /** `_strip_branch_name`: a single tag is taken out of the text and names
      the branch; none or several leave the text alone and select
      `master`. */
  function StripBranchName(text: string): (r: Stripped)
    ensures (forall p :: !TagAt(text, p)) ==> r == Stripped(DefaultBranch, text)
    ensures r.text == text || exists p :: TagAt(text, p) && p + 2 + |r.branch| <= |text| && r.text == text[..p] + text[p + 2 + |r.branch|..]
    ensures forall k :: 0 <= k < |r.branch| && r.text != text ==> IsBranchChar(r.branch[k])
  {
    match FirstFrom(TagIndex(text), 0, |text|)
    case None =>
      assert forall p :: TagAt(text, p) ==> 0 <= p < |text| && TagIndex(text)(p);
      Stripped(DefaultBranch, text)
    case Some(p) =>
      if FirstFrom(TagIndex(text), p + 1, |text|).Some? then Stripped(DefaultBranch, text)
      else
        CutTagShape(text, p);
        CutTag(text, p)
  }

  /** `r.sub('', text)` for the tag at `p`, with the branch it names. */
  function CutTag(text: string, p: nat): Stripped
    requires p + 2 <= |text|
  {
    var n := Span(text[p + 2..], IsBranchChar);
    Stripped(text[p + 2..p + 2 + n], text[..p] + text[p + 2 + n..])
  }

  /** The branch is the longest run of branch characters after `#`, and
      exactly the tag is cut out. */
  lemma CutTagShape(text: string, p: nat)
    requires p + 2 <= |text|
    ensures var r := CutTag(text, p);
            var e := p + 2 + |r.branch|;
            e <= |text| && r.branch == text[p + 2..e] &&
            (forall k :: 0 <= k < |r.branch| ==> IsBranchChar(r.branch[k])) &&
            (e < |text| ==> !IsBranchChar(text[e])) &&
            r.text == text[..p] + text[e..]
  {
    var rest := text[p + 2..];
    var n := Span(rest, IsBranchChar);
    assert forall k :: 0 <= k < n ==> text[p + 2..p + 2 + n][k] == rest[k];
    assert p + 2 + n < |text| ==> text[p + 2 + n] == rest[n];
  }

  /** With exactly one tag, the search finds it and no second one. */
  lemma SingleTagFound(text: string, p: nat)
    requires TagAt(text, p)
    requires forall q :: TagAt(text, q) ==> q == p
    ensures FirstFrom(TagIndex(text), 0, |text|) == Some(p)
    ensures FirstFrom(TagIndex(text), p + 1, |text|).None?
  {
    assert forall j: nat :: 0 <= j < p ==> !TagIndex(text)(j);
    FirstFromLeast(TagIndex(text), 0, |text|, p);
    assert forall j: nat :: p + 1 <= j < |text| ==> !TagIndex(text)(j);
  }

  /** A single tag: the branch is the longest run of branch characters
      after `#`, and the tag is cut out of the text. */
  lemma StripSingleTag(text: string, p: nat)
    requires TagAt(text, p)
    requires forall q :: TagAt(text, q) ==> q == p
    ensures var r := StripBranchName(text);
            var e := p + 2 + |r.branch|;
            e <= |text| && r.branch == text[p + 2..e] &&
            (forall k :: 0 <= k < |r.branch| ==> IsBranchChar(r.branch[k])) &&
            (e < |text| ==> !IsBranchChar(text[e])) &&
            r.text == text[..p] + text[e..]
  {
    SingleTagFound(text, p);
    assert StripBranchName(text) == CutTag(text, p);
    CutTagShape(text, p);
  }

  /** Two or more tags: the branch is `master` and the text is kept. */
  lemma StripAmbiguousTags(text: string, p: nat, q: nat)
    requires p < q && TagAt(text, p) && TagAt(text, q)
    ensures StripBranchName(text) == Stripped(DefaultBranch, text)
  {
    match FirstFrom(TagIndex(text), 0, |text|)
    case None =>
      assert TagIndex(text)(p);
    case Some(f) =>
      assert TagIndex(text)(p);
      assert f <= p;
      assert f + 1 <= q < |text| && TagIndex(text)(q);
  }
}
