/** The handler table filled by `register_command` and the first-match
    routing of `VagrantCommander.__call__`, plus the help text rendered
    from the table. Handlers are an opaque type `H` here; the commander
    instantiates it with its five commands. */
module Router {
  import opened Wrappers
  import opened Text
  import opened Seqs

  /** Docstring given to a handler registered without one. */
  const Undocumented := "Handler not documented."

  const HelpHeader := "Vagrant Bot commands:"

  /** One entry of the handler table: a literal pattern, the handler it
      selects, and that handler's docstring. */
  datatype Route<H> = Route(pattern: string, handler: H, doc: string)

  function Patterns<H>(t: seq<Route<H>>): (ps: seq<string>)
    ensures |ps| == |t|
    ensures forall k :: 0 <= k < |t| ==> ps[k] == t[k].pattern
  {
    seq(|t|, k requires 0 <= k < |t| => t[k].pattern)
  }

  /** `register_command(pattern)(handler)`: an assignment into an
      insertion-ordered dict. A new pattern goes to the end; an existing
      one keeps its place and gets the new handler. */
  function Register<H>(t: seq<Route<H>>, pattern: string, handler: H, doc: Option<string>): (r: seq<Route<H>>)
    ensures pattern in Patterns(t) ==> Patterns(r) == Patterns(t)
    ensures pattern !in Patterns(t) ==> Patterns(r) == Patterns(t) + [pattern]
    ensures forall k :: 0 <= k < |r| && r[k].pattern == pattern ==>
              r[k] == Route(pattern, handler, doc.GetOr(Undocumented))
    ensures forall k :: 0 <= k < |r| && r[k].pattern != pattern ==> k < |t| && r[k] == t[k]
    ensures Distinct(Patterns(t)) ==> Distinct(Patterns(r))
  {
    var entry := Route(pattern, handler, doc.GetOr(Undocumented));
    if pattern in Patterns(t) then
      seq(|t|, k requires 0 <= k < |t| => if t[k].pattern == pattern then entry else t[k])
    else
      t + [entry]
  }

  /** The index of the first route, in registration order, whose pattern
      occurs in `text`. */
  function FirstMatch<H>(t: seq<Route<H>>, text: string): (r: Option<nat>)
    ensures r.Some? ==> r.value < |t| && Contains(text, t[r.value].pattern)
    ensures r.Some? ==> forall j :: 0 <= j < r.value ==> !Contains(text, t[j].pattern)
    ensures r.None? ==> forall j :: 0 <= j < |t| ==> !Contains(text, t[j].pattern)
  {
    var matches := (j: nat) => j < |t| && Contains(text, t[j].pattern);
    var r := FirstFrom(matches, 0, |t|);
    assert forall j: nat :: j < |t| ==> (matches(j) <==> Contains(text, t[j].pattern));
    r
  }

  /** The reply when no pattern occurs in the command text. */
  function UnknownCommand(text: string): string {
    "Unknown command _" + text + "_"
  }

  /** "* `name` rest": the bullet shape of the help and status lines. */
  function Bullet(name: string, rest: string): (l: string)
    ensures '\n' !in name && '\n' !in rest ==> '\n' !in l
  {
    "* `" + name + "` " + rest
  }

  function HelpLine<H>(r: Route<H>): string {
    Bullet(r.pattern, Strip(r.doc))
  }

  function HelpLines<H>(t: seq<Route<H>>): seq<string> {
    seq(|t|, k requires 0 <= k < |t| => HelpLine(t[k]))
  }

  /** `show_help`: the header, then exactly one line "* `pattern` doc"
      per route in registration order, with the doc stripped (an empty
      table leaves one empty line). */
  function Help<H>(t: seq<Route<H>>): (r: string)
    ensures (forall k :: 0 <= k < |t| ==> '\n' !in t[k].pattern && '\n' !in Strip(t[k].doc)) ==>
              |Lines(r)| == 1 + (if t == [] then 1 else |t|) && Lines(r)[0] == HelpHeader &&
              forall k :: 0 <= k < |t| ==> Lines(r)[k + 1] == "* `" + t[k].pattern + "` " + Strip(t[k].doc)
    ensures t == [] ==> r == HelpHeader + "\n"
  {
    HelpListing(t);
    Listing(HelpHeader, HelpLines(t))
  }

  lemma HelpListing<H>(t: seq<Route<H>>)
    ensures (forall k :: 0 <= k < |t| ==> '\n' !in t[k].pattern && '\n' !in Strip(t[k].doc)) ==>
              var ls := Lines(Listing(HelpHeader, HelpLines(t)));
              |ls| == 1 + (if t == [] then 1 else |t|) && ls[0] == HelpHeader &&
              forall k :: 0 <= k < |t| ==> ls[k + 1] == "* `" + t[k].pattern + "` " + Strip(t[k].doc)
  {
    if forall k :: 0 <= k < |t| ==> '\n' !in t[k].pattern && '\n' !in Strip(t[k].doc) {
      var items := HelpLines(t);
      forall k | 0 <= k < |items| ensures '\n' !in items[k] {
        assert items[k] == "* `" + t[k].pattern + "` " + Strip(t[k].doc);
      }
      ListingLines(HelpHeader, items);
    }
  }

  /** `str.strip` leaves a string without surrounding whitespace alone. */
  lemma StripUnchanged(s: string)
    requires s == [] || (!IsSpace(s[0]) && !IsSpace(s[|s| - 1]))
    ensures Strip(s) == s
  {
    var r := Strip(s);
    var a :| 0 <= a <= |s| - |r| && r == s[a..a + |r|] && AllSpace(s[..a]) && AllSpace(s[a + |r|..]);
  }

  /** A handler registered without a docstring is listed as undocumented. */
  lemma RegisterUndocumented<H>(t: seq<Route<H>>, pattern: string, handler: H, k: nat)
    requires k < |Register(t, pattern, handler, None)|
    requires Register(t, pattern, handler, None)[k].pattern == pattern
    ensures HelpLine(Register(t, pattern, handler, None)[k]) == "* `" + pattern + "` " + Undocumented
  {
    StripUnchanged(Undocumented);
  }
}
