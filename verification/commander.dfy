/** `VagrantCommander`: the five chat commands, the handler table they are
    registered in, and the dispatch of one command text to the first
    handler whose pattern occurs in it. A handler's effect is the reply
    text it leaves; an exception it raises is a `Failure`. */
module Commander {
  import opened Wrappers
  import opened Errors
  import opened Text
  import opened Seqs
  import opened Fs
  import opened Router
  import opened Vagrant
  import opened Arguments

  /** The five handlers registered with `register_command`. */
  datatype Handler = ShowHelp | ShowMachines | RunMachine | InspectMachine | ShowLog

  /** The handler table and the machines registered by `scan_machines`. */
  datatype Commander = Commander(routes: seq<Route<Handler>>, machines: seq<Machine>)

  const HelpDoc := " Show this help "
  const MachinesDoc := " Lists all available machines and corresponding status "
  const RunDoc := " Start Vagrant machines for #<branch>; list of machines or `all` "
  const InspectDoc := " Inspect machine's stdout and stderr; list of machines or `all` "
  const LogDoc := " Show logs for deployments; list of machines or `all` "

  /** The table the class body leaves: one route per decorated handler, in
      class-body order (`DefaultRoutesTable` shows the decorators build
      exactly this). */
  const DefaultRoutes: seq<Route<Handler>> :=
    [Route("help", ShowHelp, HelpDoc), Route("machines", ShowMachines, MachinesDoc),
     Route("run", RunMachine, RunDoc), Route("inspect", InspectMachine, InspectDoc),
     Route("log", ShowLog, LogDoc)]

  // ---------------------------------------------------------------------
  // show_machines

  const MachinesHeader := "Available Machines:"

  function MachineLine(m: Machine): (l: string)
    ensures '\n' !in m.Name() ==> '\n' !in l
  {
    var status := StatusStr(m);
    assert '\n' !in status;
    Bullet(m.Name(), status)
  }

  function MachineLines(ms: seq<Machine>): seq<string> {
    seq(|ms|, k requires 0 <= k < |ms| => MachineLine(ms[k]))
  }

  /** `show_machines`: the header, then exactly one line per registered
      machine, in registry order, with its name and status (an empty
      registry leaves one empty line). */
  function MachineList(ms: seq<Machine>): (r: string)
    ensures (forall k :: 0 <= k < |ms| ==> '\n' !in ms[k].Name()) ==>
              |Lines(r)| == 1 + (if ms == [] then 1 else |ms|) && Lines(r)[0] == MachinesHeader &&
              forall k :: 0 <= k < |ms| ==> Lines(r)[k + 1] == Bullet(ms[k].Name(), StatusStr(ms[k]))
    ensures ms == [] ==> r == MachinesHeader + "\n"
  {
    MachineListing(ms);
    Listing(MachinesHeader, MachineLines(ms))
  }

  lemma MachineListing(ms: seq<Machine>)
    ensures (forall k :: 0 <= k < |ms| ==> '\n' !in ms[k].Name()) ==>
              var ls := Lines(Listing(MachinesHeader, MachineLines(ms)));
              |ls| == 1 + (if ms == [] then 1 else |ms|) && ls[0] == MachinesHeader &&
              forall k :: 0 <= k < |ms| ==> ls[k + 1] == Bullet(ms[k].Name(), StatusStr(ms[k]))
  {
    if forall k :: 0 <= k < |ms| ==> '\n' !in ms[k].Name() {
      ListingLines(MachinesHeader, MachineLines(ms));
    }
  }

  // ---------------------------------------------------------------------
  // run_machine

  function RunHeader(branch: string): string {
    ":running_man: Running pyrocko on branch `" + branch + "`\n"
  }

  function StartedLine(name: string): (l: string)
    ensures '\n' !in name ==> '\n' !in l
  {
    assert '\n' !in "started!";
    Bullet(name, "started!")
  }

  /** The `started!` line of each target, in order. */
  function StartedLineList(ts: seq<Machine>): seq<string> {
    seq(|ts|, k requires 0 <= k < |ts| => StartedLine(ts[k].Name()))
  }

  /** One `started!` line per target, each ending in a newline. */
  function StartedLines(ts: seq<Machine>): string {
    Unlines(StartedLineList(ts))
  }

  /** `s[:-2]` */
  function DropLast2(s: string): (r: string)
    ensures |s| >= 2 ==> r + s[|s| - 2..] == s
    ensures |s| < 2 ==> r == ""
  {
    if |s| >= 2 then s[..|s| - 2] else ""
  }

  /** The reply of `run_machine`: the branch line, one line per started
      machine, minus the last two characters. Starting the machines and
      checking out the branch are not modelled. */
  function RunReply(ms: seq<Machine>, text: string, reply: string): (r: string)
    ensures var s := StripBranchName(text);
            MachineArgs(s.text) == [] ==> r == "No machines give"
    ensures var s := StripBranchName(text);
            var ts := Targets(ms, MachineArgs(s.text));
            MachineArgs(s.text) != [] ==>
              r + (if ts == [] then "`\n" else "!\n") == reply + RunHeader(s.branch) + StartedLines(ts)
  {
    var s := StripBranchName(text);
    var res := GetMachinesFromText(ms, s.text, reply + RunHeader(s.branch));
    if MachineArgs(s.text) == [] then
      assert res == Resolution([], NoMachinesGiven);
      RunWithoutArguments();
      RunOutput(res)
    else
      assert res == Resolution(Targets(ms, MachineArgs(s.text)), reply + RunHeader(s.branch));
      RunOutputTail(reply, s.branch, res.targets);
      RunOutput(res)
  }

  /** The reply left once the targets are resolved and started. */
  function RunOutput(res: Resolution): string {
    DropLast2(res.reply + StartedLines(res.targets))
  }

  lemma RunWithoutArguments()
    ensures RunOutput(Resolution([], NoMachinesGiven)) == "No machines give"
  {
    UnlinesEnd([]);
    assert NoMachinesGiven + StartedLines([]) == NoMachinesGiven;
  }

  lemma RunOutputTail(reply: string, branch: string, ts: seq<Machine>)
    ensures RunOutput(Resolution(ts, reply + RunHeader(branch))) + (if ts == [] then "`\n" else "!\n") ==
              reply + RunHeader(branch) + StartedLines(ts)
  {
    RunReplyTail(reply, branch, ts);
  }

  /** The text `run_machine` cuts its last two characters from ends in the
      branch line's "`" and newline, or in the last line's "!" and
      newline. */
  lemma RunReplyTail(reply: string, branch: string, ts: seq<Machine>)
    ensures var full := reply + RunHeader(branch) + StartedLines(ts);
            |full| >= 2 && full[|full| - 2..] == (if ts == [] then "`\n" else "!\n")
  {
    var ls := StartedLineList(ts);
    RunHeaderEnd(reply, branch);
    if ts != [] {
      StartedLineEnd(ts[|ts| - 1].Name());
    }
    LastTwoAfterLines(reply + RunHeader(branch), ls);
  }

  lemma RunHeaderEnd(reply: string, branch: string)
    ensures var h := reply + RunHeader(branch); |h| >= 2 && h[|h| - 2..] == "`\n"
  {
  }

  lemma StartedLineEnd(name: string)
    ensures var l := StartedLine(name); l != [] && l[|l| - 1] == '!'
  {
  }

  /** Every targeted machine gets one `started!` line, in registry order. */
  lemma StartedLinesLayout(ts: seq<Machine>)
    requires forall k :: 0 <= k < |ts| ==> '\n' !in ts[k].Name()
    ensures Lines(StartedLines(ts)) == StartedLineList(ts) + [""]
    ensures forall k :: 0 <= k < |ts| ==> Lines(StartedLines(ts))[k] == Bullet(ts[k].Name(), "started!")
  {
    UnlinesSplit(StartedLineList(ts));
  }

  // ---------------------------------------------------------------------
  // inspect_machine

  /** `inspect_machine`: it resolves its targets like the other commands;
      for any target it then reads an output buffer `VagrantMachine` does
      not have, and raises. */
  function InspectReply(ms: seq<Machine>, text: string, reply: string): (r: Result<string, Error>)
    ensures r.Success? <==> Targets(ms, MachineArgs(text)) == []
    ensures MachineArgs(text) == [] ==> r == Success(NoMachinesGiven)
    ensures r.Success? && MachineArgs(text) != [] ==> r.value == reply
    ensures r.Failure? ==> r.error == NoOutputBuffer(Targets(ms, MachineArgs(text))[0].Name())
  {
    var res := GetMachinesFromText(ms, text, reply);
    if res.targets == [] then Success(res.reply)
    else Failure(NoOutputBuffer(res.targets[0].Name()))
  }

  // ---------------------------------------------------------------------
  // show_log

  function LogSection(m: Machine, log: string): string {
    "Showing logs" + "## Machine `" + m.Name() + "`:\n" + log
  }

  /** The log sections of the targets, in order; the first `get_log` that
      raises ends the command. */
  function MachineLogs(fs: FileSystem, ts: seq<Machine>): Result<string, Error> {
    if ts == [] then Success("")
    else
      var log :- GetLog(fs, ts[0].path);
      var rest :- MachineLogs(fs, ts[1..]);
      Success(LogSection(ts[0], log) + rest)
  }

  /** The `k`-th target is the first whose log cannot be produced. */
  predicate LogFailsFirstAt(fs: FileSystem, ts: seq<Machine>, k: int) {
    0 <= k < |ts| && GetLog(fs, ts[k].path).Failure? &&
    forall j :: 0 <= j < k ==> GetLog(fs, ts[j].path).Success?
  }

  /** One section per target, in target order, when every log can be
      produced. */
  function Sections(fs: FileSystem, ts: seq<Machine>): seq<string>
    requires forall k :: 0 <= k < |ts| ==> GetLog(fs, ts[k].path).Success?
  {
    if ts == [] then []
    else
      assert forall k :: 0 <= k < |ts| - 1 ==> ts[1..][k] == ts[k + 1];
      [LogSection(ts[0], GetLog(fs, ts[0].path).value)] + Sections(fs, ts[1..])
  }

  /** `show_log` succeeds exactly when every target's `get_log` does, and
      then its sections are the targets' sections concatenated in order;
      otherwise it raises the error of the first target whose log fails. */
  lemma {:induction false} MachineLogsSections(fs: FileSystem, ts: seq<Machine>)
    ensures MachineLogs(fs, ts).Success? <==> forall k :: 0 <= k < |ts| ==> GetLog(fs, ts[k].path).Success?
    ensures MachineLogs(fs, ts).Success? ==> MachineLogs(fs, ts).value == Join(Sections(fs, ts), "")
    ensures MachineLogs(fs, ts).Failure? ==>
              exists k :: LogFailsFirstAt(fs, ts, k) && MachineLogs(fs, ts).error == GetLog(fs, ts[k].path).error
    decreases |ts|
  {
    if ts != [] {
      var rest := ts[1..];
      MachineLogsSections(fs, rest);
      var g := GetLog(fs, ts[0].path);
      if g.Failure? {
        assert LogFailsFirstAt(fs, ts, 0);
      } else if MachineLogs(fs, rest).Failure? {
        LogFailureShifts(fs, ts, MachineLogs(fs, rest).error);
      } else {
        LogsSucceedCons(fs, ts);
      }
    }
  }

  lemma LogFailureShifts(fs: FileSystem, ts: seq<Machine>, e: Error)
    requires ts != [] && GetLog(fs, ts[0].path).Success?
    requires exists k :: LogFailsFirstAt(fs, ts[1..], k) && e == GetLog(fs, ts[1..][k].path).error
    ensures exists k :: LogFailsFirstAt(fs, ts, k) && e == GetLog(fs, ts[k].path).error
  {
    var k :| LogFailsFirstAt(fs, ts[1..], k) && e == GetLog(fs, ts[1..][k].path).error;
    assert ts[1..][k] == ts[k + 1];
    forall j | 0 <= j < k + 1 ensures GetLog(fs, ts[j].path).Success? {
      if j > 0 {
        assert ts[j] == ts[1..][j - 1];
      }
    }
    assert LogFailsFirstAt(fs, ts, k + 1);
  }

  lemma LogsSucceedCons(fs: FileSystem, ts: seq<Machine>)
    requires ts != [] && GetLog(fs, ts[0].path).Success?
    requires forall k :: 0 <= k < |ts| - 1 ==> GetLog(fs, ts[1..][k].path).Success?
    ensures forall k :: 0 <= k < |ts| ==> GetLog(fs, ts[k].path).Success?
    ensures Join(Sections(fs, ts), "") ==
              LogSection(ts[0], GetLog(fs, ts[0].path).value) + Join(Sections(fs, ts[1..]), "")
  {
    forall k | 1 <= k < |ts| ensures GetLog(fs, ts[k].path).Success? {
      assert ts[k] == ts[1..][k - 1];
    }
    JoinConcatCons(LogSection(ts[0], GetLog(fs, ts[0].path).value), Sections(fs, ts[1..]));
  }

  /** `show_log`: the reply after target resolution, followed by one log
      section per target. */
  function LogReply(fs: FileSystem, ms: seq<Machine>, text: string, reply: string): (r: Result<string, Error>)
    ensures MachineArgs(text) == [] ==> r == Success(NoMachinesGiven)
    ensures var ts := Targets(ms, MachineArgs(text));
            MachineArgs(text) != [] ==> (r.Success? <==> forall k :: 0 <= k < |ts| ==> GetLog(fs, ts[k].path).Success?)
    ensures var ts := Targets(ms, MachineArgs(text));
            r.Success? && MachineArgs(text) != [] ==> r.value == reply + Join(Sections(fs, ts), "")
    ensures var ts := Targets(ms, MachineArgs(text));
            r.Failure? ==> exists k :: LogFailsFirstAt(fs, ts, k) && r.error == GetLog(fs, ts[k].path).error
    ensures r.Success? && MachineArgs(text) != [] ==> reply <= r.value
    ensures Targets(ms, MachineArgs(text)) == [] ==> r.Success?
  {
    var res := GetMachinesFromText(ms, text, reply);
    MachineLogsSections(fs, res.targets);
    assert res.targets == [] ==> MachineLogs(fs, res.targets) == Success("");
    var logs :- MachineLogs(fs, res.targets);
    assert res.targets == [] ==> res.reply + logs == res.reply;
    Success(res.reply + logs)
  }

  // ---------------------------------------------------------------------
  // __call__

  /** One handler's reply to `text`, given the reply text so far. */
  function Handle(c: Commander, fs: FileSystem, h: Handler, text: string, reply: string): Result<string, Error> {
    match h
    case ShowHelp => Success(Help(c.routes))
    case ShowMachines => Success(MachineList(c.machines))
    case RunMachine => Success(RunReply(c.machines, text, reply))
    case InspectMachine => InspectReply(c.machines, text, reply)
    case ShowLog => LogReply(fs, c.machines, text, reply)
  }

  /** `VagrantCommander.__call__`: the first route, in registration order,
      whose pattern occurs in the text handles it; without one the reply is
      the unknown-command notice. */
  function Dispatch(c: Commander, fs: FileSystem, text: string, reply: string): (r: Result<string, Error>)
    ensures (forall j :: 0 <= j < |c.routes| ==> !Contains(text, c.routes[j].pattern)) ==>
              r == Success(UnknownCommand(text))
    ensures forall k :: (0 <= k < |c.routes| && Contains(text, c.routes[k].pattern) &&
                         (forall j :: 0 <= j < k ==> !Contains(text, c.routes[j].pattern))) ==>
              r == Handle(c, fs, c.routes[k].handler, text, reply)
  {
    match FirstMatch(c.routes, text)
    case None => Success(UnknownCommand(text))
    case Some(k) =>
      assert forall i :: (0 <= i < |c.routes| && Contains(text, c.routes[i].pattern) &&
                          (forall j :: 0 <= j < i ==> !Contains(text, c.routes[j].pattern))) ==> i == k;
      Handle(c, fs, c.routes[k].handler, text, reply)
  }

  // ---------------------------------------------------------------------
  // The registered commands

  /** The five decorators, applied one after another to an empty table,
      build the default table. */
  lemma DefaultRoutesTable()
    ensures Register(Register(Register(Register(Register([],
              "help", ShowHelp, Some(HelpDoc)),
              "machines", ShowMachines, Some(MachinesDoc)),
              "run", RunMachine, Some(RunDoc)),
              "inspect", InspectMachine, Some(InspectDoc)),
              "log", ShowLog, Some(LogDoc)) == DefaultRoutes
  {
  }

  /** A text that contains none of the five words gets the unknown-command
      reply. */
  lemma NoDefaultPattern(ms: seq<Machine>, fs: FileSystem, text: string, reply: string)
    requires !Contains(text, "help") && !Contains(text, "machines") && !Contains(text, "run")
    requires !Contains(text, "inspect") && !Contains(text, "log")
    ensures Dispatch(Commander(DefaultRoutes, ms), fs, text, reply) == Success(UnknownCommand(text))
  {
    assert forall j :: 0 <= j < |DefaultRoutes| ==> !Contains(text, DefaultRoutes[j].pattern);
  }

  /** `list` is not a registered command: no pattern occurs in it. */
  lemma ListIsUnknown(ms: seq<Machine>, fs: FileSystem, reply: string)
    ensures Dispatch(Commander(DefaultRoutes, ms), fs, "list", reply) == Success(UnknownCommand("list"))
  {
    var text := "list";
    assert 'h' !in text && 'm' !in text && 'r' !in text && 'n' !in text && 'o' !in text;
    ContainsHasChar(text, "help", 0);
    ContainsHasChar(text, "machines", 0);
    ContainsHasChar(text, "run", 0);
    ContainsHasChar(text, "inspect", 1);
    ContainsHasChar(text, "log", 1);
    NoDefaultPattern(ms, fs, text, reply);
  }

  /** Patterns are matched anywhere in the text, in registration order: a
      text naming `machines` and not `help` lists the machines, whatever
      else it says. */
  lemma MachinesWins(ms: seq<Machine>, fs: FileSystem, text: string, reply: string)
    requires !Contains(text, "help") && Contains(text, "machines")
    ensures Dispatch(Commander(DefaultRoutes, ms), fs, text, reply) == Success(MachineList(ms))
  {
    var c := Commander(DefaultRoutes, ms);
    assert c.routes[1].handler == ShowMachines && Contains(text, c.routes[1].pattern);
    assert forall j :: 0 <= j < 1 ==> !Contains(text, c.routes[j].pattern);
    assert Dispatch(c, fs, text, reply) == Handle(c, fs, ShowMachines, text, reply);
  }

  lemma LogMachinesNoHelp()
    ensures !Contains("log machines", "help")
  {
    ContainsHasChar("log machines", "help", 3);
  }

  lemma LogMachinesHasMachines()
    ensures Contains("log machines", "machines")
  {
    ContainsAtEnd("log ", "machines");
    assert "log " + "machines" == "log machines";
  }

  /** `log machines` lists the machines instead of showing their logs. */
  lemma LogMachinesListsMachines(ms: seq<Machine>, fs: FileSystem, reply: string)
    ensures Dispatch(Commander(DefaultRoutes, ms), fs, "log machines", reply) == Success(MachineList(ms))
  {
    LogMachinesNoHelp();
    LogMachinesHasMachines();
    MachinesWins(ms, fs, "log machines", reply);
  }
}
