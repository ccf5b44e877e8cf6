/** `VagrantMachine`: one test machine directory under
    `maintenance/vagrant`, the check made when it is registered, its status
    label and the log rendered from its `test-*.py[23].out` files. The run
    thread itself is not modelled; whether it is alive is an input. */
module Vagrant {
  import opened Wrappers
  import opened Errors
  import opened Text
  import opened Seqs
  import opened Fs
  import opened Report

  /** The reply of `get_log` for a machine without output files. */
  const NoLog := "*No log available*"

  /** Opening and closing line of the fenced log block. */
  const Fence := "```\n"

  /** A registered machine: its directory and whether its run thread is
      currently alive. */
  datatype Machine = Machine(path: string, running: bool) {

    /** The machine's name is the base name of its directory. */
    function Name(): string {
      Basename(path)
    }
  }

  /** `status_str`: "stopped" exactly when the run thread is not alive,
      the running label otherwise. */
  function StatusStr(m: Machine): (r: string)
    ensures r == "stopped" <==> !m.running
    ensures m.running ==> r == ":running_man: running"
    ensures r != [] && '\n' !in r
  {
    if m.running then ":running_man: running" else "stopped"
  }

  /** `verify_path` exactly as written. Python reads the condition as
      `(not 'inside.sh') and ('outside.sh' in files)`; a non-empty string
      literal is truthy, so the condition is always false and only the
      directory listing itself can fail. */
  function VerifyPath(fs: FileSystem, path: string): (r: Result<bool, Error>)
    ensures r.Success? <==> fs.IsDir(path)
    ensures r.Failure? ==> r.error == (if fs.Exists(path) then NotADirectory(path) else NoSuchPath(path))
  {
    match fs.ListDir(path)
    case Failure(e) => Failure(e)
    case Success(files) =>
      if !Truthy("inside.sh") && "outside.sh" in files then Failure(NotAVagrantFolder(path))
      else Success(true)
  }

  /** `fnmatch` of an entry name against `test-*.py[23].out`. */
  predicate GlobMatch(name: string) {
    |name| >= 13 && "test-" <= name && IsVersionTail(name[|name| - 8..])
  }

  /** `glob.glob(os.path.join(path, 'test-*.py[23].out'))`: the matching
      entries of the directory, joined to it, in listing order. */
  function LogFiles(fs: FileSystem, dir: string): (r: seq<string>)
    ensures !fs.IsDir(dir) ==> r == []
    ensures fs.IsDir(dir) ==> IsSubseq(r, JoinAll(dir, fs.dirs[dir]))
    ensures fs.IsDir(dir) ==>
              forall x :: x in r <==> exists e :: e in fs.dirs[dir] && GlobMatch(e) && x == PathJoin(dir, e)
  {
    if !fs.IsDir(dir) then []
    else
      var names := Select(fs.dirs[dir], GlobMatch);
      JoinAllSubseq(dir, names, fs.dirs[dir]);
      GlobbedMembers(dir, fs.dirs[dir]);
      JoinAll(dir, names)
  }

  lemma GlobbedMembers(dir: string, entries: seq<string>)
    ensures forall x :: x in JoinAll(dir, Select(entries, GlobMatch)) <==>
                        exists e :: e in entries && GlobMatch(e) && x == PathJoin(dir, e)
  {
    var names := Select(entries, GlobMatch);
    var r := JoinAll(dir, names);
    forall x | x in r ensures exists e :: e in entries && GlobMatch(e) && x == PathJoin(dir, e) {
      var k :| 0 <= k < |r| && r[k] == x;
      assert names[k] in multiset(names);
      assert names[k] in multiset(entries);
    }
    forall x | exists e :: e in entries && GlobMatch(e) && x == PathJoin(dir, e) ensures x in r {
      var e :| e in entries && GlobMatch(e) && x == PathJoin(dir, e);
      assert e in multiset(entries);
      assert e in multiset(names);
      var k :| 0 <= k < |names| && names[k] == e;
      assert r[k] == x;
    }
  }

  /** The base names of the globbed paths are exactly the matching entries,
      in listing order and with their multiplicity. */
  lemma LogFileNames(fs: FileSystem, dir: string)
    requires fs.IsDir(dir)
    requires forall k :: 0 <= k < |fs.dirs[dir]| ==> '/' !in fs.dirs[dir][k]
    ensures var r := LogFiles(fs, dir);
            seq(|r|, k requires 0 <= k < |r| => Basename(r[k])) == Select(fs.dirs[dir], GlobMatch)
  {
    var names := Select(fs.dirs[dir], GlobMatch);
    var r := LogFiles(fs, dir);
    assert r == JoinAll(dir, names);
    forall k | 0 <= k < |r| ensures Basename(r[k]) == names[k] {
      assert names[k] in multiset(names);
      assert names[k] in multiset(fs.dirs[dir]);
      BasenameOfJoin(dir, names[k]);
    }
  }

  /** `parse_result(fn)` as `get_log` calls it: the file is opened first,
      then its name is matched. */
  function FileReport(fs: FileSystem, fn: string): (r: Result<string, Error>)
    ensures r.Success? <==> fs.Read(fn).Success? && ParseFileName(fn).Some?
    ensures r.Success? ==> r.value == ParseResult(fn, fs.files[fn], false).value
    ensures r.Failure? ==> r.error == (if fs.Read(fn).Failure? then fs.Read(fn).error else FileNameMismatch(fn))
  {
    var txt :- fs.Read(fn);
    ParseResult(fn, txt, false)
  }

  /** The `k`-th file is the first whose report cannot be produced. */
  predicate FailsFirstAt(fs: FileSystem, fns: seq<string>, k: int) {
    0 <= k < |fns| && FileReport(fs, fns[k]).Failure? &&
    forall j :: 0 <= j < k ==> FileReport(fs, fns[j]).Success?
  }

  /** The reports of files that can all be reported, in order. */
  function Reports(fs: FileSystem, fns: seq<string>): seq<string>
    requires forall k :: 0 <= k < |fns| ==> FileReport(fs, fns[k]).Success?
  {
    if fns == [] then []
    else
      RestReported(fs, fns);
      [FileReport(fs, fns[0]).value] + Reports(fs, fns[1..])
  }

  /** The loop of `get_log` over the files: every report concatenated in
      order; the first file that cannot be read or whose name does not
      parse raises, with that file's error. */
  function RenderFiles(fs: FileSystem, fns: seq<string>): (r: Result<string, Error>)
    ensures r.Success? <==> forall k :: 0 <= k < |fns| ==> FileReport(fs, fns[k]).Success?
    ensures r.Success? ==> r.value == Join(Reports(fs, fns), "")
    ensures r.Failure? ==> exists k :: FailsFirstAt(fs, fns, k) && r.error == FileReport(fs, fns[k]).error
    decreases |fns|
  {
    if fns == [] then Success("")
    else
      match FileReport(fs, fns[0])
      case Failure(e) =>
        assert FailsFirstAt(fs, fns, 0);
        Failure(e)
      case Success(one) =>
        match RenderFiles(fs, fns[1..])
        case Failure(e) =>
          FailureShifts(fs, fns, e);
          Failure(e)
        case Success(rest) =>
          AllReportedCons(fs, fns);
          ReportsCons(fs, fns);
          Success(one + rest)
  }

  /** A first failure among the later files is the first failure overall
      when the first file succeeds. */
  lemma FailureShifts(fs: FileSystem, fns: seq<string>, e: Error)
    requires fns != [] && FileReport(fs, fns[0]).Success?
    requires exists k :: FailsFirstAt(fs, fns[1..], k) && e == FileReport(fs, fns[1..][k]).error
    ensures exists k :: FailsFirstAt(fs, fns, k) && e == FileReport(fs, fns[k]).error
  {
    var k :| FailsFirstAt(fs, fns[1..], k) && e == FileReport(fs, fns[1..][k]).error;
    assert FailsFirstAt(fs, fns, k + 1);
  }

  lemma RestReported(fs: FileSystem, fns: seq<string>)
    requires fns != []
    requires forall k :: 0 <= k < |fns| ==> FileReport(fs, fns[k]).Success?
    ensures forall k :: 0 <= k < |fns| - 1 ==> FileReport(fs, fns[1..][k]).Success?
  {
    forall k | 0 <= k < |fns| - 1 ensures FileReport(fs, fns[1..][k]).Success? {
      assert fns[1..][k] == fns[k + 1];
    }
  }

  lemma AllReportedCons(fs: FileSystem, fns: seq<string>)
    requires fns != [] && FileReport(fs, fns[0]).Success?
    requires forall k :: 0 <= k < |fns| - 1 ==> FileReport(fs, fns[1..][k]).Success?
    ensures forall k :: 0 <= k < |fns| ==> FileReport(fs, fns[k]).Success?
  {
    forall k | 1 <= k < |fns| ensures FileReport(fs, fns[k]).Success? {
      assert fns[k] == fns[1..][k - 1];
    }
  }

  lemma ReportsCons(fs: FileSystem, fns: seq<string>)
    requires fns != []
    requires forall k :: 0 <= k < |fns| ==> FileReport(fs, fns[k]).Success?
    ensures Join(Reports(fs, fns), "") == FileReport(fs, fns[0]).value + Join(Reports(fs, fns[1..]), "")
  {
    JoinConcatCons(FileReport(fs, fns[0]).value, Reports(fs, fns[1..]));
  }

  /** `get_log`: the sentinel when there is no output file, otherwise every
      file's report, in glob order, inside one fenced block. */
  function GetLog(fs: FileSystem, dir: string): (r: Result<string, Error>)
    ensures LogFiles(fs, dir) == [] <==> r == Success(NoLog)
    ensures r.Failure? ==> LogFiles(fs, dir) != []
    ensures var fns := LogFiles(fs, dir);
            r.Success? <==> forall k :: 0 <= k < |fns| ==> FileReport(fs, fns[k]).Success?
    ensures var fns := LogFiles(fs, dir);
            r.Success? && fns != [] ==> r.value == Fence + Join(Reports(fs, fns), "") + Fence
    ensures var fns := LogFiles(fs, dir);
            r.Failure? ==> exists k :: FailsFirstAt(fs, fns, k) && r.error == FileReport(fs, fns[k]).error
    ensures r.Success? && LogFiles(fs, dir) != [] ==>
              |r.value| >= 2 * |Fence| && r.value[..|Fence|] == Fence && r.value[|r.value| - |Fence|..] == Fence
  {
    var fns := LogFiles(fs, dir);
    if fns == [] then Success(NoLog)
    else
      var body :- RenderFiles(fs, fns);
      Fenced(body);
      Success(Fence + body + Fence)
  }

  /** A fenced block starts and ends with a fence, so it is never the
      no-log sentinel. */
  lemma Fenced(body: string)
    ensures var t := Fence + body + Fence;
            |t| >= 2 * |Fence| && t[..|Fence|] == Fence && t[|t| - |Fence|..] == Fence && t != NoLog
  {
    var t := Fence + body + Fence;
    assert t[..|Fence|] == Fence;
    assert t[0] == '`' && NoLog[0] == '*';
  }

  /** A name the glob selects is `test-` + branch + `.py` + digit + `.out`. */
  lemma GlobbedNameShape(name: string)
    requires GlobMatch(name) && '\n' !in name
    ensures name == "test-" + name[5..|name| - 8] + ".py" + [name[|name| - 5]] + ".out"
    ensures '\n' !in name[5..|name| - 8]
  {
    var b := name[5..|name| - 8];
    assert name == name[..5] + b + name[|name| - 8..];
    assert name[|name| - 8..] == ".py" + [name[|name| - 5]] + ".out";
    forall k | 0 <= k < |b| ensures b[k] != '\n' {
      assert b[k] == name[k + 5];
    }
  }

  /** Dropping a trailing separator cannot create a `/test-` marker. */
  lemma DirPrefixNoMarker(dir: string)
    requires dir != [] && !Contains(dir, "/test-")
    ensures !Contains(dir[..|dir| - 1], "/test-")
  {
    if Contains(dir[..|dir| - 1], "/test-") {
      ContainsOfPrefix(dir, |dir| - 1, "/test-");
    }
  }

  /** The directory part that `PathJoin` puts before the separator. */
  function DirPart(dir: string): string
    requires dir != []
  {
    if dir[|dir| - 1] == '/' then dir[..|dir| - 1] else dir
  }

  /** A relative name is joined to a directory with exactly one separator. */
  lemma JoinUnderDir(dir: string, name: string)
    requires dir != [] && name != [] && name[0] != '/'
    ensures PathJoin(dir, name) == DirPart(dir) + "/" + name
  {
    assert !("/" <= name);
    if dir[|dir| - 1] == '/' {
      assert dir == DirPart(dir) + "/";
    }
  }

  /** Joining a globbed name to its directory yields the shape the report
      parser expects, with no earlier `/test-` marker. */
  lemma JoinedGlobbedName(dir: string, name: string)
    requires dir != [] && !Contains(dir, "/test-")
    requires GlobMatch(name) && '\n' !in name
    ensures PathJoin(dir, name) == DirPart(dir) + "/test-" + name[5..|name| - 8] + ".py" + [name[|name| - 5]] + ".out"
    ensures !Contains(DirPart(dir), "/test-")
  {
    GlobbedNameShape(name);
    JoinUnderDir(dir, name);
    if dir[|dir| - 1] == '/' {
      DirPrefixNoMarker(dir);
    }
  }

  /** Every name the glob selects parses: its wildcard part is the branch
      and its digit the python version. */
  lemma GlobbedNameParses(dir: string, name: string)
    requires dir != [] && !Contains(dir, "/test-")
    requires GlobMatch(name) && '\n' !in name
    ensures ParseFileName(PathJoin(dir, name)) == Some(FileName(name[5..|name| - 8], name[|name| - 5]))
  {
    GlobbedNameShape(name);
    JoinedGlobbedName(dir, name);
    ParseJoinedFileName(DirPart(dir), name[5..|name| - 8], name[|name| - 5]);
  }

  /** In a well-formed machine directory whose output files are all
      readable, `get_log` does not raise. */
  lemma GetLogSucceeds(fs: FileSystem, dir: string)
    requires dir != [] && !Contains(dir, "/test-")
    requires fs.IsDir(dir) ==> forall k :: 0 <= k < |fs.dirs[dir]| ==> '\n' !in fs.dirs[dir][k]
    requires forall fn :: fn in LogFiles(fs, dir) ==> fs.Read(fn).Success?
    ensures GetLog(fs, dir).Success?
  {
    var fns := LogFiles(fs, dir);
    if fns != [] {
      var names := Select(fs.dirs[dir], GlobMatch);
      forall k | 0 <= k < |fns| ensures FileReport(fs, fns[k]).Success? {
        assert fns[k] in fns;
        var n := names[k];
        assert n in multiset(names);
        assert n in multiset(fs.dirs[dir]);
        var j :| 0 <= j < |fs.dirs[dir]| && fs.dirs[dir][j] == n;
        GlobbedNameParses(dir, n);
      }
    }
  }
}
