/** `scan_machines`: registering the machine directories found under
    `maintenance/vagrant` of the repository checkout. */
module Discovery {
  import opened Wrappers
  import opened Errors
  import opened Seqs
  import opened Fs
  import opened Vagrant

  /** `os.path.join(root, 'maintenance', 'vagrant')` */
  function VagrantDir(root: string): string {
    PathJoin(PathJoin(root, "maintenance"), "vagrant")
  }

  function Paths(ms: seq<Machine>): (ps: seq<string>)
    ensures |ps| == |ms|
    ensures forall k :: 0 <= k < |ms| ==> ps[k] == ms[k].path
  {
    seq(|ms|, k requires 0 <= k < |ms| => ms[k].path)
  }

  /** The loop over the listing: stop at the first entry already registered
      before the scan (or rejected by `verify_path`), raise when the entry
      cannot be listed, otherwise register it as a machine that is not
      running. */
  function AddMachines(fs: FileSystem, dir: string, entries: seq<string>, active: seq<string>, acc: seq<Machine>): (r: Result<seq<Machine>, Error>)
    ensures r.Success? ==> acc <= r.value
    ensures r.Success? ==> forall k :: |acc| <= k < |r.value| ==> r.value[k].path !in active && !r.value[k].running
    decreases |entries|
  {
    if entries == [] then Success(acc)
    else
      var mp := PathJoin(dir, entries[0]);
      if mp in active then Success(acc)
      else
        match VerifyPath(fs, mp)
        case Failure(NotAVagrantFolder(_)) => Success(acc)
        case Failure(e) => Failure(e)
        case Success(_) => AddMachines(fs, dir, entries[1..], active, acc + [Machine(mp, false)])
  }

  /** `scan_machines` on the repository checkout at `root`, given the
      machines registered so far. */
  function ScanMachines(fs: FileSystem, root: string, machines: seq<Machine>): (r: Result<seq<Machine>, Error>)
    ensures !fs.Exists(VagrantDir(root)) ==> r == Failure(ScanRootMissing(VagrantDir(root)))
    ensures r.Success? ==> fs.IsDir(VagrantDir(root)) && machines <= r.value
    ensures r.Success? ==> forall k :: |machines| <= k < |r.value| ==>
              r.value[k].path !in Paths(machines) && !r.value[k].running
  {
    var dir := VagrantDir(root);
    if !fs.Exists(dir) then Failure(ScanRootMissing(dir))
    else
      var entries :- fs.ListDir(dir);
      AddMachines(fs, dir, entries, Paths(machines), machines)
  }

  /** How many leading entries of the listing are not registered yet. */
  function FreshCount(dir: string, entries: seq<string>, active: seq<string>): (n: nat)
    ensures n <= |entries|
  {
    Span(entries, e => PathJoin(dir, e) !in active)
  }

  /** The machines registered for the first `n` entries. */
  function NewMachines(dir: string, entries: seq<string>, n: nat): (ms: seq<Machine>)
    requires n <= |entries|
    ensures |ms| == n
  {
    seq(n, j requires 0 <= j < n => Machine(PathJoin(dir, entries[j]), false))
  }

  /** The loop registers exactly the entries before the first one already
      registered, and succeeds exactly when each of them is a directory. */
  lemma {:induction false} AddMachinesSpec(fs: FileSystem, dir: string, entries: seq<string>, active: seq<string>, acc: seq<Machine>)
    ensures var n := FreshCount(dir, entries, active);
            var r := AddMachines(fs, dir, entries, active, acc);
            (r.Success? <==> forall j :: 0 <= j < n ==> fs.IsDir(PathJoin(dir, entries[j]))) &&
            (r.Success? ==> r.value == acc + NewMachines(dir, entries, n))
    decreases |entries|
  {
    var n := FreshCount(dir, entries, active);
    if entries != [] {
      var mp := PathJoin(dir, entries[0]);
      if mp !in active {
        var rest := entries[1..];
        assert n == 1 + FreshCount(dir, rest, active);
        if fs.IsDir(mp) {
          var acc' := acc + [Machine(mp, false)];
          AddMachinesSpec(fs, dir, rest, active, acc');
          var m := FreshCount(dir, rest, active);
          assert NewMachines(dir, entries, n) == [Machine(mp, false)] + NewMachines(dir, rest, m);
          forall j | 0 <= j < n ensures fs.IsDir(PathJoin(dir, entries[j])) <==> (j == 0 || fs.IsDir(PathJoin(dir, rest[j - 1]))) {
          }
        }
      }
    }
  }

  /** `scan_machines` as a whole: it registers, in listing order, the
      entries before the first one already registered, and succeeds exactly
      when the machine directory and each of those entries are
      directories. */
  lemma ScanMachinesSpec(fs: FileSystem, root: string, machines: seq<Machine>)
    requires fs.IsDir(VagrantDir(root))
    ensures var dir := VagrantDir(root);
            var entries := fs.dirs[dir];
            var n := FreshCount(dir, entries, Paths(machines));
            var r := ScanMachines(fs, root, machines);
            (r.Success? <==> forall j :: 0 <= j < n ==> fs.IsDir(PathJoin(dir, entries[j]))) &&
            (r.Success? ==> r.value == machines + NewMachines(dir, entries, n))
  {
    var dir := VagrantDir(root);
    AddMachinesSpec(fs, dir, fs.dirs[dir], Paths(machines), machines);
  }

  /** Scanning again right after a successful scan changes nothing. */
  lemma ScanIdempotent(fs: FileSystem, root: string, machines: seq<Machine>)
    requires ScanMachines(fs, root, machines).Success?
    ensures var ms := ScanMachines(fs, root, machines).value;
            ScanMachines(fs, root, ms) == Success(ms)
  {
    var dir := VagrantDir(root);
    var entries := fs.dirs[dir];
    var ms := ScanMachines(fs, root, machines).value;
    ScanMachinesSpec(fs, root, machines);
    ScanMachinesSpec(fs, root, ms);
    var n := FreshCount(dir, entries, Paths(machines));
    if entries != [] {
      var mp := PathJoin(dir, entries[0]);
      if n == 0 {
        assert mp in Paths(machines);
        var k :| 0 <= k < |machines| && Paths(machines)[k] == mp;
        assert ms[k].path == mp;
      } else {
        assert ms[|machines|].path == mp;
      }
      assert Paths(ms)[..0] == [];
      assert FreshCount(dir, entries, Paths(ms)) == 0;
    }
  }

  /** Distinct plain names give distinct machine paths. */
  lemma NewPathsDistinct(dir: string, entries: seq<string>, n: nat)
    requires n <= |entries| && Distinct(entries)
    requires forall k :: 0 <= k < |entries| ==> '/' !in entries[k]
    ensures Distinct(Paths(NewMachines(dir, entries, n)))
  {
    var ps := Paths(NewMachines(dir, entries, n));
    forall i, j | 0 <= i < j < |ps| ensures ps[i] != ps[j] {
      if ps[i] == ps[j] {
        PathJoinInjective(dir, entries[i], entries[j]);
      }
    }
  }

  /** A scan keeps the registry free of duplicate paths, given a listing
      whose entries are distinct plain names. */
  lemma ScanKeepsPathsDistinct(fs: FileSystem, root: string, machines: seq<Machine>)
    requires fs.IsDir(VagrantDir(root))
    requires Distinct(fs.dirs[VagrantDir(root)])
    requires forall k :: 0 <= k < |fs.dirs[VagrantDir(root)]| ==> '/' !in fs.dirs[VagrantDir(root)][k]
    requires Distinct(Paths(machines))
    requires ScanMachines(fs, root, machines).Success?
    ensures Distinct(Paths(ScanMachines(fs, root, machines).value))
  {
    var dir := VagrantDir(root);
    var entries := fs.dirs[dir];
    var ms := ScanMachines(fs, root, machines).value;
    ScanMachinesSpec(fs, root, machines);
    var added := NewMachines(dir, entries, FreshCount(dir, entries, Paths(machines)));
    NewPathsDistinct(dir, entries, |added|);
    var ps, old', new' := Paths(ms), Paths(machines), Paths(added);
    assert ms == machines + added;
    forall i, j | 0 <= i < j < |ps| ensures ps[i] != ps[j] {
      if j < |machines| {
        assert ps[i] == old'[i] && ps[j] == old'[j];
      } else if i < |machines| {
        assert ps[i] == old'[i];
        assert ps[j] !in old';
      } else {
        assert ps[i] == new'[i - |machines|] && ps[j] == new'[j - |machines|];
      }
    }
  }
}
