/** The part of the operating system the commander touches: a snapshot of
    directories (their entries in listing order) and file contents, and
    the POSIX path helpers `os.path.join` and `os.path.basename`. */
module Fs {
  import opened Wrappers
  import opened Errors
  import opened Seqs

  /** `dirs` maps a directory to its entry names in `os.listdir` order;
      `files` maps a regular file to its contents as `open(p, 'r').read()`
      returns them: decoded text, with universal newlines already turned
      into "\n". A path in both is a directory. */
  datatype FileSystem = FileSystem(dirs: map<string, seq<string>>, files: map<string, string>) {

    predicate IsDir(p: string) {
      p in dirs
    }

    /** `os.path.exists` */
    predicate Exists(p: string) {
      p in dirs || p in files
    }

    /** `os.listdir` */
    function ListDir(p: string): (r: Result<seq<string>, Error>)
      ensures r.Success? <==> IsDir(p)
      ensures r.Success? ==> r.value == dirs[p]
      ensures r.Failure? ==> r.error == (if Exists(p) then NotADirectory(p) else NoSuchPath(p))
    {
      if p in dirs then Success(dirs[p])
      else if p in files then Failure(NotADirectory(p))
      else Failure(NoSuchPath(p))
    }

    /** `open(p).read()` */
    function Read(p: string): (r: Result<string, Error>)
      ensures r.Success? <==> p in files && !IsDir(p)
      ensures r.Success? ==> r.value == files[p]
      ensures r.Failure? ==> r.error == (if IsDir(p) then IsADirectory(p) else NoSuchPath(p))
    {
      if p in dirs then Failure(IsADirectory(p))
      else if p in files then Success(files[p])
      else Failure(NoSuchPath(p))
    }
  }

  /** `os.path.join(a, b)` on POSIX: an absolute `b` replaces `a`, and a
      separator is inserted unless `a` is empty or already ends in one. */
  function PathJoin(a: string, b: string): string {
    if "/" <= b then b
    else if a == [] || a[|a| - 1] == '/' then a + b
    else a + "/" + b
  }

  /** What a join promises: an absolute `b` wins; otherwise `a` is kept as a
      prefix, `b` is the tail, and a separator stands between them. */
  lemma PathJoinShape(a: string, b: string)
    ensures "/" <= b ==> PathJoin(a, b) == b
    ensures !("/" <= b) ==> a <= PathJoin(a, b)
    ensures var r := PathJoin(a, b); |b| <= |r| && r[|r| - |b|..] == b
    ensures var r := PathJoin(a, b); !("/" <= b) && a != [] ==> |r| > |b| && r[|r| - |b| - 1] == '/'
  {
  }

  /** Every name joined to one directory, in order. */
  function JoinAll(dir: string, names: seq<string>): (r: seq<string>)
    ensures |r| == |names|
    ensures forall k :: 0 <= k < |names| ==> r[k] == PathJoin(dir, names[k])
  {
    seq(|names|, k requires 0 <= k < |names| => PathJoin(dir, names[k]))
  }

  /** Joining keeps a subsequence a subsequence. */
  lemma {:induction false} JoinAllSubseq(dir: string, a: seq<string>, b: seq<string>)
    requires IsSubseq(a, b)
    ensures IsSubseq(JoinAll(dir, a), JoinAll(dir, b))
    decreases |b|
  {
    var ja, jb := JoinAll(dir, a), JoinAll(dir, b);
    if a != [] {
      assert jb[1..] == JoinAll(dir, b[1..]);
      if a[0] == b[0] && IsSubseq(a[1..], b[1..]) {
        assert ja[1..] == JoinAll(dir, a[1..]);
        JoinAllSubseq(dir, a[1..], b[1..]);
      } else {
        JoinAllSubseq(dir, a, b[1..]);
      }
    }
  }

  /** `os.path.basename`: everything after the last separator. */
  function Basename(p: string): (r: string)
    ensures '/' !in r
    ensures |r| <= |p| && r == p[|p| - |r|..]
    ensures |r| < |p| ==> p[|p| - |r| - 1] == '/'
  {
    if p == [] || p[|p| - 1] == '/' then ""
    else
      var q := p[..|p| - 1];
      var r := Basename(q);
      assert q[|q| - |r|..] == p[|p| - |r| - 1..|p| - 1];
      assert p[|p| - |r| - 1..] == p[|p| - |r| - 1..|p| - 1] + [p[|p| - 1]];
      assert |r| < |q| ==> q[|q| - |r| - 1] == p[|p| - |r| - 2];
      r + [p[|p| - 1]]
  }

  lemma BasenameStep(p: string)
    requires p != [] && p[|p| - 1] != '/'
    ensures Basename(p) == Basename(p[..|p| - 1]) + [p[|p| - 1]]
  {
  }

  lemma {:induction false} BasenameAfterSeparator(x: string, b: string)
    requires x == [] || x[|x| - 1] == '/'
    requires '/' !in b
    ensures Basename(x + b) == b
    decreases |b|
  {
    if b == [] {
      assert x + b == x;
    } else {
      var c, init := b[|b| - 1], b[..|b| - 1];
      assert c in b;
      assert b == init + [c];
      assert x + b == (x + init) + [c];
      BasenameStep(x + b);
      assert (x + b)[..|x + b| - 1] == x + init;
      BasenameAfterSeparator(x, init);
    }
  }


  /** The name a directory entry is joined under is its base name again. */
  lemma BasenameOfJoin(dir: string, name: string)
    requires '/' !in name
    ensures Basename(PathJoin(dir, name)) == name
  {
    assert !("/" <= name) by {
      if name != [] {
        assert name[0] in name;
      }
    }
    if dir == [] || dir[|dir| - 1] == '/' {
      assert PathJoin(dir, name) == dir + name;
      BasenameAfterSeparator(dir, name);
    } else {
      assert PathJoin(dir, name) == (dir + "/") + name;
      BasenameAfterSeparator(dir + "/", name);
    }
  }

  /** Joining distinct separator-free names under one directory gives
      distinct paths. */
  lemma PathJoinInjective(dir: string, a: string, b: string)
    requires '/' !in a && '/' !in b
    requires PathJoin(dir, a) == PathJoin(dir, b)
    ensures a == b
  {
    BasenameOfJoin(dir, a);
    BasenameOfJoin(dir, b);
  }
}
