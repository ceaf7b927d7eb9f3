/** The file system as `pytest_snapshot/plugin.py` uses it: a map from paths to entries,
    with the pathlib operations `is_file`, `exists`, `read_text`, `write_text` and
    `mkdir(parents=True, exist_ok=True)`. Text is stored as given: no encoding and no
    newline translation. */
module Store {
  import opened Wrappers
  import opened Paths

  datatype Entry = File(content: string) | Dir

  type Files = map<Path, Entry>

  /** An `OSError` raised by a file-system call on `path`. */
  datatype FsError = OsError(path: Path)

  /** What is at `p`: the root (or the current directory) always exists as a directory. */
  function Lookup(files: Files, p: Path): Option<Entry>
  {
    if p.parts == [] then Some(Dir)
    else if p in files then Some(files[p])
    else None
  }

  /** A real directory tree: every entry sits in an existing directory. */
  ghost predicate WellFormed(files: Files)
  {
    forall p :: p in files ==> p.parts != [] && Lookup(files, Parent(p)) == Some(Dir)
  }

  predicate IsFileAt(files: Files, p: Path)
  {
    Lookup(files, p).Some? && Lookup(files, p).value.File?
  }

  /** Some directory on the way to `p`, below the first `n` segments, is a file. The
      system call refuses such a path before it creates anything. */
  predicate FileOnWay(files: Files, p: Path, n: nat)
    requires n <= |p.parts|
    decreases |p.parts| - n
  {
    n < |p.parts| && (IsFileAt(files, Prefix(p, n + 1)) || FileOnWay(files, p, n + 1))
  }

  /** Creates, top down, each missing directory on the way to `p` below the first `n`
      segments. */
  function AddDirs(files: Files, p: Path, n: nat): Files
    requires n <= |p.parts|
    decreases |p.parts| - n
  {
    if n == |p.parts| then files
    else
      var q := Prefix(p, n + 1);
      AddDirs(if Lookup(files, q).None? then files[q := Dir] else files, p, n + 1)
  }

  /** `mkdir(parents=True, exist_ok=True)`: existing directories are accepted, missing ones
      are created, and a file on the way fails. */
  function MkdirResult(files: Files, p: Path): Result<Files, FsError>
  {
    if FileOnWay(files, p, 0) then Err(OsError(p)) else Ok(AddDirs(files, p, 0))
  }

  /** `write_text`: the parent must be a directory and the path must not be one. */
  function WriteResult(files: Files, p: Path, text: string): Result<Files, FsError>
  {
    if p.parts == [] || Lookup(files, Parent(p)) != Some(Dir) || Lookup(files, p) == Some(Dir)
    then Err(OsError(p))
    else Ok(files[p := File(text)])
  }

  lemma {:induction false} FileOnWaySpec(files: Files, p: Path, n: nat)
    requires n <= |p.parts|
    ensures FileOnWay(files, p, n) <==> exists j :: n < j <= |p.parts| && IsFileAt(files, Prefix(p, j))
    decreases |p.parts| - n
  {
    if n < |p.parts| {
      FileOnWaySpec(files, p, n + 1);
    }
  }

  /** When no file is in the way, directory creation makes every directory on the way
      exist, leaves everything that existed as it was and adds only those directories. */
  lemma {:induction false} AddDirsSpec(files: Files, p: Path, n: nat)
    requires n <= |p.parts|
    requires !FileOnWay(files, p, n)
    ensures var files' := AddDirs(files, p, n);
      (forall j :: n < j <= |p.parts| ==> Lookup(files', Prefix(p, j)) == Some(Dir)) &&
      (forall q :: q in files ==> q in files' && files'[q] == files[q]) &&
      (forall q :: q in files' && q !in files ==>
         (files'[q] == Dir && exists j :: n < j <= |p.parts| && q == Prefix(p, j)))
    decreases |p.parts| - n
  {
    if n < |p.parts| {
      var q := Prefix(p, n + 1);
      var next := if Lookup(files, q).None? then files[q := Dir] else files;
      forall j | n + 1 < j <= |p.parts|
        ensures Lookup(next, Prefix(p, j)) == Lookup(files, Prefix(p, j))
      {
        assert |Prefix(p, j).parts| != |q.parts|;
      }
      FileOnWaySpec(files, p, n + 1);
      FileOnWaySpec(next, p, n + 1);
      AddDirsSpec(next, p, n + 1);
    }
  }

  /** The whole contract of `mkdir(parents=True, exist_ok=True)`. */
  lemma MkdirSpec(files: Files, p: Path)
    ensures MkdirResult(files, p).Ok? <==> forall j :: 0 < j <= |p.parts| ==> !IsFileAt(files, Prefix(p, j))
    ensures MkdirResult(files, p).Ok? ==>
      var files' := MkdirResult(files, p).value;
      (forall j :: 0 < j <= |p.parts| ==> Lookup(files', Prefix(p, j)) == Some(Dir)) &&
      (forall q :: q in files ==> q in files' && files'[q] == files[q]) &&
      (forall q :: q in files' && q !in files ==>
         (files'[q] == Dir && exists j :: 0 < j <= |p.parts| && q == Prefix(p, j)))
  {
    FileOnWaySpec(files, p, 0);
    if !FileOnWay(files, p, 0) {
      AddDirsSpec(files, p, 0);
    }
  }

  /** In a real directory tree, every ancestor of an existing entry is a directory. */
  lemma {:induction false} AncestorsAreDirs(files: Files, p: Path, n: nat)
    requires WellFormed(files)
    requires Lookup(files, p).Some?
    requires n < |p.parts|
    ensures Lookup(files, Prefix(p, n)) == Some(Dir)
    decreases |p.parts| - n
  {
    var up := Parent(p);
    assert Lookup(files, up) == Some(Dir);
    if n < |up.parts| {
      AncestorsAreDirs(files, up, n);
      assert Prefix(up, n) == Prefix(p, n);
    } else {
      assert Prefix(p, n) == up;
    }
  }

  /** Creating the parent directory of an existing entry changes nothing. */
  lemma MkdirParentOfExisting(files: Files, p: Path)
    requires WellFormed(files)
    requires Lookup(files, p).Some? && p.parts != []
    ensures MkdirResult(files, Parent(p)) == Ok(files)
  {
    var up := Parent(p);
    forall j | 0 < j <= |up.parts| ensures Lookup(files, Prefix(up, j)) == Some(Dir) {
      AncestorsAreDirs(files, p, j);
      assert Prefix(up, j) == Prefix(p, j);
    }
    AddDirsNoOp(files, up, 0);
    FileOnWaySpec(files, up, 0);
  }

  lemma {:induction false} AddDirsNoOp(files: Files, p: Path, n: nat)
    requires n <= |p.parts|
    requires forall j :: n < j <= |p.parts| ==> Lookup(files, Prefix(p, j)) == Some(Dir)
    ensures AddDirs(files, p, n) == files
    decreases |p.parts| - n
  {
    if n < |p.parts| {
      AddDirsNoOp(files, p, n + 1);
    }
  }

  /** Directory creation keeps the tree well formed. */
  lemma MkdirWellFormed(files: Files, p: Path)
    requires WellFormed(files)
    requires MkdirResult(files, p).Ok?
    ensures WellFormed(MkdirResult(files, p).value)
  {
    MkdirSpec(files, p);
    var files' := MkdirResult(files, p).value;
    forall q | q in files' ensures q.parts != [] && Lookup(files', Parent(q)) == Some(Dir) {
      if q in files {
        assert Lookup(files, Parent(q)) == Some(Dir);
        if Parent(q).parts != [] {
          assert Parent(q) in files;
        }
      } else {
        var j :| 0 < j <= |p.parts| && q == Prefix(p, j);
        if j > 1 {
          assert Parent(q) == Prefix(p, j - 1);
        }
      }
    }
  }

  /** After directory creation, writing a file into the created directory succeeds, and
      keeps the tree well formed. */
  lemma WriteAfterMkdir(files: Files, p: Path, text: string)
    requires p.parts != []
    requires MkdirResult(files, Parent(p)).Ok?
    requires Lookup(files, p) != Some(Dir)
    ensures var files' := MkdirResult(files, Parent(p)).value;
      WriteResult(files', p, text) == Ok(files'[p := File(text)])
    ensures WellFormed(files) ==> WellFormed(MkdirResult(files, Parent(p)).value[p := File(text)])
  {
    var up := Parent(p);
    MkdirSpec(files, up);
    var files' := MkdirResult(files, up).value;
    if |up.parts| > 0 {
      assert Prefix(up, |up.parts|) == up;
    }
    assert Lookup(files', up) == Some(Dir);
    assert Lookup(files', p) != Some(Dir) by {
      forall j | 0 < j <= |up.parts| ensures p != Prefix(up, j) {
        assert |Prefix(up, j).parts| < |p.parts|;
      }
    }
    if WellFormed(files) {
      MkdirWellFormed(files, up);
      var files2: Files := files'[p := File(text)];
      forall q: Path | q in files2 ensures q.parts != [] && Lookup(files2, Parent(q)) == Some(Dir) {
        if q != p {
          assert Lookup(files', Parent(q)) == Some(Dir);
          assert Parent(q) != p;
        }
      }
    }
  }

  /** The file-system object the plugin works on. */
  class FileStore {
    var files: Files

    constructor (files: Files)
      ensures this.files == files
    {
      this.files := files;
    }

    /** `path.is_file()`. */
    method IsFile(p: Path) returns (r: bool)
      ensures r <==> Lookup(files, p).Some? && Lookup(files, p).value.File?
    {
      r := p.parts != [] && p in files && files[p].File?;
    }

    /** `path.exists()`. */
    method Exists(p: Path) returns (r: bool)
      ensures r <==> Lookup(files, p).Some?
    {
      r := p.parts == [] || p in files;
    }

    /** `path.read_text()` on a file. */
    method ReadText(p: Path) returns (text: string)
      requires Lookup(files, p).Some? && Lookup(files, p).value.File?
      ensures Lookup(files, p) == Some(File(text))
    {
      text := files[p].content;
    }

    /** `path.write_text(text)`. */
    method WriteText(p: Path, text: string) returns (r: Result<(), FsError>)
      modifies this
      ensures WriteResult(old(files), p, text).Ok? ==>
        r == Ok(()) && files == WriteResult(old(files), p, text).value
      ensures WriteResult(old(files), p, text).Err? ==>
        r == Err(WriteResult(old(files), p, text).error) && files == old(files)
    {
      if p.parts == [] || Lookup(files, Parent(p)) != Some(Dir) || Lookup(files, p) == Some(Dir) {
        return Err(OsError(p));
      }
      files := files[p := File(text)];
      return Ok(());
    }

    /** `path.mkdir(parents=True, exist_ok=True)`: the path is resolved first, so a file on
        the way fails before anything is created; then the missing directories are created
        top down. */
    method Mkdir(p: Path) returns (r: Result<(), FsError>)
      modifies this
      ensures MkdirResult(old(files), p).Ok? ==>
        r == Ok(()) && files == MkdirResult(old(files), p).value
      ensures MkdirResult(old(files), p).Err? ==>
        r == Err(MkdirResult(old(files), p).error) && files == old(files)
    {
      var n := 0;
      while n < |p.parts|
        invariant 0 <= n <= |p.parts|
        invariant FileOnWay(files, p, 0) == FileOnWay(files, p, n)
      {
        var e := Lookup(files, Prefix(p, n + 1));
        if e.Some? && e.value.File? {
          return Err(OsError(p));
        }
        n := n + 1;
      }
      ghost var start := files;
      n := 0;
      while n < |p.parts|
        invariant 0 <= n <= |p.parts|
        invariant AddDirs(files, p, n) == AddDirs(start, p, 0)
      {
        var q := Prefix(p, n + 1);
        if Lookup(files, q).None? {
          files := files[q := Dir];
        }
        n := n + 1;
      }
      return Ok(());
    }
  }
}
