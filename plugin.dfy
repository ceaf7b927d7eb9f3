/** The `Snapshot` object of `pytest_snapshot/plugin.py`: one per test, it holds the snapshot
    directory, the update flag and the names of the snapshots the test created or updated,
    compares values with stored snapshots in `assert_match`, and fails the test in
    `__exit__` when anything was created or updated. */
module Plugin {
  import opened Wrappers
  import Strings
  import opened Paths
  import opened Store

  /** The exceptions `assert_match` raises. */
  datatype AssertError =
    | SnapshotDirNotSet                            // `None.joinpath`: an AttributeError
    | InvalidSnapshotFile(path: Path)              // the path exists but is not a file
    | ValueMismatch(path: Path, diff: string)      // pytest's comparison message, kept opaque
    | SnapshotMissing(name: string, dir: Path)     // no snapshot outside update mode
    | FileSystem(error: FsError)                   // an OSError from mkdir or write_text

  /** The message of the AssertionErrors `assert_match` raises itself; the AttributeError
      and the operating system's errors carry texts that are not part of this model. */
  function AssertionText(e: AssertError): Option<string>
  {
    match e
    case InvalidSnapshotFile(p) => Some("invalid snapshot file " + ToString(p))
    case ValueMismatch(p, diff) =>
      Some(MismatchHeader(p) + "\n" + diff)
    case SnapshotMissing(name, dir) =>
      Some(MissingHeader(name, dir) + "\n" + RunHint)
    case _ => None
  }

  // The message literals below are written in pieces to keep the solver's work on long
  // string literals small; joined, they are the source's message text.
  function MismatchHeader(p: Path): string
  {
    "value does not match " + "the expected value in snapshot " + ToString(p)
  }

  const RunHint := "Run pytest with " + "--snapshot-update to create it."

  function MissingHeader(name: string, dir: Path): string
  {
    "Snapshot '" + name + "' doesn't exist in '" + ToString(dir) + "'."
  }

  /** The per-test state: `_created_snapshots`, `_updated_snapshots` and `_snapshot_dir`. */
  datatype Session = Session(created: seq<string>, updated: seq<string>, dir: Option<Path>)

  /** Names are recorded only once a directory is known. */
  ghost predicate SessionValid(s: Session)
  {
    (s.created != [] || s.updated != []) ==> s.dir.Some?
  }

  /** The reading of the `snapshot_dir` property. */
  function SnapshotDirOf(s: Session): Result<Path, string>
  {
    if s.dir.None? then Err("snapshot.snapshot_dir was not set.") else Ok(s.dir.value)
  }

  /** The outcome of one `assert_match` call, with the session and files after it. */
  datatype Step = Step(outcome: Result<(), AssertError>, session: Session, files: Files)

  /** `assert_match(value, name)` with the given update flag. `diff` is the message pytest's
      assertion rewriting attaches to the failed comparison `value == stored`; when it is
      empty (no rewriting), a mismatch is not reported. */
  function AssertMatchStep(s: Session, files: Files, update: bool, value: string, name: string, diff: string): Step
  {
    if s.dir.None? then Step(Err(SnapshotDirNotSet), s, files)
    else
      var path := JoinPath(s.dir.value, name);
      var stored := Lookup(files, path);
      if stored == Some(Dir) then Step(Err(InvalidSnapshotFile(path)), s, files)
      else if update then
        match MkdirResult(files, Parent(path))
        case Err(e) => Step(Err(FileSystem(e)), s, files)
        case Ok(files1) =>
          if stored.None? then
            Step(Ok(()), s.(created := s.created + [name]), files1[path := File(value)])
          else if stored.value.content != value then
            Step(Ok(()), s.(updated := s.updated + [name]), files1[path := File(value)])
          else Step(Ok(()), s, files1)
      else if stored.None? then Step(Err(SnapshotMissing(name, s.dir.value)), s, files)
      else if stored.value.content != value && diff != "" then
        Step(Err(ValueMismatch(path, diff)), s, files)
      else Step(Ok(()), s, files)
  }

  /** What `__exit__` does: returns False, returns None, or raises an AssertionError. */
  datatype ExitResult = ReturnsFalse | ReturnsNone | Raises(message: string)

  /** `'{}'.format(self._snapshot_dir)`. */
  function DirText(dir: Option<Path>): string
  {
    if dir.None? then "None" else ToString(dir.value)
  }

  function Header(kind: string, dir: Option<Path>): string
  {
    "The following snapshots were " + kind + " in '" + DirText(dir) + "':"
  }

  /** `'  ' + s for s in names`. */
  function Indented(names: seq<string>): seq<string>
  {
    seq(|names|, i requires 0 <= i < |names| => "  " + names[i])
  }

  /** The lines of the aggregate error: the created names under their header, then the
      updated names under theirs. */
  function ExitLines(s: Session): seq<string>
  {
    (if s.created != [] then [Header("created", s.dir)] + Indented(s.created) else []) +
    (if s.updated != [] then [Header("updated", s.dir)] + Indented(s.updated) else [])
  }

  /** `__exit__(exc_type, …)`; `excInFlight` is `exc_type is not None`. */
  function ExitStep(s: Session, excInFlight: bool): ExitResult
  {
    if excInFlight then ReturnsFalse
    else if s.created == [] && s.updated == [] then ReturnsNone
    else Raises(Strings.Join(ExitLines(s), '\n'))
  }

  class Snapshot {
    var createdSnapshots: seq<string>
    var updatedSnapshots: seq<string>
    const snapshotUpdate: bool
    var snapshotDir: Option<Path>

    ghost function State(): Session
      reads this
    {
      Session(createdSnapshots, updatedSnapshots, snapshotDir)
    }

    ghost predicate Valid()
      reads this
    {
      SessionValid(State())
    }

    /** `Snapshot(snapshot_update)`: nothing recorded and no directory yet. */
    constructor (snapshotUpdate: bool)
      ensures Valid()
      ensures State() == Session([], [], None)
      ensures this.snapshotUpdate == snapshotUpdate
    {
      createdSnapshots := [];
      updatedSnapshots := [];
      this.snapshotUpdate := snapshotUpdate;
      snapshotDir := None;
    }

    /** The `snapshot_dir` property: an AssertionError until the directory is set. */
    method GetSnapshotDir() returns (r: Result<Path, string>)
      ensures r.Err? <==> snapshotDir.None?
      ensures r.Ok? ==> r.value == snapshotDir.value
      ensures r.Err? ==> r.error == "snapshot.snapshot_dir was not set."
      ensures r == SnapshotDirOf(State())
    {
      if snapshotDir == None {
        return Err("snapshot.snapshot_dir was not set.");
      }
      return Ok(snapshotDir.value);
    }

    /** The `snapshot_dir` setter: stores `Path(value)`. */
    method SetSnapshotDir(value: string)
      requires Valid()
      modifies this
      ensures Valid()
      ensures State() == old(State()).(dir := Some(FromString(value)))
    {
      snapshotDir := Some(FromString(value));
    }

    /** `_snapshot_path`. */
    method SnapshotPath(name: string) returns (r: Result<Path, AssertError>)
      ensures snapshotDir.None? ==> r == Err(SnapshotDirNotSet)
      ensures snapshotDir.Some? ==> r == Ok(JoinPath(snapshotDir.value, name))
    {
      if snapshotDir == None {
        return Err(SnapshotDirNotSet);
      }
      return Ok(JoinPath(snapshotDir.value, name));
    }

    /** `assert_match(value, snapshot_name)`. `expectedOnRight` is the operand order of the
        comparison pytest reports, and `diff` its message. */
    method AssertMatch(fs: FileStore, value: string, name: string, expectedOnRight: bool, diff: string)
      returns (r: Result<(), AssertError>)
      requires Valid()
      modifies this, fs
      ensures Valid()
      ensures Step(r, State(), fs.files) ==
        AssertMatchStep(old(State()), old(fs.files), snapshotUpdate, value, name, diff)
    {
      var pathOr := SnapshotPath(name);
      if pathOr.Err? {
        return Err(pathOr.error);
      }
      var path := pathOr.value;

      var expected: Option<string>;
      var isFile := fs.IsFile(path);
      if isFile {
        var text := fs.ReadText(path);
        expected := Some(text);
      } else {
        var present := fs.Exists(path);
        if present {
          return Err(InvalidSnapshotFile(path));
        }
        expected := None;
      }

      if snapshotUpdate {
        ghost var before := fs.files;
        var made := fs.Mkdir(Parent(path));
        if made.Err? {
          return Err(FileSystem(made.error));
        }
        if expected.Some? {
          if expected.value != value {
            WriteAfterMkdir(before, path, value);
            var written := fs.WriteText(path, value);
            assert written.Ok?;
            updatedSnapshots := updatedSnapshots + [name];
          }
        } else {
          WriteAfterMkdir(before, path, value);
          var written := fs.WriteText(path, value);
          assert written.Ok?;
          createdSnapshots := createdSnapshots + [name];
        }
      } else {
        if expected.Some? {
          var same: bool;
          if expectedOnRight {
            same := value == expected.value;
          } else {
            same := expected.value == value;
          }
          var message := if same then "" else diff;
          if message != "" {
            return Err(ValueMismatch(path, message));
          }
        } else {
          return Err(SnapshotMissing(name, snapshotDir.value));
        }
      }
      return Ok(());
    }

    /** `__exit__`: builds the message line by line, as the source does. */
    method Exit(excInFlight: bool) returns (r: ExitResult)
      ensures r == ExitStep(State(), excInFlight)
    {
      if excInFlight {
        return ReturnsFalse;
      }
      if createdSnapshots != [] || updatedSnapshots != [] {
        var lines: seq<string> := [];
        if createdSnapshots != [] {
          lines := lines + [Header("created", snapshotDir)];
          for i := 0 to |createdSnapshots|
            invariant lines == [Header("created", snapshotDir)] + Indented(createdSnapshots[..i])
          {
            lines := lines + ["  " + createdSnapshots[i]];
            assert Indented(createdSnapshots[..i + 1]) == Indented(createdSnapshots[..i]) + ["  " + createdSnapshots[i]];
          }
          assert createdSnapshots[..|createdSnapshots|] == createdSnapshots;
        }
        ghost var first := lines;
        if updatedSnapshots != [] {
          lines := lines + [Header("updated", snapshotDir)];
          for i := 0 to |updatedSnapshots|
            invariant lines == first + [Header("updated", snapshotDir)] + Indented(updatedSnapshots[..i])
          {
            lines := lines + ["  " + updatedSnapshots[i]];
            assert Indented(updatedSnapshots[..i + 1]) == Indented(updatedSnapshots[..i]) + ["  " + updatedSnapshots[i]];
          }
          assert updatedSnapshots[..|updatedSnapshots|] == updatedSnapshots;
        }
        assert lines == ExitLines(State());
        return Raises(Strings.Join(lines, '\n'));
      }
      return ReturnsNone;
    }
  }

  /** Without a directory every call fails the same way and changes nothing. */
  lemma AssertMatchNeedsDir(s: Session, files: Files, update: bool, value: string, name: string, diff: string)
    requires s.dir.None?
    ensures AssertMatchStep(s, files, update, value, name, diff) == Step(Err(SnapshotDirNotSet), s, files)
  {
  }

  /** A directory where the snapshot file should be is an error in both modes. */
  lemma AssertMatchNotAFile(s: Session, files: Files, update: bool, value: string, name: string, diff: string)
    requires s.dir.Some? && Lookup(files, JoinPath(s.dir.value, name)) == Some(Dir)
    ensures AssertMatchStep(s, files, update, value, name, diff) ==
      Step(Err(InvalidSnapshotFile(JoinPath(s.dir.value, name))), s, files)
  {
  }

  /** Outside update mode nothing is ever written or recorded; a stored snapshot passes
      exactly when it equals the value (or pytest produced no message), and a missing one
      is reported with the test's directory. */
  lemma AssertMatchChecks(s: Session, files: Files, value: string, name: string, diff: string)
    requires s.dir.Some?
    ensures var st := AssertMatchStep(s, files, false, value, name, diff);
      var path := JoinPath(s.dir.value, name);
      st.session == s && st.files == files &&
      (Lookup(files, path).None? ==> st.outcome == Err(SnapshotMissing(name, s.dir.value))) &&
      (IsFileAt(files, path) ==>
         (st.outcome.Ok? <==> (Lookup(files, path).value.content == value || diff == "")) &&
         (st.outcome.Err? ==> st.outcome.error == ValueMismatch(path, diff)))
  {
  }

  /** In update mode a missing snapshot is written, with its directories, exactly when no
      file stands on the way; it is then recorded as created and the rest of the store is
      kept. */
  lemma AssertMatchCreates(s: Session, files: Files, value: string, name: string, diff: string)
    requires s.dir.Some?
    requires Lookup(files, JoinPath(s.dir.value, name)).None?
    ensures var st := AssertMatchStep(s, files, true, value, name, diff);
      var path := JoinPath(s.dir.value, name);
      (st.outcome.Ok? <==> forall j :: 0 < j <= |Parent(path).parts| ==> !IsFileAt(files, Prefix(Parent(path), j))) &&
      (st.outcome.Err? ==> st.outcome == Err(FileSystem(OsError(Parent(path)))) && st.session == s && st.files == files) &&
      (st.outcome.Ok? ==>
         st.session == s.(created := s.created + [name]) &&
         Lookup(st.files, path) == Some(File(value)) &&
         (forall j :: 0 < j <= |Parent(path).parts| ==> Lookup(st.files, Prefix(Parent(path), j)) == Some(Dir)) &&
         (forall q :: q in files ==> q in st.files && st.files[q] == files[q]))
  {
    var path := JoinPath(s.dir.value, name);
    MkdirSpec(files, Parent(path));
  }

  /** In update mode, in a real directory tree, an existing snapshot is overwritten and
      recorded as updated when it differs, and left alone, with nothing recorded, when it
      is equal. */
  lemma AssertMatchUpdates(s: Session, files: Files, value: string, name: string, diff: string)
    requires WellFormed(files)
    requires s.dir.Some? && IsFileAt(files, JoinPath(s.dir.value, name))
    ensures var st := AssertMatchStep(s, files, true, value, name, diff);
      var path := JoinPath(s.dir.value, name);
      var old_content := files[path].content;
      st.outcome.Ok? &&
      (old_content != value ==> st.session == s.(updated := s.updated + [name]) && st.files == files[path := File(value)]) &&
      (old_content == value ==> st.session == s && st.files == files)
  {
    var path := JoinPath(s.dir.value, name);
    MkdirParentOfExisting(files, path);
  }

  /** Every call keeps the store a real directory tree. */
  lemma AssertMatchWellFormed(s: Session, files: Files, update: bool, value: string, name: string, diff: string)
    requires WellFormed(files)
    ensures WellFormed(AssertMatchStep(s, files, update, value, name, diff).files)
  {
    if s.dir.Some? && update {
      var path := JoinPath(s.dir.value, name);
      if Lookup(files, path) != Some(Dir) && MkdirResult(files, Parent(path)).Ok? {
        MkdirWellFormed(files, Parent(path));
        if path.parts != [] {
          WriteAfterMkdir(files, path, value);
        }
      }
    }
  }

  /** Every call keeps the session's names tied to a directory. */
  lemma AssertMatchValid(s: Session, files: Files, update: bool, value: string, name: string, diff: string)
    requires SessionValid(s)
    ensures SessionValid(AssertMatchStep(s, files, update, value, name, diff).session)
    ensures AssertMatchStep(s, files, update, value, name, diff).session.dir == s.dir
  {
  }

  /** After a successful call in update mode, the same assertion outside update mode
      passes, whatever pytest's message, and changes nothing. */
  lemma UpdateThenCheck(s: Session, files: Files, value: string, name: string, diff: string, diff': string)
    requires WellFormed(files)
    requires AssertMatchStep(s, files, true, value, name, diff).outcome.Ok?
    ensures var st := AssertMatchStep(s, files, true, value, name, diff);
      AssertMatchStep(st.session, st.files, false, value, name, diff') == Step(Ok(()), st.session, st.files)
  {
    var path := JoinPath(s.dir.value, name);
    if Lookup(files, path).Some? {
      MkdirParentOfExisting(files, path);
    }
  }

  /** A test that creates a snapshot and then stores a different value under the same name
      in update mode records the name both as created and as updated. */
  lemma CreatedAndUpdated(s: Session, files: Files, v1: string, v2: string, name: string, diff: string)
    requires WellFormed(files)
    requires AssertMatchStep(s, files, true, v1, name, diff).outcome.Ok?
    requires s.dir.Some? && Lookup(files, JoinPath(s.dir.value, name)).None?
    requires v1 != v2
    ensures var st1 := AssertMatchStep(s, files, true, v1, name, diff);
      var st2 := AssertMatchStep(st1.session, st1.files, true, v2, name, diff);
      st2.outcome.Ok? && st2.session.created == s.created + [name] && st2.session.updated == s.updated + [name]
  {
    var st1 := AssertMatchStep(s, files, true, v1, name, diff);
    AssertMatchCreates(s, files, v1, name, diff);
    AssertMatchWellFormed(s, files, true, v1, name, diff);
    AssertMatchUpdates(st1.session, st1.files, v2, name, diff);
  }

  /** Setting the directory from the text of a path gives that path back. */
  lemma SetThenGetDir(s: Session, p: Path)
    requires AllSegments(p.parts)
    ensures SnapshotDirOf(s.(dir := Some(FromString(ToString(p))))) == Ok(p)
  {
    FromStringToString(p);
  }

  /** The aggregate error lists each created name, then each updated name, under one
      header per non-empty list. */
  lemma ExitLinesShape(s: Session)
    ensures var lines := ExitLines(s);
      var c := if s.created != [] then 1 + |s.created| else 0;
      |lines| == c + (if s.updated != [] then 1 + |s.updated| else 0) &&
      (s.created != [] ==>
         lines[0] == Header("created", s.dir) &&
         forall i :: 0 <= i < |s.created| ==> lines[1 + i] == "  " + s.created[i]) &&
      (s.updated != [] ==>
         lines[c] == Header("updated", s.dir) &&
         forall i :: 0 <= i < |s.updated| ==> lines[c + 1 + i] == "  " + s.updated[i])
  {
  }

  /** When no name and not the directory contain a line break, the lines of the
      AssertionError's message are exactly the lines built by `__exit__`. */
  lemma ExitMessageLines(s: Session)
    requires s.created != [] || s.updated != []
    requires '\n' !in DirText(s.dir)
    requires Strings.NoneContains(s.created, '\n') && Strings.NoneContains(s.updated, '\n')
    ensures ExitStep(s, false).Raises?
    ensures Strings.Split(ExitStep(s, false).message, '\n') == ExitLines(s)
  {
    var lines := ExitLines(s);
    ExitLinesShape(s);
    HeaderOneLine("created", s.dir);
    HeaderOneLine("updated", s.dir);
    forall k | 0 <= k < |lines| ensures '\n' !in lines[k] {
    }
    Strings.SplitJoin(lines, '\n');
  }

  /** `__exit__` raises exactly when no exception is in flight and something was created
      or updated; a fresh session never raises. */
  lemma ExitRaises(s: Session, excInFlight: bool)
    ensures ExitStep(s, excInFlight).Raises? <==> !excInFlight && (s.created != [] || s.updated != [])
    ensures ExitStep(s, excInFlight) == ReturnsFalse <==> excInFlight
    ensures ExitStep(Session([], [], s.dir), false) == ReturnsNone
  {
  }

  /** In a valid session a failing `__exit__` always knows the directory: both headers show
      its path, never `None`. */
  lemma ExitShowsDir(s: Session, kind: string)
    requires SessionValid(s)
    requires ExitStep(s, false).Raises?
    ensures s.dir.Some?
    ensures Header(kind, s.dir) == "The following snapshots were " + kind + " in '" + ToString(s.dir.value) + "':"
  {
  }

  lemma HeaderOneLine(kind: string, dir: Option<Path>)
    requires '\n' !in kind && '\n' !in DirText(dir)
    ensures '\n' !in Header(kind, dir)
  {
  }

  lemma MismatchHeaderOneLine(p: Path)
    requires '\n' !in ToString(p)
    ensures '\n' !in MismatchHeader(p)
  {
  }

  lemma MissingHeaderOneLine(name: string, dir: Path)
    requires '\n' !in name && '\n' !in ToString(dir)
    ensures '\n' !in MissingHeader(name, dir)
  {
  }

  lemma RunHintOneLine()
    ensures '\n' !in RunHint
  {
  }

  /** A mismatch message is one line naming the snapshot file, followed by pytest's message
      unchanged. */
  lemma MismatchMessageLines(p: Path, diff: string)
    requires '\n' !in ToString(p)
    ensures AssertionText(ValueMismatch(p, diff)).Some?
    ensures Strings.Split(AssertionText(ValueMismatch(p, diff)).value, '\n') ==
      [MismatchHeader(p)] + Strings.Split(diff, '\n')
  {
    var h := MismatchHeader(p);
    var text := h + "\n" + diff;
    MismatchHeaderOneLine(p);
    assert text == h + ['\n'] + diff;
    Strings.IndexOfAfter(h, '\n', diff);
    assert text[..|h|] == h;
    assert text[|h| + 1..] == diff;
  }

  /** A missing-snapshot message names the snapshot and the directory on its first line
      and says how to create it on the second. */
  lemma MissingMessageLines(name: string, dir: Path)
    requires '\n' !in name && '\n' !in ToString(dir)
    ensures AssertionText(SnapshotMissing(name, dir)).Some?
    ensures Strings.Split(AssertionText(SnapshotMissing(name, dir)).value, '\n') ==
      [MissingHeader(name, dir), RunHint]
  {
    var lines := [MissingHeader(name, dir), RunHint];
    MissingHeaderOneLine(name, dir);
    RunHintOneLine();
    assert Strings.Join(lines, '\n') == lines[0] + ['\n'] + lines[1];
    Strings.SplitJoin(lines, '\n');
  }
}
