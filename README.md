# pytest-snapshot in Dafny

A model of the core of pytest-snapshot:

- the `snapshot` fixture's `Snapshot` object, which compares a test's value with a stored
  snapshot file and, in `--snapshot-update` mode, writes the file instead;
- the helpers in `pytest_snapshot/_utils.py`.

`Snapshot` records the names of the snapshots it created or updated. When the test ends
without an exception, it fails the test by listing them.

Modules:

- `Wrappers`: `Option` and `Result`.
- `Strings`: `str.split` and `str.join` for a separator character, with both round trips.
- `Filenames`: the check `might_be_valid_filename` and the sanitiser `get_valid_filename`.
- `Versions`:
  - `simple_version_parse`, which reads the pattern `([0-9]+)\.([0-9]+)\.([0-9]+)` at the
    start of a string;
  - `_pytest_expected_on_right`, which compares pytest's version with 5.4.0.
- `Flatten`:
  - nested dictionaries, as `Tree` values whose items are held in insertion order;
  - `flatten_dict`, and its recursive worker `_flatten_dict` written as a method with a
    loop over a shared result list and key prefix;
  - `flatten_filesystem_dict`, which validates keys and joins paths with `/`.
- `Paths`: the part of `pathlib.Path` the plugin uses: `Path(str)`, `joinpath`, `parent`,
  `str()`.
- `Store`: the file system as a map from paths to files and directories:
  - `is_file`, `exists`, `read_text`, `write_text`, and `mkdir(parents=True, exist_ok=True)`,
    as methods of a `FileStore` class that change its map;
  - a well-formedness invariant: every entry sits in a directory.
- `Plugin`:
  - the `Snapshot` class, with its fields, property, `assert_match` and `__exit__`;
  - the functions that specify them: `AssertMatchStep` and `ExitStep`;
  - the lemmas about those functions.

Behaviour the model follows from the code:

- **A name can be recorded in both lists.** In update mode, a test that first creates a
  snapshot and then stores a different value under the same name records that name as
  created and also as updated (`Plugin.CreatedAndUpdated`), because the code appends to
  each list without looking at the other.
- **A mismatch is only reported when there is a message.** When the value differs from
  the stored snapshot, `assert_match` fails only if the AssertionError raised by
  `assert value == expected` has a non-empty text. That text comes from pytest's assertion
  rewriting. The model takes it as the parameter `diff`, and an empty `diff` lets the call
  pass.
- **A directory that was never set is an AttributeError.** `assert_match` calls
  `self._snapshot_dir.joinpath` directly, so an unset directory raises AttributeError, not
  the property's AssertionError. The model calls this error `SnapshotDirNotSet`.
- **`__exit__` always prints the directory.** The messages print `self._snapshot_dir`
  with `'{}'.format`. The model shows an unset directory as `None` (`Plugin.DirText`).

## Model

| member | source | states |
|---|---|---|
| Filenames.MightBeValidFilename | pytest_snapshot/_utils.py:37-49 | true exactly when the name is not empty, not `.` or `..`, and has none of the characters `\ / : * ? " < > \|` |
| Filenames.ContainsAnyOf | pytest_snapshot/_utils.py:48 | true exactly when some character of the string is one of the given characters |
| Filenames.ValidFilenameHasNoSlash | pytest_snapshot/_utils.py:37-49 | a name that passes the check holds no `/` and is not empty, so it is a single path segment |
| Filenames.GetValidFilename | pytest_snapshot/_utils.py:26-34 | the result is never `''`, `.` or `..`, holds only `-`, `.` and word characters, and holds no space |
| Filenames.Cleaned | pytest_snapshot/_utils.py:31-32 | definition: strip, then spaces to `_`, then the unsafe characters dropped; `GetValidFilenameCleaned` ties the result to it |
| Filenames.GetValidFilenameCleaned | pytest_snapshot/_utils.py:31-33 | a name that cleans to `''`, `.` or `..` becomes `empty`, `dot` or `dotdot`; every other name becomes its cleaned form, unchanged |
| Filenames.IsSpace | pytest_snapshot/_utils.py:31 | definition of `str.isspace` for one character: the set of characters `strip()` removes; `StripLeftSpec` and `StripRightSpec` are stated over it |
| Filenames.StripLeft | pytest_snapshot/_utils.py:31 | definition of `lstrip`; what it removes is stated by `StripLeftSpec` |
| Filenames.StripRight | pytest_snapshot/_utils.py:31 | definition of `rstrip`; what it removes is stated by `StripRightSpec` |
| Filenames.Strip | pytest_snapshot/_utils.py:31 | definition of `strip` as `rstrip` after `lstrip` |
| Filenames.StripLeftSpec | pytest_snapshot/_utils.py:31 | `lstrip` removes exactly the longest run of leading whitespace (Python's whitespace set) |
| Filenames.StripRightSpec | pytest_snapshot/_utils.py:31 | `rstrip` removes exactly the longest run of trailing whitespace |
| Filenames.GetValidFilenameSpace | pytest_snapshot/_utils.py:31-34 | two non-empty clean words joined by a space come out joined by `_` |
| Filenames.ReplaceSpaces | pytest_snapshot/_utils.py:31 | definition of `.replace(' ', '_')`; `GetValidFilenameSpace` shows a space between two words becoming `_` |
| Filenames.IsKept | pytest_snapshot/_utils.py:32 | definition of the characters outside the negated class `[^-\w.]`, which `re.sub` keeps; `RemoveUnsafeOne` states which ones survive |
| Filenames.RemoveUnsafe | pytest_snapshot/_utils.py:32 | the result is no longer than the input and keeps only `-`, `.` and word characters |
| Filenames.RemoveUnsafeAppend | pytest_snapshot/_utils.py:32 | the substitution of `a + b` is that of `a` followed by that of `b` |
| Filenames.RemoveUnsafeOne | pytest_snapshot/_utils.py:32 | a single character is kept exactly when it is `-`, `.` or a word character; with `RemoveUnsafeAppend`, the result is the input's safe characters in order |
| Filenames.KeptIsValid | pytest_snapshot/_utils.py:37-49 | a name of `-`, `.` and word characters, other than `''`, `.` and `..`, passes `might_be_valid_filename` |
| Filenames.RemoveUnsafeKeepsSafe | pytest_snapshot/_utils.py:32 | a string made only of kept characters is left unchanged |
| Filenames.ReservedPlaceholder | pytest_snapshot/_utils.py:33 | `''` becomes `empty`, `.` becomes `dot`, `..` becomes `dotdot`, and any other name is returned as it is; so the result is none of the three and keeps only safe characters |
| Filenames.GetValidFilenameIsValid | pytest_snapshot/_utils.py:26-49 | what `get_valid_filename` returns always passes `might_be_valid_filename` |
| Filenames.GetValidFilenameFixesSafe | pytest_snapshot/_utils.py:26-34 | a clean name (only `-`, `.` and word characters; not `''`, `.` or `..`) is returned unchanged |
| Filenames.GetValidFilenameIdempotent | pytest_snapshot/_utils.py:26-34 | sanitising twice gives the same as sanitising once |
| Filenames.GetValidFilenameBlank | pytest_snapshot/_utils.py:31-33 | any all-whitespace name, the empty one included, becomes `empty` |
| Filenames.GetValidFilenameDots | pytest_snapshot/_utils.py:33 | `.` becomes `dot` and `..` becomes `dotdot` |
| Filenames.GetValidFilenameSpacedDot | pytest_snapshot/_utils.py:31-33 | `" . "` cleans to `.` and so becomes `dot` |
| Filenames.StripExample | pytest_snapshot/_utils.py:31 | `" a b?".strip()` is `"a b?"` |
| Filenames.RemoveUnsafeExample | pytest_snapshot/_utils.py:32 | the substitution turns `a_b?` into `a_b` |
| Filenames.GetValidFilenameExample | pytest_snapshot/_utils.py:26-34 | `" a b?"` becomes `a_b` |
| Versions.DigitsValue | pytest_snapshot/_utils.py:61 | definition of `int()` on a string of decimal digits |
| Versions.Component | pytest_snapshot/_utils.py:8 | definition of one greedy `[0-9]+` group: its value and the rest, or nothing |
| Versions.DotComponent | pytest_snapshot/_utils.py:8 | definition of `\.` followed by one group |
| Versions.DigitRun | pytest_snapshot/_utils.py:8 | the length of the longest run of digits at the start: all digits, followed by a non-digit or the end |
| Versions.ShowNat | pytest_snapshot/_utils.py:61 | a number's decimal text is non-empty and all digits |
| Versions.ShowNatValue | pytest_snapshot/_utils.py:61 | `int()` of a number's decimal text is the number |
| Versions.SimpleVersionParse | pytest_snapshot/_utils.py:52-61 | a failure is always the error `Unsupported version format` |
| Versions.DigitRunStopsAtDot | pytest_snapshot/_utils.py:8 | a greedy digit group ends at the dot that follows the digits |
| Versions.DotComponentAt | pytest_snapshot/_utils.py:8 | a `.` followed by a digit group, found at an offset of the string: where the digits lie and where they end |
| Versions.ParsedGroups | pytest_snapshot/_utils.py:57-61 | a successful parse has read a digit run and then two dot groups |
| Versions.ParsedMatches | pytest_snapshot/_utils.py:57-61 | when the parse succeeds, the pattern matches a prefix of the string |
| Versions.MatchedParses | pytest_snapshot/_utils.py:57-61 | when the pattern matches a prefix, the parse succeeds |
| Versions.SimpleVersionParseMatches | pytest_snapshot/_utils.py:57-59 | the parse succeeds exactly when the pattern matches a prefix of the string |
| Versions.ComponentOfShown | pytest_snapshot/_utils.py:61 | a number's text followed by a non-digit reads back as that number and the rest |
| Versions.DotComponentOfShown | pytest_snapshot/_utils.py:61 | the same, after a leading dot |
| Versions.SimpleVersionParseShown | pytest_snapshot/_utils.py:52-61 | `major.minor.patch` followed by anything that does not continue the patch number parses back to the same three numbers |
| Versions.SimpleVersionParseDevRelease | pytest_snapshot/_utils.py:52-61 | `6.2.5.dev1` parses to (6, 2, 5): trailing text is ignored |
| Versions.SimpleVersionParseRejects | pytest_snapshot/_utils.py:57-59 | `v5.4.0` and `5.4` are refused |
| Versions.TupleLess | pytest_snapshot/_utils.py:80 | definition of Python's `<` on tuples of integers; `TupleLessThree` states it for three components |
| Versions.TupleLessThree | pytest_snapshot/_utils.py:80 | Python's `<` on 3-tuples is the lexicographic order |
| Versions.PytestExpectedOnRight | pytest_snapshot/_utils.py:64-80 | true for an unparseable version; otherwise true exactly when the version is at least 5.4 (the patch number does not matter) |
| Flatten.SizeOfChild | pytest_snapshot/_utils.py:109-110 | a sub-dict is smaller than the dict that holds it, so the recursion ends |
| Flatten.Flat | pytest_snapshot/_utils.py:104-113 | definition of the pairs `_flatten_dict` appends; `FlattenInto` is proved against it |
| Flatten.FlatAppend | pytest_snapshot/_utils.py:107-113 | flattening the items of `a + b` gives the pairs of `a` followed by those of `b` |
| Flatten.FlatOne | pytest_snapshot/_utils.py:108-112 | one item gives its own pair, or the pairs of the sub-dict under the extended prefix |
| Flatten.FlattenInto | pytest_snapshot/_utils.py:104-113 | appends to `result` exactly the pairs of `Flat(prefix, obj)`: one `(path, value)` per non-dict value, depth first, in insertion order; the shared prefix is returned as it was given |
| Flatten.FlattenDict | pytest_snapshot/_utils.py:83-101 | the result is `Flat([], d)` |
| Flatten.FlatLength | pytest_snapshot/_utils.py:83-113 | one pair per non-dict value |
| Flatten.FlatPathShape | pytest_snapshot/_utils.py:104-113 | every path extends the prefix by at least one key |
| Flatten.DistinctConcat | pytest_snapshot/_utils.py:107-113 | concatenating two pair lists with distinct paths, no path shared between them, gives distinct paths |
| Flatten.SubtreePathKey | pytest_snapshot/_utils.py:107-112 | the paths of a sub-dict continue the prefix with that sub-dict's key |
| Flatten.FlatDistinct | pytest_snapshot/_utils.py:83-113 | in a real dict (each key once per level) every path is produced once |
| Flatten.FlatIgnoresEmptySubdict | pytest_snapshot/_utils.py:89-96 | an empty sub-dict contributes no pairs |
| Flatten.FlatDoctest | pytest_snapshot/_utils.py:89-96 | `{'a': 1, 'b': {'c': 2}, 'd': {}}` gives `[(['a'], 1), (['b', 'c'], 2)]` |
| Flatten.FirstInvalid | pytest_snapshot/_utils.py:134-135 | the index of the first key that fails `might_be_valid_filename`, or the length when all pass |
| Flatten.FirstInvalidAt | pytest_snapshot/_utils.py:134-135 | the first failing index is exactly the one before which all keys pass |
| Flatten.FsFold | pytest_snapshot/_utils.py:133-138 | definition of the outer loop as a fold over the flattened pairs; its properties are `FsFoldErr`, `FsFoldOk` and `FsFoldKeeps` |
| Flatten.FlattenFs | pytest_snapshot/_utils.py:116-140 | definition of `flatten_filesystem_dict` as a value: the fold over `Flat([], d)` |
| Flatten.FlattenFilesystemDict | pytest_snapshot/_utils.py:116-140 | the result equals `FlattenFs(d)`, the fold over the flattened pairs |
| Flatten.FsFoldErr | pytest_snapshot/_utils.py:133-138 | the fold fails exactly when some key on some path is invalid; it then names the first invalid key of the first such path, with the keys above it |
| Flatten.JoinedPathsCons | pytest_snapshot/_utils.py:138 | the joined paths of a list are those of its head and of its tail |
| Flatten.FsFoldOk | pytest_snapshot/_utils.py:133-138 | on success the keys are the old keys plus every joined path, and a path that no later pair produces holds its own value |
| Flatten.FsFoldKeeps | pytest_snapshot/_utils.py:138 | a key that no later path produces keeps its value |
| Flatten.FlattenFsErr | pytest_snapshot/_utils.py:116-140 | `flatten_filesystem_dict` raises exactly when a key on the path of a non-dict value is invalid, and names the first one in flattening order |
| Flatten.JoinsDistinct | pytest_snapshot/_utils.py:135-138 | valid keys hold no `/`, so distinct paths join to distinct strings |
| Flatten.JoinedPathsCount | pytest_snapshot/_utils.py:138 | distinct joined paths give as many keys as pairs |
| Flatten.FlattenFsOk | pytest_snapshot/_utils.py:116-140 | on success in a real dict there is one entry per non-dict value, keyed by its `/`-joined path and holding that value |
| Flatten.FlattenFsIgnoresEmptySubdict | pytest_snapshot/_utils.py:133-137 | keys that lead only to an empty dict are never checked: such an entry does not change the outcome |
| Flatten.FlattenFsTwoLevels | pytest_snapshot/_utils.py:116-140 | a file beside a directory holding one file, all with valid names, gives the file under its name and the inner file under `dir/name` |
| Flatten.File1Valid | pytest_snapshot/_utils.py:125 | `file1.txt` is a valid file name |
| Flatten.Dir1Valid | pytest_snapshot/_utils.py:126 | `dir1` is a valid file name |
| Flatten.File2Valid | pytest_snapshot/_utils.py:127 | `file2.txt` is a valid file name |
| Flatten.FlatFsDoctest | pytest_snapshot/_utils.py:124-130 | the doctest's dict flattens to `[(['file1.txt'], '111'), (['dir1', 'file2.txt'], '222')]` |
| Flatten.FlattenFsDoctest | pytest_snapshot/_utils.py:124-130 | `{'file1.txt': '111', 'dir1': {'file2.txt': '222'}}` gives `{'file1.txt': '111', 'dir1/file2.txt': '222'}` |
| Flatten.FlattenFsRejectsSlash | pytest_snapshot/_utils.py:135-137 | the key `sub/x` is refused and reported with no parent keys |
| Strings.IndexOf | pytest_snapshot/_utils.py:138 | the first index of the separator, or the length when there is none |
| Strings.Join | pytest_snapshot/_utils.py:138 | definition of `sep.join(parts)` for a separator character; its partners are `SplitJoin`, `JoinInjective` and `JoinSplit` |
| Strings.Split | pytest_snapshot/_utils.py:138 | at least one piece, and no piece holds the separator |
| Strings.SplitJoin | pytest_snapshot/_utils.py:138 | splitting what `join` built gives the parts back, when no part holds the separator |
| Strings.JoinInjective | pytest_snapshot/_utils.py:138 | `join` is injective on non-empty lists whose parts hold no separator |
| Strings.JoinSplit | pytest_snapshot/plugin.py:54 | joining the pieces of a split gives the string back |
| Strings.SplitNoSep | pytest_snapshot/plugin.py:64 | a string without the separator is one piece |
| Strings.SplitAppend | pytest_snapshot/plugin.py:64 | splitting `a + sep + b` gives the pieces of `a` followed by those of `b` |
| Strings.IndexOfPrefix | pytest_snapshot/plugin.py:64 | a separator in `a` is found before anything appended to `a` |
| Paths.KeepSegments | pytest_snapshot/plugin.py:64 | only real segments are kept (not empty, not `.`) |
| Paths.KeepSegmentsAppend | pytest_snapshot/plugin.py:64 | the pieces kept from `a + b` are those kept from `a`, then those kept from `b` |
| Paths.KeepSegmentsOne | pytest_snapshot/plugin.py:64 | one piece is kept exactly when it is neither empty nor `.`; with `KeepSegmentsAppend`, the result is the input's real segments in order |
| Paths.Segments | pytest_snapshot/plugin.py:64 | the segments of a path string are all real segments |
| Paths.SegmentsSlash | pytest_snapshot/plugin.py:64 | the segments of `a/b` are those of `a`, then those of `b` |
| Paths.SegmentsPiece | pytest_snapshot/plugin.py:64 | a piece without `/` is one segment, unless it is empty or `.`, when it is none |
| Paths.SegmentsCons | pytest_snapshot/plugin.py:64 | a real segment followed by `/` comes first in the segments |
| Paths.SegmentsSkip | pytest_snapshot/plugin.py:64 | an empty or `.` piece followed by `/` adds no segment |
| Paths.SegmentsNormalised | pytest_snapshot/plugin.py:64 | `a//b/./c/` has exactly the segments `a`, `b`, `c`: doubled separators, `.` and a trailing `/` add nothing |
| Paths.FromString | pytest_snapshot/plugin.py:64 | definition of `Path(s)`: absolute when `s` starts with `/`, with the segments of `s` |
| Paths.JoinPath | pytest_snapshot/plugin.py:66-67 | the segments of `joinpath` are the base's, then the name's; an absolute name replaces the base; the result is absolute exactly when the name or the base is |
| Paths.Parent | pytest_snapshot/plugin.py:89 | definition of `parent`: the last segment dropped; the root and `.` are their own parents |
| Paths.ToString | pytest_snapshot/plugin.py:48 | definition of `str(path)`: `/` before the joined segments when absolute, `.` for the empty relative path; `FromStringToString` is its round trip |
| Paths.FromStringToString | pytest_snapshot/plugin.py:62-64 | `Path(str(p))` gives `p` back |
| Paths.JoinSegment | pytest_snapshot/plugin.py:66-67 | joining a plain name adds one segment, and the new path's parent is the base |
| Store.Lookup | pytest_snapshot/plugin.py:81-83 | definition of what `is_file()` and `exists()` see at a path: the stored entry, with the root and `.` always a directory; `FileStore.IsFile` and `FileStore.Exists` are stated over it |
| Store.MkdirResult | pytest_snapshot/plugin.py:89 | definition of `mkdir(parents=True, exist_ok=True)`: an OSError when a file is on the way, otherwise the missing directories added; its properties are `MkdirSpec` and `MkdirWellFormed` |
| Store.WriteResult | pytest_snapshot/plugin.py:92 | definition of `write_text`: an OSError unless the parent is a directory and the path is not one |
| Store.FileOnWaySpec | pytest_snapshot/plugin.py:89 | a file stands on the way exactly when some prefix of the path is a file |
| Store.AddDirsSpec | pytest_snapshot/plugin.py:89 | creating the missing directories makes every prefix a directory, keeps every entry, and adds only directory prefixes |
| Store.MkdirSpec | pytest_snapshot/plugin.py:89 | `mkdir(parents=True, exist_ok=True)` succeeds exactly when no prefix is a file; it then makes every prefix a directory and changes nothing else |
| Store.AncestorsAreDirs | pytest_snapshot/plugin.py:89 | in a well-formed store every ancestor of an entry is a directory |
| Store.MkdirParentOfExisting | pytest_snapshot/plugin.py:89 | creating the parent of an existing entry changes nothing |
| Store.AddDirsNoOp | pytest_snapshot/plugin.py:89 | when every prefix is already a directory, nothing is added |
| Store.MkdirWellFormed | pytest_snapshot/plugin.py:89 | `mkdir` keeps the store well formed |
| Store.WriteAfterMkdir | pytest_snapshot/plugin.py:89-96 | after the parent is created, writing a path that is not a directory succeeds and keeps the store well formed |
| Store.FileStore.constructor | pytest_snapshot/plugin.py:81-96 | the store holds the given entries |
| Store.FileStore.IsFile | pytest_snapshot/plugin.py:81 | true exactly when the path is a file |
| Store.FileStore.Exists | pytest_snapshot/plugin.py:83 | true exactly when the path is a file or a directory |
| Store.FileStore.ReadText | pytest_snapshot/plugin.py:82 | returns the file's content |
| Store.FileStore.WriteText | pytest_snapshot/plugin.py:92 | the new store is `WriteResult`: the file is written when its parent is a directory and it is not one; otherwise an OSError and nothing changes |
| Store.FileStore.Mkdir | pytest_snapshot/plugin.py:89 | the new store is `MkdirResult`: the error leaves the store unchanged, success creates the missing directories |
| Plugin.Snapshot.constructor | pytest_snapshot/plugin.py:34-37 | both lists are empty, no directory is set, and the update flag is stored |
| Plugin.Snapshot.GetSnapshotDir | pytest_snapshot/plugin.py:56-60 | raises `snapshot.snapshot_dir was not set.` exactly when no directory was set, and otherwise returns it; this is `SnapshotDirOf` of the state |
| Plugin.Snapshot.SetSnapshotDir | pytest_snapshot/plugin.py:62-64 | stores `Path(value)` and nothing else |
| Plugin.Snapshot.SnapshotPath | pytest_snapshot/plugin.py:66-67 | the directory joined with the name; an unset directory is an error |
| Plugin.Snapshot.AssertMatch | pytest_snapshot/plugin.py:69-118 | outcome, session and files after the call are exactly `AssertMatchStep` of those before |
| Plugin.Snapshot.Exit | pytest_snapshot/plugin.py:42-54 | the outcome is `ExitStep`: the listed lines joined by line breaks |
| Plugin.AssertMatchStep | pytest_snapshot/plugin.py:69-118 | definition of one `assert_match` call, branch by branch: outcome, session and files after it; `Snapshot.AssertMatch` is proved against it |
| Plugin.ExitStep | pytest_snapshot/plugin.py:42-54 | definition of `__exit__`: False with an exception in flight, None when nothing was recorded, otherwise the joined lines; `Snapshot.Exit` is proved against it |
| Plugin.ExitLines | pytest_snapshot/plugin.py:46-53 | definition of the message lines; their shape is `ExitLinesShape` |
| Plugin.Indented | pytest_snapshot/plugin.py:49-53 | definition of `'  ' + s` for each recorded name; `ExitLinesShape` states where the indented names stand |
| Plugin.AssertionText | pytest_snapshot/plugin.py:84-117 | definition of the texts of the AssertionErrors `assert_match` raises itself |
| Plugin.MismatchHeader | pytest_snapshot/plugin.py:112 | definition of the first line of a mismatch message |
| Plugin.MissingHeader | pytest_snapshot/plugin.py:117 | definition of the first line of a missing-snapshot message |
| Plugin.Header | pytest_snapshot/plugin.py:48-52 | definition of the header line of each list |
| Plugin.DirText | pytest_snapshot/plugin.py:48-52 | definition of `'{}'.format(self._snapshot_dir)`: `None` when unset, otherwise the path's text |
| Plugin.SnapshotDirOf | pytest_snapshot/plugin.py:56-60 | definition of the `snapshot_dir` property on a session |
| Plugin.AssertMatchNeedsDir | pytest_snapshot/plugin.py:66-67 | without a directory every call fails the same way and changes nothing |
| Plugin.AssertMatchNotAFile | pytest_snapshot/plugin.py:81-84 | a directory at the snapshot path is `invalid snapshot file` in both modes, and nothing changes |
| Plugin.AssertMatchChecks | pytest_snapshot/plugin.py:97-118 | outside update mode nothing is written or recorded; a stored snapshot passes exactly when it equals the value or pytest gave no message; a missing one is reported with the directory |
| Plugin.AssertMatchCreates | pytest_snapshot/plugin.py:88-96 | in update mode a missing snapshot is written exactly when no file stands on the way; it is then recorded as created, its directories exist, and every other entry is kept |
| Plugin.AssertMatchUpdates | pytest_snapshot/plugin.py:88-93 | in update mode a differing snapshot is overwritten and recorded as updated; an equal one is left alone and not recorded |
| Plugin.AssertMatchWellFormed | pytest_snapshot/plugin.py:69-118 | every call keeps the store well formed |
| Plugin.AssertMatchValid | pytest_snapshot/plugin.py:69-118 | names are recorded only once a directory is set, and the directory never changes |
| Plugin.UpdateThenCheck | pytest_snapshot/plugin.py:88-114 | after a successful update, the same assertion outside update mode passes and changes nothing |
| Plugin.CreatedAndUpdated | pytest_snapshot/plugin.py:88-96 | creating a snapshot, then storing a different value under the same name, records the name in both lists |
| Plugin.SetThenGetDir | pytest_snapshot/plugin.py:56-64 | setting the directory from a path's text and reading it gives that path |
| Plugin.ExitLinesShape | pytest_snapshot/plugin.py:46-53 | the lines are the created header and names (when any), then the updated header and names (when any) |
| Plugin.ExitMessageLines | pytest_snapshot/plugin.py:45-54 | when no name and not the directory hold a line break, the message's lines are exactly those lines |
| Plugin.ExitRaises | pytest_snapshot/plugin.py:42-54 | `__exit__` raises exactly when no exception is in flight and a list is non-empty; it returns False exactly when an exception is in flight |
| Plugin.ExitShowsDir | pytest_snapshot/plugin.py:45-52 | in a valid session, a raising `__exit__` has a directory, and both headers show its path rather than `None` |
| Plugin.HeaderOneLine | pytest_snapshot/plugin.py:48-52 | a header holds no line break when the directory text holds none |
| Plugin.MismatchHeaderOneLine | pytest_snapshot/plugin.py:112 | the mismatch header holds no line break when the path holds none |
| Plugin.MissingHeaderOneLine | pytest_snapshot/plugin.py:117 | the missing-snapshot line holds no line break when the name and directory hold none |
| Plugin.RunHintOneLine | pytest_snapshot/plugin.py:117 | the update hint is one line |
| Plugin.MismatchMessageLines | pytest_snapshot/plugin.py:111-114 | the failure text is one line naming the snapshot file, followed by pytest's message unchanged |
| Plugin.MissingMessageLines | pytest_snapshot/plugin.py:115-118 | the missing-snapshot text is the line naming snapshot and directory, then the hint to run with `--snapshot-update` |

## Left out

- `pytest_addoption` and the `snapshot` fixture (plugin.py:13-25) are pytest plumbing. The fixture's only behaviour is the `with` block, which is `Snapshot.constructor` followed by `Snapshot.Exit`.
- `__enter__` returns the object itself and has nothing to state.
- `shorten_path` depends on the process's working directory and is not used by the modelled code.
- Nothing in `plugin.py` at this revision calls `flatten_dict` or `flatten_filesystem_dict`; they are modelled as library functions.
- Filenames.IsWordChar: the regular expression `\w` also matches non-ASCII letters and digits under `(?u)`. The model takes only ASCII letters, digits and `_`, because Unicode character classes are not available.
- Encodings and line endings of `read_text` and `write_text` are not modelled; file contents are strings.
- `packaging.version.parse(pytest.__version__) >= version.parse("5.4.0")` in `assert_match` is taken as the boolean parameter `expectedOnRight`. The comparison's outcome does not depend on it; only the operand order of pytest's report does.
- pytest's assertion rewriting is a foreign mechanism. The text of the failed comparison is the opaque parameter `diff`.
- Flatten.FlattenFs: the result is a map, so the insertion order of the returned dict (the flattening order, which the doctest prints) is not kept. No modelled code reads that order.
- Flatten.Tree: Python decides dict-hood with `type(v) is dict`. The model calls every item that is not a `Node` a leaf, so dict subclasses, which the source treats as leaves, are not represented separately.
- The `assert type(d) is dict` of `flatten_dict` holds by typing: the argument is always a list of items.
- Flatten.InvalidKey: the ValueError text is built with `repr` of each key. The model keeps the offending key and its parent keys instead of the formatted message.
- Paths: pathlib's special case of a leading `//`, Windows paths, symbolic links, and the resolution of `..` are not modelled. `..` is kept as an ordinary segment, as pathlib does.
- Paths: absolute and relative paths are kept apart. The process's working directory is not modelled, so a relative path and the absolute path it denotes are different entries of the store.
- Store.FsError: all operating-system errors (file exists, not a directory, permission denied) are one error kind, `OsError`, carrying the path the call was given. Permissions and races with other processes are not modelled.
- Plugin.AssertionText: the texts of the AttributeError and of operating-system errors come from Python and the system. The model gives the text only of the AssertionErrors that `assert_match` raises itself.
- Filenames.GetValidFilename: its own ensures gives only the shape of the result. Which name it returns is stated by `Filenames.GetValidFilenameCleaned`, with `Filenames.RemoveUnsafeAppend` and `Filenames.RemoveUnsafeOne` for the characters that survive.
- Filenames.RemoveUnsafe: its own ensures says the result is short and safe. That it is the input's safe characters in order is stated by `Filenames.RemoveUnsafeAppend` and `Filenames.RemoveUnsafeOne`.
- Paths.KeepSegments: its own ensures says only that the kept pieces are real segments. That they are the input's real segments in order is stated by `Paths.KeepSegmentsAppend` and `Paths.KeepSegmentsOne`.
- Paths.Segments: its own ensures says only that the segments are real. Which segments a string has, in order, is stated by `Paths.SegmentsSlash` and `Paths.SegmentsPiece`, and for `a//b/./c/` by `Paths.SegmentsNormalised`.
- Store.FileStore.WriteText: the write after a successful `mkdir` is proved unable to fail in the model, so `AssertMatch` has no branch for an OSError from `write_text` (a full disk, permissions).
- Plugin.AssertMatchChecks: a stored snapshot that differs from the value still passes when pytest's comparison message is empty. This is because the code raises only `if snapshot_diff_msg:`. So the call passes exactly when the texts are equal only while assertion rewriting produces a message.
