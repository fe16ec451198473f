# Virtual filesystem of the shell emulator, modelled in Dafny

The shell emulator in `emulator.py` loads a zip archive into an in-memory
tree and then lets the user move around it. The class `Virtual_System`
holds two things: the tree (`file_structure`), built once from the
archive's entry list, and the current directory (`current_dir`), which is
the only state that changes after loading. Every node of the tree carries
the rights token that the side file `access_rights.txt` gives its bare name.

The model is split into these modules:

- `Text`: the Python string built-ins the code relies on. These are
  `split('/')`, `'/'.join`, `strip('/')`, `replace('//', '/')` (left to
  right, without overlap) and `split()`, which splits on Python's set of
  whitespace characters.
- `Paths`: the path normaliser (`path_parser`). It is a left fold of one
  loop step over the pieces of the path. The canonical spelling `Render` of
  a list of segments is proved equal to the source's join-and-replace
  formula.
- `Tree`: the node datatype, with `File(rights)` and
  `Folder(rights, children)`, and the walk that
  `get_dictionary_from_absolute_path` performs.
- `Rights`: the rights table that the lines of `access_rights.txt` produce.
- `Builder`: `load_zip`. The moving-cursor walk over one entry's segments
  becomes a recursive insert along the path. The exception the source raises
  when a folder is needed where a file sits becomes an `Err` result.
- `VirtualFs`: the class `VirtualSystem`, with fields `currentDir` and
  `fileStructure`. Its methods are the source's methods, each proved
  against the specification functions above. `LoadAccessRights`, `LoadZip`,
  `PathParser` and `GetDictionaryFromAbsolutePath` keep the source's loops
  with their invariants. `Cd` and `Ls` call the last two. Its
  invariant `Valid` says that the current directory is normalised and
  resolves to a folder. The constructor establishes it and `Cd` keeps it.
- `Shell`: `ShellEmulator.rev`.
- `Session`: the scenarios of `tests.py`, replayed as client code on a
  fresh object loaded from the test archive.

The archive itself is not read. Its entry list (`namelist()`) and the
decoded lines of `access_rights.txt` are the inputs.

## Model

| member | source | states |
|---|---|---|
| Paths.Step | emulator.py:67-73 | Computes one turn of the loop: `''` and `.` leave the retained list alone, `..` drops its last element when there is one, and any other piece is appended. |
| Paths.Retain | emulator.py:65-73 | Computes the retained list after the pieces are processed left to right. |
| Paths.Normalize | emulator.py:58-78 | Computes `path_parser`: the path is made absolute against the current directory, split on `/`, folded with `Retain`, then joined between slashes with `//` collapsed. |
| Paths.NormalizeShape | emulator.py:64-78 | The output is `/` followed by each retained segment and a `/`. It starts and ends with `/`, holds no empty, `.` or `..` segment, and is exactly `/` when nothing is retained. |
| Paths.SourceFormulaIsRender | emulator.py:74-75 | For valid segments, joining with a leading and a trailing `/` and then replacing `//` by `/` gives the canonical spelling. The replace only matters for the root. |
| Paths.NormalizeIdempotent | emulator.py:59-62 | A normalised path normalises to itself whatever the current directory is, because it is absolute. |
| Paths.NormalizeDot | emulator.py:66-68 | From a normalised current directory, `.` gives that directory. |
| Paths.NormalizeChild | emulator.py:72-73 | A plain segment appends itself one level down. |
| Paths.NormalizeParent | emulator.py:69-71 | `..` removes exactly the last retained segment, and from `/` it stays at `/`. |
| Paths.ChildThenParent | emulator.py:66-75 | Going into a segment and then `..` returns to the starting normalised path. |
| Paths.RetainWithoutParent | emulator.py:66-73 | Without `..`, the retained segments are the input pieces minus empty and `.` pieces, in their order. |
| Paths.RetainKeepsSegments | emulator.py:66-73 | Every retained piece is a valid segment. |
| Paths.RetainConcat | emulator.py:66-73 | Normalising `a + b` is normalising `b` from where `a` leaves the retained list. |
| Text.Split | emulator.py:64 | Python's `split('/')`: at least one piece, and no piece holds a `/`. |
| Text.Join | emulator.py:74 | Computes Python's `'/'.join`: the pieces with one `/` between each pair. |
| Text.Strip | emulator.py:83 | Computes Python's `strip('/')`: the string without its leading and trailing slashes. |
| Text.CollapseDoubleSlash | emulator.py:75 | Computes Python's `replace('//', '/')`, scanning left to right without overlap. |
| Text.Fields | emulator.py:18 | Python's `split()`: every piece is a non-empty run of non-whitespace characters. |
| Text.SplitThenJoin | emulator.py:64 | Joining the pieces of `split('/')` with `/` gives back the string. |
| Text.JoinThenSplit | emulator.py:74 | Splitting a join of slash-free pieces gives back the pieces. |
| Text.StripJoin | emulator.py:30 | Stripping slashes from names joined by `/`, with or without one trailing `/`, leaves the join. |
| Text.CollapseSlashFree | emulator.py:75 | The replace passes over a slash-free prefix unchanged. |
| Text.FieldsOfUnwords | emulator.py:18 | `split()` of words joined by single spaces gives back the words. |
| Tree.Walk | emulator.py:84-93 | Computes the level reached by entering the named folders in turn, or None at the first name that is absent or a file. |
| Tree.Lookup | emulator.py:80-93 | Computes `get_dictionary_from_absolute_path`: the root for `/`, otherwise the walk over the segments of the stripped path. |
| Tree.WalkFailsIff | emulator.py:84-93 | The walk fails exactly when some segment is absent or names a file in the level reached so far. |
| Tree.LookupFailsIff | emulator.py:80-93 | Lookup of `/` is the root. For any other path it fails exactly when some segment of the stripped path is absent or a file. |
| Tree.LookupRender | emulator.py:80-93 | Lookup of a normalised path walks exactly its segments. |
| Tree.WalkConcat | emulator.py:85-88 | Walking `a + b` is walking `b` from the level `a` leads to. |
| Tree.WalkEndsInFolder | emulator.py:86-88 | A successful walk ends in the children of the folder its last segment names. |
| Rights.Entry | emulator.py:18-20 | Computes the pair a line contributes when `split()` gives exactly two words, and None otherwise. |
| Rights.RightsTable | emulator.py:17-21 | Computes the table after reading the lines in order, each two-word line overwriting the entry of its name. |
| Rights.RightsTableHasName | emulator.py:17-21 | A name is in the table exactly when some line of exactly two words names it. |
| Rights.RightsTableLastWins | emulator.py:19-21 | The recorded rights come from the last line that names the file. |
| Rights.EntryOfTwoWords | emulator.py:18-20 | A line `name rights` of two words contributes exactly that pair. |
| Rights.TestRightsTable | emulator.py:17-21 | The test archive's side file gives `test.txt: r` and `subdir: rw`. |
| Builder.InsertParts | emulator.py:31-46 | Computes the inner loop over one entry's segments from the cursor's level. A segment equal to the last one writes a file there unless the entry ends in `/`. Any other segment enters its folder and creates it first when absent. Entering a file is an error. |
| Builder.InsertEntry | emulator.py:28-33 | Computes one turn of the outer loop: the side file is skipped, and any other entry is stripped, split and inserted from the root. |
| Builder.BuildFrom | emulator.py:27-46 | Computes the tree after the entries are inserted in order. The first failing entry aborts the build. |
| Builder.Build | emulator.py:24-46 | Computes `load_zip` from an empty tree. |
| Builder.Entered | emulator.py:32-46 | The segments the cursor enters: all of them for an entry ending in `/`, and otherwise those not equal to the last name, so none of them is the last name. |
| Builder.BuildSkipsRightsFile | emulator.py:28-29 | Listing `access_rights.txt` anywhere changes nothing in the result. |
| Builder.BuildLabelsByName | emulator.py:37 | Every node of a built tree has the rights its bare name has in the table, or None. |
| Builder.InsertKeepsLabels | emulator.py:35-45 | Adding one entry keeps every node labelled with the rights of its bare name. |
| Builder.DirEntryReusesFolders | emulator.py:40-46 | An entry ending in `/` whose folders all exist changes nothing. |
| Builder.InsertFrame | emulator.py:31-46 | Adding an entry keeps every name of the level. It leaves the node of every name the entry does not mention as it was. |
| Builder.ExistingFolderKeepsChildren | emulator.py:40-46 | An existing folder the entry passes through is reused, not replaced: it stays a folder with its rights. It keeps all its names, and keeps the node of every name the rest of the entry does not mention. |
| Builder.DirEntryMakesFolders | emulator.py:39-46 | After an entry ending in `/` is added, its whole path resolves to a folder. |
| Builder.InsertFailsIff | emulator.py:31-46 | For any entry, including `q/f/q`, adding it fails (the source's `KeyError`) exactly when one of the entered segments names a file. That file is in the level the earlier entered segments lead to in the tree before the entry. The file writes in between never matter. |
| Builder.FreshFolderAccepts | emulator.py:31-46 | Every entry is accepted into an empty level. |
| Builder.FileEntryWrites | emulator.py:33-38 | A file entry, including one whose last name also occurs earlier, leaves a file node with the table's rights at its last name. The node is in the folder the entered segments lead to, whatever was there before. |
| Builder.RepeatedLastSegment | emulator.py:33 | Entry `x/a/a` writes `a` as a file inside `x` twice and makes no folder `a`, because the file test compares values, not positions. |
| Builder.FileOverwritesFolder | emulator.py:35-38 | Entries `a/` then `a` leave a file at `a`: the file write replaces the folder. |
| Builder.FolderAfterFileFails | emulator.py:46 | Entries `a` then `a/b` fail at `a`. |
| Builder.FilesShareFolder | emulator.py:39-46 | Entries `a/f` then `a/g` re-enter `a` and give `a: {f: file, g: file}`. |
| Builder.NestedFileAndFolder | emulator.py:39-46 | Entries `a/f` then `a/c/` create `a` once and re-enter it, giving `a: {f: file, c: folder}`. |
| Builder.BuildFileAndFolder | emulator.py:28-46 | The side file, a file `f` and a folder `d/` give the root `{f: file, d: empty folder}`. |
| Builder.TestArchive | emulator.py:24-46 | The test archive builds `{test.txt: file (r), subdir: empty folder (rw)}`. |
| VirtualFs.VirtualSystem.constructor | emulator.py:7-11 | When the archive loads, the object starts at `/` with the built tree and satisfies the invariant. |
| VirtualFs.VirtualSystem.LoadAccessRights | emulator.py:17-22 | The loop returns exactly the rights table of the lines. |
| VirtualFs.VirtualSystem.LoadZip | emulator.py:24-46 | The loop reports failure exactly when the build fails. On success the tree is the build of the entries from the old tree. |
| VirtualFs.VirtualSystem.PathParser | emulator.py:58-78 | The loop returns the normaliser's value, which is a normalised path. |
| VirtualFs.VirtualSystem.GetDictionaryFromAbsolutePath | emulator.py:80-93 | The loop returns exactly the lookup of the path in the tree. |
| VirtualFs.VirtualSystem.Cd | emulator.py:48-56 | `~` goes to `/`. Otherwise the directory moves to the normalised path exactly when it resolves to a folder, and is unchanged when it does not. The invariant is kept. |
| VirtualFs.VirtualSystem.Ls | emulator.py:95-99 | Returns its argument unchanged and the lookup of the normalised argument. The default `.` lists the current directory and always succeeds under the invariant. It changes nothing. |
| Shell.Rev | emulator.py:110-111 | Same length as the input, with character `i` equal to input character `len - 1 - i`. |
| Shell.RevInvolutive | emulator.py:110-111 | Reversing twice gives the string back. |
| Shell.RevConcat | emulator.py:110-111 | The reverse of `a + b` is the reverse of `b` followed by the reverse of `a`. |
| Shell.RevExamples | tests.py:67-69 | `Hello` reverses to `olleH` and `12345` to `54321`. |
| Session.SetupVfs | tests.py:7-22 | The test archive loads into an object at `/` with tree `{test.txt, subdir}`. |
| Session.SubdirPaths | tests.py:40-42 | `subdir` from `/` is `/subdir/`, an empty folder, and `..` from there is `/`. |
| Session.MissingPath | tests.py:45-48 | A name the archive lacks is not found from `/`. |

## Left out

- Reading the archive is not modelled: opening the zip, `namelist()`, reading `access_rights.txt`, and decoding its bytes (emulator.py:15-18, 25-27). The entry list and the decoded lines are inputs. A missing side file is not modelled either.
- The interactive loop `ShellEmulator.run` is not modelled: input, printing, command dispatch and messages (emulator.py:113-150). This includes the sorted printing of `ls` output.
- The command-line and configuration startup is not modelled (emulator.py:153-168).
- `whoami` is not modelled. It only returns a field.
- pytest's zip fixture and the test that mocks `input` are not modelled. The other tests are replayed in `Session`.
- The branch `if final_path == ''` (emulator.py:76-77) is not modelled, because it cannot fire. `NormalizeShape` proves the result always holds at least a `/`.
- The `strip()` before `split()` on a rights line (emulator.py:18) is not modelled separately. `split()` already ignores leading and trailing whitespace.
- VirtualFs.VirtualSystem.Cd: the error message of emulator.py:54 is replaced by the result `found == false`.
- VirtualFs.VirtualSystem.constructor: requires that the archive builds. Where the source's `__init__` raises `KeyError`, no object exists.
- VirtualFs.VirtualSystem.LoadZip: says nothing about the tree after a failure. The source keeps whatever the failing entry's earlier steps wrote, for example the file `q` at the root for an entry `q/f/q` when `f` is already a file. The model keeps the tree as the entries before the failing one left it.
- VirtualFs.VirtualSystem.LoadZip: the inner walk over one entry's segments mutates nested dictionaries through the moving `current_level` alias. It is modelled on values by the recursive `Builder.InsertParts`, which the loop body calls through `Builder.InsertEntry`, so aliasing is not modelled.
