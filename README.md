# BotwDecompiler `decomp.py` in Dafny

This project models the decoding driver of BotwDecompiler (`src/decomp.py`). That driver turns files from *The Legend of Zelda: Breath of the Wild* into editable text. Four parts are modelled:

- **The signature gates** of the `aamp`, `byml` and `sarc` decoders. Each gate optionally unwraps a Yaz0-compressed buffer, then compares its leading magic bytes ("AAMP", "BY"/"YB", "SARC"). `sarc` first refuses a missing buffer or one under 4 bytes.
- **`cdir`**, the directory helper. In archive mode it makes `out` itself. Otherwise it makes only the parent of `out`. Both modes use `os.makedirs(..., exist_ok=True)`.
- **`copy`**: the input bytes are written unchanged to `out`.
- **The member loop of `sarc`**:
  - every member of the archive is staged at `out/<name>`, after its parent directory is made;
  - the member is routed by the suffix of its last path component, through an if/elif chain over seven extension sets (BARS, BFEVFL, BFRES, BYML, HK, MSBT, SARC);
  - a routed member is handed to its decoder, and the loop is meant to unlink its staged file and go on with the next member (see "## Left out" for what the code as written does at that point);
  - a member in no set stays on disk as written.

The model is in seven modules:

| module | what it holds |
|---|---|
| `Wrappers` (`wrappers.dfy`) | the `Option` datatype for a buffer, a decoder result or a route that may be absent |
| `Magic` (`magic.dfy`) | bytes, the magic constants, Python's `data[0:n]` slice, the three gates as pure functions |
| `Paths` (`paths.dfy`) | paths as component sequences: `os.path.dirname`, `os.makedirs`, how `Path(out, name)` parses a member name, `PurePath.suffix` |
| `Router` (`router.dfy`) | the routing chain, and a first-match reference definition it is proved equal to |
| `FileTree` (`filetree.dfy`) | the filesystem as a value: `cdir`, writing a file, writing the `.yml` text |
| `Staging` (`staging.dfy`) | the member loop as a function of the disk, and what it leaves behind |
| `Decomp` (`decomp.dfy`) | class `FileSystem`: `cdir`, `copy`, `aamp`, `byml`, `sarc` and the loop as imperative methods, each proved to match the functions above |

Some parts of the system are parameters of the model:

- the Yaz0 decompressor;
- the AAMP and BYML binary-to-text conversions;
- `oead.Sarc(...).get_files()`;
- the seven extension sets, whose contents are defined outside `decomp.py`.

A conversion or parser returns `None` where the library raises the `RuntimeError` that each decoder catches. Routing to a decoder is recorded as `Invocation(kind, path, input)`, in call order. `input` is the bytes the staged file holds when the decoder is called. This is the `tasks` list.

`sarc` calls `cdir(out)` without `is_archive` (src/decomp.py:144), so it makes only the parent of `out`. The members' own `cdir(out_file)` calls make `out` once some member's name has a component. An empty member table, or only members named "" or "." (whose staging path is `out` itself), leaves `out` unmade.

## Model

| member | source | states |
|---|---|---|
| Magic.Head | src/decomp.py:19 | the slice `data[0:n]` is the first n bytes, or the whole buffer when it is shorter; it never fails |
| Magic.HeadIsStartsWith | src/decomp.py:19 | comparing the slice `data[0:n]` with an n-byte marker is exactly a prefix test, also on buffers shorter than n |
| Magic.Unwrap | src/decomp.py:19-20 | a buffer without the "Yaz0" marker is inspected as it is; one with it is replaced by the decompressor's output, or fails with it |
| Magic.AampGate | src/decomp.py:19-26 | accepted iff the (possibly decompressed) buffer starts with "AAMP", and the accepted payload is that buffer; decompression failure iff the input starts with "Yaz0" and the decompressor fails; never the length verdict |
| Magic.BymlGate | src/decomp.py:79-86 | accepted iff the (possibly decompressed) buffer starts with "BY" or with "YB"; a 2- or 3-byte buffer can pass; decompression failure iff "Yaz0" and the decompressor fails |
| Magic.SarcGate | src/decomp.py:129-142 | "too short" iff the buffer is missing or under 4 bytes; otherwise accepted iff the (possibly decompressed) buffer starts with "SARC"; decompression failure iff "Yaz0" and the decompressor fails |
| Magic.AcceptedCarriesMagic | src/decomp.py:22-26 | whatever any of the three gates accepts starts with the magic it was checked for |
| Magic.PlainMagicIsAcceptedAsIs | src/decomp.py:19-22 | a buffer already starting with AAMP, BY, YB or SARC is accepted unchanged, whatever the decompressor would do |
| Magic.SarcShortIgnoresDecompressor | src/decomp.py:129-136 | the SARC length test comes before decompression: a short buffer gets the same verdict under any decompressor |
| Magic.ShortBuffersRejected | src/decomp.py:82-86 | under 2 bytes never passes as BYML; under 4 bytes never passes as AAMP and is "too short" for SARC |
| Paths.Parent | src/decomp.py:204 | `os.path.dirname` has one component fewer than a non-root path, and the root stays the root; ParentAndName shows the dropped one is the last |
| Paths.ParentAndName | src/decomp.py:204 | the directory name followed by the base name gives the path back |
| Paths.AppendToName | src/decomp.py:33 | `Path(f"{out}.yml")` sits beside `out`: same parent, name extended by ".yml" ("..yml" for the root) |
| Paths.Ancestors | src/decomp.py:202 | the directories `os.makedirs(p)` ensures include `p` and are no longer than `p`; AncestorsAre pins them down as the prefixes of `p` |
| Paths.AncestorsAre | src/decomp.py:202 | the directories `os.makedirs(p)` ensures are exactly the non-empty prefixes of `p` |
| Paths.MakeDirs | src/decomp.py:202 | `os.makedirs(p, exist_ok=True)` keeps every existing directory and makes `p` |
| Paths.MakeDirsNewAreAncestors | src/decomp.py:202 | every directory `os.makedirs(p)` creates is a prefix of `p` |
| Paths.MakeDirsKeepsTree | src/decomp.py:202 | `os.makedirs` keeps the directory set closed under taking parents |
| Paths.AncestorsWithin | src/decomp.py:202 | in a directory tree that holds `p`, every ancestor of `p` is present |
| Paths.MakeDirsExisting | src/decomp.py:202 | `exist_ok=True`: making a directory that already exists changes nothing |
| Paths.MakeDirsIdempotent | src/decomp.py:202 | making the same directories twice equals making them once |
| Paths.IndexOf | src/decomp.py:152 | the result is the first position of the character, or the length when it does not occur |
| Paths.IndexOfIs | src/decomp.py:152 | any position that is a first occurrence (or the length with no occurrence) is the result of `IndexOf` |
| Paths.Split | src/decomp.py:152 | splitting a member name on "/" gives at least one piece and no piece contains "/" |
| Paths.JoinSplit | src/decomp.py:152 | joining the pieces back with "/" gives the name unchanged: splitting loses nothing |
| Paths.SplitConcat | src/decomp.py:152 | a name `a/b` splits into the pieces of `a` followed by the pieces of `b` |
| Paths.KeepConcat | src/decomp.py:152 | dropping empty and "." pieces distributes over concatenation |
| Paths.Keep | src/decomp.py:152 | the kept pieces are non-empty, never ".", and each is one of the input pieces |
| Paths.Components | src/decomp.py:152 | every component of `Path(out, name)` taken from the name is non-empty, not ".", and free of "/" |
| Paths.ComponentsConcat | src/decomp.py:152 | `Path("a/b")` has the components of "a" followed by those of "b" |
| Paths.PlainNameIsOneComponent | src/decomp.py:152 | a name without "/" that is neither empty nor "." is a single component |
| Paths.Join | src/decomp.py:152 | `Path(out, name)` lies under `out`, and every component it adds from the name is non-empty, not "." and free of "/" |
| Paths.RFind | src/decomp.py:156 | the result is the last position of the character, or -1, and no later position holds it |
| Paths.Suffix | src/decomp.py:156 | the suffix is non-empty iff the name has a dot that is neither its first nor its last character; then it runs from the last dot to the end and has no other dot |
| Paths.Ext | src/decomp.py:156 | `out_file.suffix` is empty or a dot followed by at least one non-dot character, shorter than the path's name |
| Paths.ExtOfJoin | src/decomp.py:152-156 | the routing extension of `out/<name>` is the suffix of the last component of the member name |
| Router.Route | src/decomp.py:159-174 | the chain picks a kind only if that kind's set holds the extension, and falls through to `is_del = False` exactly when no set holds it; RouteIsFirstMatch fixes which kind |
| Router.FirstMatchFound | src/decomp.py:159-174 | what the first-match reference finds is a kind in the order whose set holds the extension |
| Router.FirstMatchChooses | src/decomp.py:159-174 | first match picks the i-th kind iff its set holds the extension and no earlier set does |
| Router.FirstMatchNone | src/decomp.py:173-174 | first match finds nothing iff no set holds the extension |
| Router.RouteIsFirstMatch | src/decomp.py:159-174 | the if/elif chain equals the first match in the order BARS, BFEVFL, BFRES, BYML, HK, MSBT, SARC |
| Router.Rank | src/decomp.py:159-172 | each decoder kind has a position in the chain, and the chain lists that kind at that position |
| Router.RouteFirstMatch | src/decomp.py:159-172 | a member goes to decoder K iff K's set holds its suffix and no set tested earlier does |
| Router.RoutePassThrough | src/decomp.py:173-174 | `is_del` is cleared iff no set holds the suffix |
| Router.RouteDisjoint | src/decomp.py:159-172 | when the sets are pairwise disjoint, the order of the chain does not matter |
| FileTree.Cdir | src/decomp.py:199-204 | files are untouched; archive mode makes `out`; file mode makes the parent of `out` (when it is not the root) and never `out` itself; every directory it adds is a non-empty prefix of that target, so nothing else is made |
| FileTree.CdirKeepsTree | src/decomp.py:199-204 | `cdir` keeps the disk well formed: a directory tree, with every file in an existing directory |
| FileTree.CdirExisting | src/decomp.py:199-204 | when the directory `cdir` makes already exists in a tree (`out` in archive mode, the parent of `out` otherwise), `cdir` changes nothing |
| FileTree.CdirIdempotent | src/decomp.py:199-204 | a second `cdir` with the same arguments changes nothing, in either mode |
| FileTree.WriteFile | src/decomp.py:190-191 | after `cdir(out)` and `write_bytes`, `out` holds exactly the bytes written; no other file changes; directories are those of `cdir` |
| FileTree.WriteFileKeepsTree | src/decomp.py:190-191 | writing a file after making its parent keeps the disk well formed |
| FileTree.WriteText | src/decomp.py:28-33 | the parent of `out` is made; `out.yml` holds the text when the conversion succeeded; no other file changes, and nothing is written when it raised |
| FileTree.WriteTextKeepsTree | src/decomp.py:28-33 | writing the text keeps the disk well formed |
| Staging.PlanOf | src/decomp.py:151-174 | a member is staged under `out` with its own bytes; it is routed only to a kind whose set holds its staging suffix, and passes through exactly when no set holds it |
| Staging.PlanOfRoutes | src/decomp.py:152-174 | a member goes to decoder K iff K's set holds its staging suffix and no earlier set does; that suffix is the suffix of the last component of the member name |
| Staging.StageOne | src/decomp.py:151-177 | one iteration makes the parent of `out_file`; `out_file` holds the member's bytes iff no set matched, and is absent otherwise; every other file is unchanged |
| Staging.StageAll | src/decomp.py:149-177 | the loop over the plans never removes a directory; StageAllOutcome, StageAllElsewhere and StageAllDirs state what it leaves in each file and directory |
| Staging.Tasks | src/decomp.py:147-172 | each member adds at most one task; TasksPrefix, TaskOfMember and TasksAreRoutedMembers fix which and in what order |
| Staging.StageOneKeepsTree | src/decomp.py:154-177 | one iteration keeps the disk well formed |
| Staging.StageAllWellFormed | src/decomp.py:149-177 | the whole loop keeps the disk well formed |
| Staging.StageAllElsewhere | src/decomp.py:149-177 | a path no member is staged at holds after the loop what it held before |
| Staging.StageAllOutcome | src/decomp.py:157-177 | the last member staged at a path decides it: a pass-through member's bytes remain, a routed member's staged file is gone |
| Staging.StageAllDirs | src/decomp.py:154 | the loop's directories are the old ones plus the ancestors of every member's parent, and nothing else |
| Staging.NeededHasParents | src/decomp.py:154 | every member's parent directory, with its ancestors, is among the directories the loop makes |
| Staging.StageAllMadeParent | src/decomp.py:154 | after the loop each nested member's parent directory exists |
| Staging.TasksPrefix | src/decomp.py:147-172 | the tasks after a prefix of the table are a prefix of the final tasks: tasks are appended in table order |
| Staging.TaskOfMember | src/decomp.py:159-172 | each routed member adds exactly one task, `K(out_file, out_file)` with the member's bytes as the decoder's input, after the tasks of all earlier members |
| Staging.TasksAreRoutedMembers | src/decomp.py:159-174 | every task names a member routed to that decoder, at that member's staging path, with that member's bytes as its input |
| Staging.StagedOrDispatched | src/decomp.py:151-177 | with distinct staging paths, each member either stays byte for byte with no task, or is gone with its decoder called on its staged bytes |
| Decomp.FileSystem.Cdir | src/decomp.py:199-204 | the new state is `FileTree.Cdir` of the old |
| Decomp.FileSystem.Copy | src/decomp.py:185-196 | `out` then holds exactly the bytes read from `file`; the state is `WriteFile` of the old |
| Decomp.FileSystem.WriteConverted | src/decomp.py:28-33 | the new state is `WriteText` of the old, with the conversion's result |
| Decomp.FileSystem.Aamp | src/decomp.py:13-36 | the verdict is `AampGate` of the file's bytes; a rejected file leaves the filesystem untouched; an accepted one writes its text as `WriteText` |
| Decomp.FileSystem.Byml | src/decomp.py:73-96 | the verdict is `BymlGate` of the file's bytes; rejection changes nothing; acceptance writes the text as `WriteText` |
| Decomp.FileSystem.Sarc | src/decomp.py:122-182 | the verdict is `SarcGate`; rejection changes nothing and calls no decoder; on acceptance the parent of `out` is made, then a failing table parse stops there, and otherwise the loop runs as `StageAll` with tasks `Tasks` |
| Decomp.FileSystem.StageMembers | src/decomp.py:149-177 | the loop leaves the filesystem at `StageAll` of the plans of the table, and the tasks at `Tasks` of those plans; each task carries the bytes its staged file held when the decoder was called |
| Decomp.FileSystem.StageMember | src/decomp.py:151-177 | one iteration changes the filesystem as `StageOne` and adds the task `TaskOf` of the member's plan; a routed member's decoder is handed the bytes its staged file holds at that moment, which are the member's payload, so the file was written before it was unlinked |

## Left out

- The decoders `bars`, `evfl`, `bfres`, `havok` and `msbt` (src/decomp.py:39-119) are not modelled. They run an external extractor, a converter, a Windows executable or a Havok library. A call to one is recorded as an `Invocation` and has no modelled effect on the disk.
- The nested calls of `aamp`, `byml` and `sarc` made from the loop have no effect on the disk in the model either. They are recorded as invocations like the others.
- `Staging.StageOne`, `Staging.StageAll`, `Staging.StageAllOutcome`, `Staging.StagedOrDispatched`, `Decomp.FileSystem.StageMember`, `Decomp.FileSystem.StageMembers` and `Decomp.FileSystem.Sarc` model the intended loop: record the decoder call, unlink the staged file, go on with the next member. The code as written does not reach the unlink for a routed member (src/decomp.py:160-177):
  - each decoder is a plain function, called synchronously, so `asyncio.create_task` receives its `None` result;
  - with no running event loop, `create_task` raises `RuntimeError`; the `except` at src/decomp.py:181-182 catches it, so the loop ends at the first routed member, its staged file is never unlinked, and later members are never staged;
  - with a running event loop, `create_task(None)` raises `TypeError`, which nothing in `sarc` catches;
  - `asyncio.gather` (src/decomp.py:179) is never reached once a member has been routed.
- Exceptions other than `RuntimeError` are not modelled:
  - the `OSError` from reading a missing file is excluded by `requires file in files`;
  - `cdir` in file mode on a one-component path makes nothing in the model (`FileTree.Cdir(d, [x], false) == d`). In the source, `os.path.dirname` gives "" there, `os.makedirs("")` raises `FileNotFoundError`, and no `except` catches it. This covers the `cdir(out)` calls of `aamp`, `byml`, `sarc` and `copy` (src/decomp.py:28, src/decomp.py:88, src/decomp.py:144, src/decomp.py:190) when `out` is a top-level path.
  - A file standing where a directory is needed is not distinguished from a directory.
  - The disk is a map from paths to bytes plus a set of directories. A path can be both a file and a directory.
- `Paths.Components`: an absolute member name (leading "/") is treated like a relative one. `pathlib` would replace `out` with it.
- `Paths.Join`, `Staging.StageAllElsewhere`, `Staging.StageAllOutcome`, `Staging.StagedOrDispatched`: paths are compared as component sequences, so "no other path is touched" holds for model paths, not for files on disk. Aliases the operating system resolves are not modelled: a ".." component is kept as an ordinary one (`out/../x` is the file `x`), symbolic links are not followed, and on Windows, which the decoders' `.exe` calls target (src/decomp.py:68, src/decomp.py:116), "\\" is a second separator and names are compared without regard to case.
- Text is treated as bytes: `write_text` and its encoding are not modelled.
- The `error(...)` and `print(...)` log lines are not modelled. Their outcomes are the verdicts `WrongMagic`, `TooShort` and `DecompressFailed`.
- The `data == None` branch of `sarc` cannot be taken after `read_bytes`. `SarcGate` still handles `None`, and `FileSystem.Sarc` always passes bytes.
- Yaz0 decompression, the AAMP/BYML conversions and the SARC table parser are parameters and are not interpreted.
- The contents of the seven extension sets are parameters, because they are defined outside `decomp.py`.
