/**
 * The filesystem as `decomp.py` sees it: files by path, and the set of
 * directories. The functions here say what one call does to it.
 */
module FileTree {
  import opened Wrappers
  import opened Magic
  import opened Paths

  datatype Disk = Disk(files: map<Path, Bytes>, dirs: set<Path>)

  /** What reading `p` finds: its bytes, or nothing. */
  function Lookup(files: map<Path, Bytes>, p: Path): Option<Bytes>
  {
    if p in files then Some(files[p]) else None
  }

  /** Directories form a tree and every file sits in an existing directory. */
  predicate WellFormed(d: Disk)
  {
    && PrefixClosed(d.dirs)
    && forall p :: p in d.files ==> |p| <= 1 || Parent(p) in d.dirs
  }

  /** `cdir(out, is_archive)`: `out` itself in archive mode, otherwise its parent. */
  function Cdir(d: Disk, out: Path, isArchive: bool): (r: Disk)
    ensures r.files == d.files
    ensures isArchive && out != [] ==> out in r.dirs
    ensures !isArchive && out !in d.dirs ==> out !in r.dirs
    ensures !isArchive && |out| >= 2 ==> Parent(out) in r.dirs
    ensures var t := if isArchive then out else Parent(out);
      forall q :: q in r.dirs - d.dirs ==> 1 <= |q| <= |t| && q == t[..|q|]
  {
    var t := if isArchive then out else Parent(out);
    MakeDirsNewAreAncestors(d.dirs, t);
    Disk(d.files, MakeDirs(d.dirs, t))
  }

  /** `cdir` keeps the disk a well-formed tree. */
  lemma CdirKeepsTree(d: Disk, out: Path, isArchive: bool)
    requires WellFormed(d)
    ensures WellFormed(Cdir(d, out, isArchive))
  {
    MakeDirsKeepsTree(d.dirs, if isArchive then out else Parent(out));
  }

  /**
   * `exist_ok=True`: when the directory `cdir` makes is already there (`out` in
   * archive mode, the parent of `out` otherwise), `cdir` changes nothing.
   */
  lemma CdirExisting(d: Disk, out: Path, isArchive: bool)
    requires PrefixClosed(d.dirs)
    requires var target := if isArchive then out else Parent(out); target == [] || target in d.dirs
    ensures Cdir(d, out, isArchive) == d
  {
    MakeDirsExisting(d.dirs, if isArchive then out else Parent(out));
  }

  /** `cdir` can be repeated: the second call changes nothing, in either mode. */
  lemma CdirIdempotent(d: Disk, out: Path, isArchive: bool)
    ensures Cdir(Cdir(d, out, isArchive), out, isArchive) == Cdir(d, out, isArchive)
  {
    MakeDirsIdempotent(d.dirs, if isArchive then out else Parent(out));
  }

  /** `cdir(out); Path(out).write_bytes(data)`: make the parent, then write the file. */
  function WriteFile(d: Disk, out: Path, data: Bytes): (r: Disk)
    ensures Lookup(r.files, out) == Some(data)
    ensures forall q :: q != out ==> Lookup(r.files, q) == Lookup(d.files, q)
    ensures r.dirs == Cdir(d, out, false).dirs
  {
    var c := Cdir(d, out, false);
    Disk(c.files[out := data], c.dirs)
  }

  /** Writing a file after making its parent keeps the disk a well-formed tree. */
  lemma WriteFileKeepsTree(d: Disk, out: Path, data: Bytes)
    requires WellFormed(d)
    ensures WellFormed(WriteFile(d, out, data))
  {
    CdirKeepsTree(d, out, false);
  }

  /**
   * The tail of `aamp` and `byml` once the gate has passed: `cdir(out)`, then
   * the text written to `out.yml`. `None` is a RuntimeError from the text
   * conversion, caught after the directory was made, so nothing is written.
   */
  function WriteText(d: Disk, out: Path, text: Option<Bytes>): (r: Disk)
    ensures r.dirs == Cdir(d, out, false).dirs
    ensures text.Some? ==> Lookup(r.files, AppendToName(out, ".yml")) == text
    ensures forall q :: q != AppendToName(out, ".yml") || text.None? ==>
      Lookup(r.files, q) == Lookup(d.files, q)
  {
    var c := Cdir(d, out, false);
    if text.Some? then Disk(c.files[AppendToName(out, ".yml") := text.value], c.dirs) else c
  }

  /** Writing the text file keeps the disk a well-formed tree: `out.yml` sits beside `out`. */
  lemma WriteTextKeepsTree(d: Disk, out: Path, text: Option<Bytes>)
    requires WellFormed(d)
    ensures WellFormed(WriteText(d, out, text))
  {
    CdirKeepsTree(d, out, false);
  }
}
