/**
 * The stateful part of `decomp.py`: `cdir`, `copy`, the gated decoders
 * `aamp` and `byml`, and `sarc` with its member loop, as methods over a
 * filesystem that holds files by path and a set of directories.
 */
module Decomp {
  import opened Wrappers
  import opened Magic
  import opened Paths
  import opened Router
  import opened FileTree
  import opened Staging

  /** The text conversion of a decoder (`from_binary` then `to_text`); `None` is a RuntimeError. */
  type Converter = Bytes -> Option<Bytes>

  /** `oead.Sarc(data).get_files()`; `None` is a RuntimeError from a corrupt table. */
  type SarcParser = Bytes -> Option<seq<Member>>

  class FileSystem {
    var files: map<Path, Bytes>
    var dirs: set<Path>

    /** The filesystem as a value, for the specification functions. */
    function State(): Disk
      reads this
    {
      Disk(files, dirs)
    }

    constructor (initial: Disk)
      ensures State() == initial
    {
      files := initial.files;
      dirs := initial.dirs;
    }

    /** `cdir(out, is_archive)`. */
    method Cdir(out: Path, isArchive: bool)
      modifies this
      ensures State() == FileTree.Cdir(old(State()), out, isArchive)
    {
      if isArchive {
        dirs := MakeDirs(dirs, out);
      } else {
        dirs := MakeDirs(dirs, Parent(out));
      }
    }

    /** `copy(file, out)`: the bytes read from `file` are written unchanged to `out`. */
    method Copy(file: Path, out: Path)
      requires file in files
      modifies this
      ensures State() == WriteFile(old(State()), out, old(files)[file])
      ensures Lookup(files, out) == Some(old(files)[file])
    {
      var data := files[file];
      Cdir(out, false);
      files := files[out := data];
    }

    /**
     * The tail of `aamp` and `byml` once their gate passed: `cdir(out)`, then
     * the converted text written to `out.yml` unless the conversion raised.
     */
    method WriteConverted(out: Path, payload: Bytes, toText: Converter)
      modifies this
      ensures State() == WriteText(old(State()), out, toText(payload))
    {
      Cdir(out, false);
      var text := toText(payload);
      if text.Some? {
        files := files[AppendToName(out, ".yml") := text.value];
      }
    }

    /**
     * `aamp(file, out)`. On a rejected buffer nothing is created or written;
     * on an accepted one the text goes to `out.yml`.
     */
    method Aamp(file: Path, out: Path, yaz0: Decompressor, toText: Converter) returns (v: Verdict)
      requires file in files
      modifies this
      ensures v == AampGate(old(files)[file], yaz0)
      ensures !v.Accepted? ==> State() == old(State())
      ensures v.Accepted? ==> State() == WriteText(old(State()), out, toText(v.payload))
    {
      HeadIsStartsWith(YAZ0);
      HeadIsStartsWith(AAMP);
      var data := files[file];
      if Head(data, 4) == YAZ0 {
        var unwrapped := yaz0(data);
        if unwrapped.None? {
          return DecompressFailed;
        }
        data := unwrapped.value;
      }
      if Head(data, 4) != AAMP {
        return WrongMagic;
      }
      WriteConverted(out, data, toText);
      return Accepted(data);
    }

    /**
     * `byml(file, out)`: as `aamp`, with either byte-order marker "BY" or
     * "YB" accepted in the first two bytes.
     */
    method Byml(file: Path, out: Path, yaz0: Decompressor, toText: Converter) returns (v: Verdict)
      requires file in files
      modifies this
      ensures v == BymlGate(old(files)[file], yaz0)
      ensures !v.Accepted? ==> State() == old(State())
      ensures v.Accepted? ==> State() == WriteText(old(State()), out, toText(v.payload))
    {
      HeadIsStartsWith(YAZ0);
      HeadIsStartsWith(BY);
      HeadIsStartsWith(YB);
      var data := files[file];
      if Head(data, 4) == YAZ0 {
        var unwrapped := yaz0(data);
        if unwrapped.None? {
          return DecompressFailed;
        }
        data := unwrapped.value;
      }
      if Head(data, 2) != BY && Head(data, 2) != YB {
        return WrongMagic;
      }
      WriteConverted(out, data, toText);
      return Accepted(data);
    }

    /**
     * `sarc(file, out)`: the gate, `cdir(out)` (the parent of `out` only),
     * the member table, then the member loop. `tasks` lists the decoders called.
     */
    method Sarc(file: Path, out: Path, yaz0: Decompressor, parse: SarcParser, sets: ExtSets)
      returns (v: Verdict, tasks: seq<Invocation>)
      requires file in files
      modifies this
      ensures v == SarcGate(Some(old(files)[file]), yaz0)
      ensures !v.Accepted? ==> State() == old(State()) && tasks == []
      ensures v.Accepted? ==>
        var made := FileTree.Cdir(old(State()), out, false);
        match parse(v.payload)
        case None => State() == made && tasks == []
        case Some(ms) =>
          State() == StageAll(made, Plans(out, ms, sets)) && tasks == Tasks(Plans(out, ms, sets))
    {
      HeadIsStartsWith(YAZ0);
      HeadIsStartsWith(SARC);
      var data := files[file];
      // a buffer read from a file is never None, so only the length test can fail here
      if |data| < 4 {
        return TooShort, [];
      }
      if Head(data, 4) == YAZ0 {
        var unwrapped := yaz0(data);
        if unwrapped.None? {
          return DecompressFailed, [];
        }
        data := unwrapped.value;
      }
      if Head(data, 4) != SARC {
        return WrongMagic, [];
      }
      Cdir(out, false);
      var table := parse(data);
      if table.None? {
        return Accepted(data), [];
      }
      tasks := StageMembers(out, table.value, sets);
      return Accepted(data), tasks;
    }

    /**
     * The `for sfile in data.get_files()` loop: each member in table order
     * goes through one iteration of `StageMember`.
     */
    method StageMembers(out: Path, ms: seq<Member>, sets: ExtSets) returns (tasks: seq<Invocation>)
      modifies this
      ensures State() == StageAll(old(State()), Plans(out, ms, sets))
      ensures tasks == Tasks(Plans(out, ms, sets))
    {
      ghost var ps := Plans(out, ms, sets);
      ghost var start := State();
      tasks := [];
      var i := 0;
      assert ps[..0] == [];
      while i < |ms|
        invariant 0 <= i <= |ms|
        invariant State() == StageAll(start, ps[..i])
        invariant tasks == Tasks(ps[..i])
      {
        var task := StageMember(out, ms[i], sets);
        tasks := tasks + task;
        StageAllSnoc(start, ps, i);
        i := i + 1;
      }
      assert ps[..|ms|] == ps;
    }

    /**
     * One iteration: stage the member at `out/<name>` after making its parent,
     * route it by suffix, record the decoder called with the bytes its file
     * holds at that moment, and unlink the staged file when `is_del` is still set.
     */
    method StageMember(out: Path, sfile: Member, sets: ExtSets) returns (task: seq<Invocation>)
      modifies this
      ensures State() == StageOne(old(State()), PlanOf(out, sfile, sets))
      ensures task == TaskOf(PlanOf(out, sfile, sets))
    {
      var isDel := true;
      var outFile := Join(out, sfile.name);
      Cdir(outFile, false);
      var ext := Ext(outFile);
      files := files[outFile := sfile.data];
      task := [];
      match Route(ext, sets) {
        case Some(k) =>
          task := [Invocation(k, outFile, files[outFile])];
        case None =>
          isDel := false;
      }
      if isDel {
        files := files - {outFile};
      }
    }
  }
}
