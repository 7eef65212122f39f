/**
 * The member loop of `sarc` as a function of the disk: every member is
 * written to `out/<name>`, routed by its extension, and its staged file is
 * removed again when a decoder was handed it.
 */
module Staging {
  import opened Wrappers
  import opened Magic
  import opened Paths
  import opened Router
  import opened FileTree

  /** One entry of `oead.Sarc(data).get_files()`. */
  datatype Member = Member(name: string, data: Bytes)

  /**
   * "Decoder `kind` was called as `kind(path, path)` while `path` held the
   * bytes `input`", one element of `tasks`.
   */
  datatype Invocation = Invocation(kind: Kind, path: Path, input: Bytes)

  /**
   * What one iteration decides for its member: the staging path `out_file`,
   * the bytes written there, and the decoder chosen (`None`: `is_del` is cleared).
   */
  datatype Plan = Plan(path: Path, data: Bytes, route: Option<Kind>)

  /** `out_file = Path(out, sfile.name)` and the routing chain applied to `out_file.suffix`. */
  function PlanOf(out: Path, m: Member, sets: ExtSets): (p: Plan)
    ensures |out| <= |p.path| && p.path[..|out|] == out && p.data == m.data
    ensures p.route.Some? ==> Ext(p.path) in SetOf(sets, p.route.value)
    ensures p.route.None? <==> forall k :: Ext(p.path) !in SetOf(sets, k)
  {
    var path := Join(out, m.name);
    Plan(path, m.data, Route(Ext(path), sets))
  }

  /**
   * A member goes to decoder `k` exactly when `k`'s set holds the suffix of
   * its staging path and no set tested earlier does; that suffix is the one
   * of the last component of the member's name.
   */
  lemma PlanOfRoutes(out: Path, m: Member, sets: ExtSets, k: Kind)
    ensures var p := PlanOf(out, m, sets);
      p.route == Some(k) <==>
        Ext(p.path) in SetOf(sets, k) && forall j :: 0 <= j < Rank(k) ==> Ext(p.path) !in SetOf(sets, Order[j])
    ensures var c := Components(m.name);
      c != [] ==> Ext(PlanOf(out, m, sets).path) == Suffix(c[|c| - 1])
  {
    RouteFirstMatch(Ext(Join(out, m.name)), sets, k);
    ExtOfJoin(out, m.name);
  }

  /**
   * The plans of a member table, in table order. The ensures only expose
   * the indexing, so that the loop invariant of the staging method can use it.
   */
  function Plans(out: Path, ms: seq<Member>, sets: ExtSets): (ps: seq<Plan>)
    ensures |ps| == |ms|
    ensures forall i :: 0 <= i < |ms| ==> ps[i] == PlanOf(out, ms[i], sets)
  {
    seq(|ms|, i requires 0 <= i < |ms| => PlanOf(out, ms[i], sets))
  }

  /** The invocation one plan adds to `tasks`: none for a pass-through member. */
  function TaskOf(p: Plan): seq<Invocation>
  {
    match p.route
    case None => []
    case Some(k) => [Invocation(k, p.path, p.data)]
  }

  /** One iteration: `cdir(out_file)`, `write_bytes`, then `unlink` when `is_del` is set. */
  function StageOne(d: Disk, p: Plan): (r: Disk)
    ensures r.dirs == MakeDirs(d.dirs, Parent(p.path))
    ensures Lookup(r.files, p.path) == if p.route.None? then Some(p.data) else None
    ensures forall q :: q != p.path ==> Lookup(r.files, q) == Lookup(d.files, q)
  {
    var w := WriteFile(d, p.path, p.data);
    var isDel := p.route.Some?;
    if isDel then Disk(w.files - {p.path}, w.dirs) else w
  }

  /** One iteration keeps the disk a well-formed tree, whether or not it unlinks. */
  lemma StageOneKeepsTree(d: Disk, p: Plan)
    requires WellFormed(d)
    ensures WellFormed(StageOne(d, p))
  {
    WriteFileKeepsTree(d, p.path, p.data);
  }

  /** The disk after the loop has carried out `ps`, in order. */
  function StageAll(d: Disk, ps: seq<Plan>): (r: Disk)
    ensures d.dirs <= r.dirs
  {
    if |ps| == 0 then d
    else StageOne(StageAll(d, ps[..|ps| - 1]), ps[|ps| - 1])
  }

  /** The `tasks` list after the loop has carried out `ps`. */
  function Tasks(ps: seq<Plan>): (r: seq<Invocation>)
    ensures |r| <= |ps|
  {
    if |ps| == 0 then []
    else Tasks(ps[..|ps| - 1]) + TaskOf(ps[|ps| - 1])
  }

  /** One more iteration of the loop: the definitions unfolded at position `i`. */
  lemma StageAllSnoc(d: Disk, ps: seq<Plan>, i: nat)
    requires i < |ps|
    ensures StageAll(d, ps[..i + 1]) == StageOne(StageAll(d, ps[..i]), ps[i])
    ensures Tasks(ps[..i + 1]) == Tasks(ps[..i]) + TaskOf(ps[i])
  {
    assert ps[..i + 1][..i] == ps[..i];
  }

  /** No two plans stage at the same path. */
  predicate DistinctPaths(ps: seq<Plan>)
  {
    forall i, j :: 0 <= i < j < |ps| ==> ps[i].path != ps[j].path
  }

  /** The loop keeps the disk a well-formed tree. */
  lemma {:induction false} StageAllWellFormed(d: Disk, ps: seq<Plan>)
    requires WellFormed(d)
    ensures WellFormed(StageAll(d, ps))
  {
    if |ps| > 0 {
      StageAllWellFormed(d, ps[..|ps| - 1]);
      StageOneKeepsTree(StageAll(d, ps[..|ps| - 1]), ps[|ps| - 1]);
    }
  }

  /** A path no member is staged at is left exactly as it was. */
  lemma {:induction false} StageAllElsewhere(d: Disk, ps: seq<Plan>, q: Path)
    requires forall i :: 0 <= i < |ps| ==> ps[i].path != q
    ensures Lookup(StageAll(d, ps).files, q) == Lookup(d.files, q)
  {
    if |ps| > 0 {
      StageAllElsewhere(d, ps[..|ps| - 1], q);
    }
  }

  /**
   * The last member staged at a path decides it: a pass-through member's
   * payload stays there byte for byte, a routed member's staged file is gone.
   */
  lemma {:induction false} StageAllOutcome(d: Disk, ps: seq<Plan>, i: nat)
    requires i < |ps|
    requires forall j :: i < j < |ps| ==> ps[j].path != ps[i].path
    ensures Lookup(StageAll(d, ps).files, ps[i].path) ==
      if ps[i].route.None? then Some(ps[i].data) else None
  {
    var n := |ps| - 1;
    var prev := StageAll(d, ps[..n]);
    assert StageAll(d, ps) == StageOne(prev, ps[n]);
    if i < n {
      StageAllOutcome(d, ps[..n], i);
      assert ps[..n][i] == ps[i];
      assert ps[n].path != ps[i].path;
    }
  }

  /** The directories the loop needs: every ancestor of every member's parent directory. */
  function Needed(ps: seq<Plan>): set<Path>
  {
    if |ps| == 0 then {}
    else Needed(ps[..|ps| - 1]) + Ancestors(Parent(ps[|ps| - 1].path))
  }

  /** The loop adds exactly the needed directories: writes and unlinks make or remove none. */
  lemma {:induction false} StageAllDirs(d: Disk, ps: seq<Plan>)
    ensures StageAll(d, ps).dirs == d.dirs + Needed(ps)
  {
    if |ps| > 0 {
      StageAllDirs(d, ps[..|ps| - 1]);
    }
  }

  /** Every member's parent directory, and each of its ancestors, is needed. */
  lemma {:induction false} NeededHasParents(ps: seq<Plan>, i: nat)
    requires i < |ps|
    ensures Ancestors(Parent(ps[i].path)) <= Needed(ps)
  {
    var n := |ps| - 1;
    if i < n {
      NeededHasParents(ps[..n], i);
      assert ps[..n][i] == ps[i];
    }
  }

  /** Each member's parent directory exists once the loop is done. */
  lemma StageAllMadeParent(d: Disk, ps: seq<Plan>, i: nat)
    requires i < |ps| && 2 <= |ps[i].path|
    ensures Parent(ps[i].path) in StageAll(d, ps).dirs
  {
    StageAllDirs(d, ps);
    NeededHasParents(ps, i);
  }

  /** Carrying out a prefix of the plans yields a prefix of the tasks: tasks keep table order. */
  lemma {:induction false} TasksPrefix(ps: seq<Plan>, i: nat)
    requires i <= |ps|
    ensures |Tasks(ps[..i])| <= |Tasks(ps)|
    ensures Tasks(ps)[..|Tasks(ps[..i])|] == Tasks(ps[..i])
    decreases |ps| - i
  {
    if i < |ps| {
      var n := |ps| - 1;
      var prev := Tasks(ps[..n]);
      TasksPrefix(ps[..n], i);
      assert ps[..n][..i] == ps[..i];
      assert Tasks(ps) == prev + TaskOf(ps[n]);
      AppendKeepsPrefix(prev, TaskOf(ps[n]), |Tasks(ps[..i])|);
    } else {
      assert ps[..i] == ps;
    }
  }

  /** Appending to a list leaves its prefixes as they were. */
  lemma AppendKeepsPrefix(a: seq<Invocation>, b: seq<Invocation>, k: nat)
    requires k <= |a|
    ensures (a + b)[..k] == a[..k]
  {
  }

  /**
   * Every routed member contributes exactly one task, `K(out_file, out_file)`,
   * placed after the tasks of every member before it in the table.
   */
  lemma TaskOfMember(ps: seq<Plan>, i: nat)
    requires i < |ps|
    ensures |Tasks(ps[..i + 1])| == |Tasks(ps[..i])| + |TaskOf(ps[i])|
    ensures ps[i].route.Some? ==>
      var t := |Tasks(ps[..i])|;
      t < |Tasks(ps)| && Tasks(ps)[t] == Invocation(ps[i].route.value, ps[i].path, ps[i].data)
  {
    assert ps[..i + 1][..i] == ps[..i];
    TasksPrefix(ps, i + 1);
    var t := |Tasks(ps[..i])|;
    if ps[i].route.Some? {
      assert Tasks(ps[..i + 1])[t] == Invocation(ps[i].route.value, ps[i].path, ps[i].data);
      assert Tasks(ps)[t] == Tasks(ps)[..t + 1][t];
    }
  }

  /** Every task names a member that was routed to that decoder; pass-through members add none. */
  lemma {:induction false} TasksAreRoutedMembers(ps: seq<Plan>, t: nat)
    requires t < |Tasks(ps)|
    ensures exists i :: 0 <= i < |ps| && ps[i].route == Some(Tasks(ps)[t].kind) &&
                        ps[i].path == Tasks(ps)[t].path && ps[i].data == Tasks(ps)[t].input
  {
    var n := |ps| - 1;
    var prev := Tasks(ps[..n]);
    if t < |prev| {
      TasksAreRoutedMembers(ps[..n], t);
      var i :| 0 <= i < n && ps[..n][i].route == Some(prev[t].kind) &&
        ps[..n][i].path == prev[t].path && ps[..n][i].data == prev[t].input;
      assert ps[..n][i] == ps[i];
    } else {
      assert ps[n].route.Some?;
    }
  }

  /**
   * With distinct staging paths every member ends in exactly one of two
   * states: kept byte for byte (pass-through, no task) or dispatched to its
   * decoder with its staged file removed.
   */
  lemma StagedOrDispatched(d: Disk, ps: seq<Plan>, i: nat)
    requires i < |ps| && DistinctPaths(ps)
    ensures var files := StageAll(d, ps).files;
      || (ps[i].route.None? && Lookup(files, ps[i].path) == Some(ps[i].data))
      || (ps[i].route.Some? && Lookup(files, ps[i].path) == None &&
          Invocation(ps[i].route.value, ps[i].path, ps[i].data) in Tasks(ps))
  {
    StageAllOutcome(d, ps, i);
    TaskOfMember(ps, i);
  }
}
