/**
 * Paths as `pathlib` and `os.path` treat them in `decomp.py`: a path is its
 * sequence of components, and the empty sequence is the relative root ".".
 */
module Paths {
  type Path = seq<string>

  /** `os.path.dirname`: everything but the last component. */
  function Parent(p: Path): (r: Path)
    ensures |r| == if |p| == 0 then 0 else |p| - 1
  {
    if |p| == 0 then [] else p[..|p| - 1]
  }

  /** `Path.name`: the last component, empty for the root. */
  function Name(p: Path): string
  {
    if |p| == 0 then "" else p[|p| - 1]
  }

  /** `os.path.dirname` and `Path.name` together give the path back. */
  lemma ParentAndName(p: Path)
    requires |p| > 0
    ensures Parent(p) + [Name(p)] == p
  {
    assert p == p[..|p| - 1] + [p[|p| - 1]];
  }

  /**
   * `Path(f"{p}{s}")`: text appended to the last component. The root prints
   * as ".", so `f"{Path('')}.yml"` is "..yml".
   */
  function AppendToName(p: Path, s: string): (r: Path)
    ensures |r| == if |p| == 0 then 1 else |p|
    ensures Parent(r) == Parent(p)
    ensures Name(r) == (if |p| == 0 then "." else Name(p)) + s
  {
    if |p| == 0 then ["." + s] else Parent(p) + [Name(p) + s]
  }

  // ---------------------------------------------------------------------
  // Directories: `os.makedirs(p, exist_ok=True)`

  /** Every directory `os.makedirs(p)` makes sure of: `p` and all its ancestors. */
  function Ancestors(p: Path): (r: set<Path>)
    ensures |p| > 0 ==> p in r
    ensures forall q :: q in r ==> 1 <= |q| <= |p|
    decreases |p|
  {
    if |p| == 0 then {} else Ancestors(Parent(p)) + {p}
  }

  /** The ancestors of `p` are exactly its non-empty prefixes. */
  lemma {:induction false} AncestorsAre(p: Path, q: Path)
    ensures q in Ancestors(p) <==> 1 <= |q| <= |p| && q == p[..|q|]
    decreases |p|
  {
    if |p| > 0 {
      var up := Parent(p);
      AncestorsAre(up, q);
      if |q| < |p| {
        assert up[..|q|] == p[..|q|];
      } else if |q| == |p| {
        assert p[..|q|] == p;
      }
    }
  }

  /** A directory tree: the parent of every directory is a directory too. */
  predicate PrefixClosed(dirs: set<Path>)
  {
    forall d, k :: d in dirs && 1 <= k < |d| ==> d[..k] in dirs
  }

  /** The directory set after `os.makedirs(p, exist_ok=True)`. */
  function MakeDirs(dirs: set<Path>, p: Path): (r: set<Path>)
    ensures dirs <= r
    ensures |p| > 0 ==> p in r
  {
    dirs + Ancestors(p)
  }

  /** The only directories `os.makedirs(p)` creates are `p` and its ancestors. */
  lemma MakeDirsNewAreAncestors(dirs: set<Path>, p: Path)
    ensures forall d :: d in MakeDirs(dirs, p) - dirs ==> 1 <= |d| <= |p| && d == p[..|d|]
  {
    forall d | d in MakeDirs(dirs, p) - dirs ensures 1 <= |d| <= |p| && d == p[..|d|] {
      AncestorsAre(p, d);
    }
  }

  /** `os.makedirs` keeps the directories a tree. */
  lemma MakeDirsKeepsTree(dirs: set<Path>, p: Path)
    requires PrefixClosed(dirs)
    ensures PrefixClosed(MakeDirs(dirs, p))
  {
    var r := MakeDirs(dirs, p);
    forall d, k | d in r && 1 <= k < |d| ensures d[..k] in r {
      if d !in dirs {
        AncestorsAre(p, d);
        assert d[..k] == p[..k];
        AncestorsAre(p, d[..k]);
      }
    }
  }

  /** In a tree that holds `p`, every ancestor of `p` is there already. */
  lemma {:induction false} AncestorsWithin(dirs: set<Path>, p: Path)
    requires PrefixClosed(dirs)
    requires p == [] || p in dirs
    ensures Ancestors(p) <= dirs
    decreases |p|
  {
    if |p| > 0 {
      if |p| > 1 {
        assert Parent(p) == p[..|p| - 1];
      }
      AncestorsWithin(dirs, Parent(p));
    }
  }

  /** `exist_ok=True`: making a directory that already exists changes nothing. */
  lemma MakeDirsExisting(dirs: set<Path>, p: Path)
    requires PrefixClosed(dirs)
    requires p == [] || p in dirs
    ensures MakeDirs(dirs, p) == dirs
  {
    AncestorsWithin(dirs, p);
  }

  /** Making the same directories twice is the same as making them once. */
  lemma MakeDirsIdempotent(dirs: set<Path>, p: Path)
    ensures MakeDirs(MakeDirs(dirs, p), p) == MakeDirs(dirs, p)
  {
  }

  // ---------------------------------------------------------------------
  // Member names: `Path(out, name)`

  /** `str.find`: the first index of `c`, or `|s|` when there is none. */
  function IndexOf(s: string, c: char): (i: nat)
    ensures i <= |s|
    ensures i < |s| ==> s[i] == c
    ensures forall k :: 0 <= k < i ==> s[k] != c
  {
    if |s| == 0 then 0
    else if s[0] == c then 0
    else IndexOf(s[1..], c) + 1
  }

  /** The contract of `IndexOf` pins it down: the first occurrence is unique. */
  lemma IndexOfIs(s: string, c: char, k: nat)
    requires k <= |s| && (k < |s| ==> s[k] == c)
    requires forall m :: 0 <= m < k ==> s[m] != c
    ensures IndexOf(s, c) == k
  {
  }

  /** `name.split("/")`: the pieces between separators, empty ones included. */
  function Split(s: string): (parts: seq<string>)
    ensures |parts| >= 1
    ensures forall i :: 0 <= i < |parts| ==> '/' !in parts[i]
    decreases |s|
  {
    var i := IndexOf(s, '/');
    if i == |s| then
      [s]
    else
      assert forall k :: 0 <= k < i ==> s[..i][k] == s[k];
      [s[..i]] + Split(s[i + 1..])
  }

  /** `"/".join(parts)`, the inverse of `Split`. */
  function JoinSlash(parts: seq<string>): string
    requires |parts| >= 1
  {
    if |parts| == 1 then parts[0] else parts[0] + "/" + JoinSlash(parts[1..])
  }

  /** A name with no separator is a single piece. */
  lemma SplitNone(s: string)
    requires '/' !in s
    ensures Split(s) == [s]
  {
    IndexOfIs(s, '/', |s|);
  }

  /** The first separator ends the first piece; the rest is split on its own. */
  lemma SplitAt(s: string, i: nat)
    requires i < |s| && s[i] == '/'
    requires forall k :: 0 <= k < i ==> s[k] != '/'
    ensures Split(s) == [s[..i]] + Split(s[i + 1..])
  {
    IndexOfIs(s, '/', i);
  }

  /** Joining a piece in front of others puts one separator between them. */
  lemma JoinSlashCons(a: string, t: seq<string>)
    requires |t| >= 1
    ensures JoinSlash([a] + t) == a + "/" + JoinSlash(t)
  {
    assert ([a] + t)[1..] == t;
  }

  /** Splitting on "/" and joining back gives the name unchanged. */
  lemma {:induction false} JoinSplit(s: string)
    ensures JoinSlash(Split(s)) == s
    decreases |s|
  {
    var i := IndexOf(s, '/');
    if i < |s| {
      var rest := s[i + 1..];
      SplitAt(s, i);
      JoinSplit(rest);
      JoinSlashCons(s[..i], Split(rest));
      AroundSeparator(s, i);
    } else {
      assert s[..i] == s;
      SplitNone(s);
    }
  }

  /** A separator after a plain piece: that piece comes first, then the pieces of the rest. */
  lemma SplitAfterPiece(x: string, y: string)
    requires forall k :: 0 <= k < |x| ==> x[k] != '/'
    ensures Split(x + "/" + y) == [x] + Split(y)
  {
    var s := x + "/" + y;
    assert s[|x|] == '/' && s[..|x|] == x;
    assert s[|x| + 1..] == y;
    SplitAt(s, |x|);
  }

  /** A name is the text before one of its separators, the separator, and the text after it. */
  lemma AroundSeparator(s: string, i: nat)
    requires i < |s| && s[i] == '/'
    ensures s == s[..i] + "/" + s[i + 1..]
  {
    assert s[i..] == "/" + s[i + 1..];
    assert s == s[..i] + s[i..];
  }

  /** Regrouping a name with two separators. */
  lemma RegroupSeparators(x: string, rest: string, b: string)
    ensures (x + "/" + rest) + "/" + b == x + "/" + (rest + "/" + b)
  {
  }

  /** Regrouping a list of pieces behind a first one. */
  lemma RegroupPieces(x: string, p: seq<string>, q: seq<string>)
    ensures ([x] + p) + q == [x] + (p + q)
  {
  }

  /** The inductive step of `SplitConcat`: past the first separator of `a`. */
  lemma SplitConcatStep(a: string, b: string, i: nat)
    requires i < |a| && a[i] == '/'
    requires forall k :: 0 <= k < i ==> a[k] != '/'
    requires Split(a[i + 1..] + "/" + b) == Split(a[i + 1..]) + Split(b)
    ensures Split(a + "/" + b) == Split(a) + Split(b)
  {
    var x, rest := a[..i], a[i + 1..];
    AroundSeparator(a, i);
    RegroupSeparators(x, rest, b);
    var whole := Split(a + "/" + b);
    SplitAfterPiece(x, rest + "/" + b);
    assert whole == [x] + (Split(rest) + Split(b));
    SplitAfterPiece(x, rest);
    assert Split(a) == [x] + Split(rest);
    RegroupPieces(x, Split(rest), Split(b));
  }

  /** A separator between two names splits into the pieces of each. */
  lemma {:induction false} SplitConcat(a: string, b: string)
    ensures Split(a + "/" + b) == Split(a) + Split(b)
    decreases |a|
  {
    var i := IndexOf(a, '/');
    if i == |a| {
      IndexOfIs(a, '/', |a|);
      assert a[..i] == a;
      SplitAfterPiece(a, b);
    } else {
      SplitConcat(a[i + 1..], b);
      SplitConcatStep(a, b, i);
    }
  }

  /** The pieces pathlib keeps as components: empty and "." pieces are dropped. */
  function Keep(parts: seq<string>): (r: Path)
    ensures forall i :: 0 <= i < |r| ==> r[i] != "" && r[i] != "." && r[i] in parts
  {
    if |parts| == 0 then []
    else if parts[0] == "" || parts[0] == "." then Keep(parts[1..])
    else [parts[0]] + Keep(parts[1..])
  }

  lemma {:induction false} KeepConcat(a: seq<string>, b: seq<string>)
    ensures Keep(a + b) == Keep(a) + Keep(b)
  {
    if |a| > 0 {
      assert (a + b)[1..] == a[1..] + b;
      KeepConcat(a[1..], b);
    } else {
      assert a + b == b;
    }
  }

  /** The components of a member name, as `Path(out, name)` parses them. */
  function Components(name: string): (r: Path)
    ensures forall i :: 0 <= i < |r| ==> r[i] != "" && r[i] != "." && '/' !in r[i]
  {
    Keep(Split(name))
  }

  /** `Path("a/b") == Path("a") / "b"`: a separator splits the components. */
  lemma ComponentsConcat(a: string, b: string)
    ensures Components(a + "/" + b) == Components(a) + Components(b)
  {
    SplitConcat(a, b);
    KeepConcat(Split(a), Split(b));
  }

  /** A name with no separator that is neither empty nor "." is one component. */
  lemma PlainNameIsOneComponent(name: string)
    requires '/' !in name && name != "" && name != "."
    ensures Components(name) == [name]
  {
    SplitNone(name);
    assert Keep([name]) == [name] + Keep([]);
  }

  /** `Path(out, name)`: the staging path of a member. */
  function Join(out: Path, name: string): (r: Path)
    ensures |out| <= |r| && r[..|out|] == out
    ensures forall i :: |out| <= i < |r| ==> r[i] != "" && r[i] != "." && '/' !in r[i]
  {
    out + Components(name)
  }

  // ---------------------------------------------------------------------
  // Extensions: `Path.suffix`

  /** `str.rfind`: the last index of `c`, or -1. */
  function RFind(s: string, c: char): (r: int)
    ensures -1 <= r < |s|
    ensures 0 <= r ==> s[r] == c
    ensures forall k :: r < k < |s| ==> s[k] != c
  {
    if |s| == 0 then -1
    else if s[|s| - 1] == c then |s| - 1
    else RFind(s[..|s| - 1], c)
  }

  /**
   * `PurePath.suffix`: from the last dot of the name to its end, unless that
   * dot is the name's first or last character (".bashrc", "file.").
   */
  function Suffix(name: string): (r: string)
    ensures r != "" ==>
      2 <= |r| < |name| && r[0] == '.' && r == name[|name| - |r|..] &&
      forall k :: 0 < k < |r| ==> r[k] != '.'
    ensures r != "" <==>
      exists i :: 0 < i < |name| - 1 && name[i] == '.' && forall k :: i < k < |name| ==> name[k] != '.'
  {
    var i := RFind(name, '.');
    if 0 < i < |name| - 1 then
      name[i..]
    else
      ""
  }

  /** The routing extension of a path: the suffix of its last component. */
  function Ext(p: Path): (r: string)
    ensures r != "" ==> 2 <= |r| < |Name(p)| && r[0] == '.' && forall k :: 0 < k < |r| ==> r[k] != '.'
  {
    Suffix(Name(p))
  }

  /** The extension of a staging path comes from the last component of the member name. */
  lemma ExtOfJoin(out: Path, name: string)
    ensures Components(name) != [] ==>
      Ext(Join(out, name)) == Suffix(Components(name)[|Components(name)| - 1])
    ensures Components(name) == [] ==> Ext(Join(out, name)) == Ext(out)
  {
    if Components(name) == [] {
      assert Join(out, name) == out;
    }
  }
}
