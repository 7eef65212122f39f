/**
 * The extension router of `sarc`: an if/elif chain over seven extension sets,
 * first match wins, an extension in none of them passes through.
 */
module Router {
  import opened Wrappers

  /** The decoder a routed member is handed to. */
  datatype Kind = Bars | Bfevfl | Bfres | Byml | Havok | Msbt | Sarc

  /**
   * The extension sets `BARS_EXT`, `BFEVFL_EXT`, `BFRES_EXT`, `BYML_EXTS`,
   * `HK_EXT`, `MSBT_EXT` and `SARC_EXTS`. Their contents are defined outside
   * `decomp.py`, so they are a parameter here; they may overlap.
   */
  datatype ExtSets = ExtSets(
    bars: set<string>, bfevfl: set<string>, bfres: set<string>, byml: set<string>,
    hk: set<string>, msbt: set<string>, sarc: set<string>)

  function SetOf(sets: ExtSets, k: Kind): set<string>
  {
    match k
    case Bars => sets.bars
    case Bfevfl => sets.bfevfl
    case Bfres => sets.bfres
    case Byml => sets.byml
    case Havok => sets.hk
    case Msbt => sets.msbt
    case Sarc => sets.sarc
  }

  /** The order in which the chain tests the sets. */
  const Order: seq<Kind> := [Bars, Bfevfl, Bfres, Byml, Havok, Msbt, Sarc]

  /** The routing chain as written; `None` is the `else: is_del = False` branch. */
  function Route(ext: string, sets: ExtSets): (r: Option<Kind>)
    ensures r.Some? ==> ext in SetOf(sets, r.value)
    ensures r.None? <==> forall k :: ext !in SetOf(sets, k)
  {
    if ext in sets.bars then Some(Bars)
    else if ext in sets.bfevfl then Some(Bfevfl)
    else if ext in sets.bfres then Some(Bfres)
    else if ext in sets.byml then Some(Byml)
    else if ext in sets.hk then Some(Havok)
    else if ext in sets.msbt then Some(Msbt)
    else if ext in sets.sarc then Some(Sarc)
    else None
  }

  /** Reference definition: the first kind in `order` whose set holds `ext`. */
  function FirstMatch(order: seq<Kind>, ext: string, sets: ExtSets): Option<Kind>
  {
    if |order| == 0 then None
    else if ext in SetOf(sets, order[0]) then Some(order[0])
    else FirstMatch(order[1..], ext, sets)
  }

  /** What `FirstMatch` finds is a kind of `order` whose set holds `ext`. */
  lemma {:induction false} FirstMatchFound(order: seq<Kind>, ext: string, sets: ExtSets)
    ensures FirstMatch(order, ext, sets).Some? ==>
      var k := FirstMatch(order, ext, sets).value;
      k in order && ext in SetOf(sets, k)
  {
    if |order| > 0 && ext !in SetOf(sets, order[0]) {
      FirstMatchFound(order[1..], ext, sets);
    }
  }

  /** `FirstMatch` finds `k` exactly when `k` matches and no kind before it does. */
  lemma {:induction false} FirstMatchChooses(order: seq<Kind>, ext: string, sets: ExtSets, i: nat)
    requires i < |order|
    requires forall a, b :: 0 <= a < b < |order| ==> order[a] != order[b]
    ensures FirstMatch(order, ext, sets) == Some(order[i]) <==>
      ext in SetOf(sets, order[i]) && forall j :: 0 <= j < i ==> ext !in SetOf(sets, order[j])
  {
    FirstMatchFound(order, ext, sets);
    if i > 0 {
      if ext in SetOf(sets, order[0]) {
        assert order[0] != order[i];
        assert FirstMatch(order, ext, sets) == Some(order[0]);
        assert !(forall j :: 0 <= j < i ==> ext !in SetOf(sets, order[j])) by {
          assert ext in SetOf(sets, order[0]);
        }
      } else {
        FirstMatchChooses(order[1..], ext, sets, i - 1);
        assert order[1..][i - 1] == order[i];
        NoneBeforeShift(order, ext, sets, i);
      }
    }
  }

  /** "No set before position `i` holds `ext`", counted in `order` or in its tail. */
  lemma NoneBeforeShift(order: seq<Kind>, ext: string, sets: ExtSets, i: nat)
    requires 0 < i <= |order| && ext !in SetOf(sets, order[0])
    ensures (forall j :: 0 <= j < i - 1 ==> ext !in SetOf(sets, order[1..][j])) <==>
            (forall j :: 0 <= j < i ==> ext !in SetOf(sets, order[j]))
  {
    if forall j :: 0 <= j < i - 1 ==> ext !in SetOf(sets, order[1..][j]) {
      forall j | 0 < j < i ensures ext !in SetOf(sets, order[j]) {
        assert order[j] == order[1..][j - 1];
      }
    }
    if forall j :: 0 <= j < i ==> ext !in SetOf(sets, order[j]) {
      forall j | 0 <= j < i - 1 ensures ext !in SetOf(sets, order[1..][j]) {
        assert order[1..][j] == order[j + 1];
      }
    }
  }

  /** `FirstMatch` finds nothing exactly when no set in `order` holds `ext`. */
  lemma {:induction false} FirstMatchNone(order: seq<Kind>, ext: string, sets: ExtSets)
    ensures FirstMatch(order, ext, sets) == None <==>
      forall j :: 0 <= j < |order| ==> ext !in SetOf(sets, order[j])
  {
    if |order| > 0 {
      FirstMatchNone(order[1..], ext, sets);
      assert forall j :: 0 < j < |order| ==> order[1..][j - 1] == order[j];
    }
  }

  /** The chain is the first match in the fixed order BARS, BFEVFL, BFRES, BYML, HK, MSBT, SARC. */
  lemma RouteIsFirstMatch(ext: string, sets: ExtSets)
    ensures Route(ext, sets) == FirstMatch(Order, ext, sets)
  {
    // unfold the reference definition one kind at a time, from the end of the chain
    var tail := if ext in sets.sarc then Some(Sarc) else None;
    assert FirstMatch([Sarc], ext, sets) == tail by { assert [Sarc][1..] == []; }
    tail := if ext in sets.msbt then Some(Msbt) else tail;
    assert FirstMatch([Msbt, Sarc], ext, sets) == tail by { assert [Msbt, Sarc][1..] == [Sarc]; }
    tail := if ext in sets.hk then Some(Havok) else tail;
    assert FirstMatch(Order[4..], ext, sets) == tail by { assert Order[4..][1..] == [Msbt, Sarc]; }
    tail := if ext in sets.byml then Some(Byml) else tail;
    assert FirstMatch(Order[3..], ext, sets) == tail by { assert Order[3..][1..] == Order[4..]; }
    tail := if ext in sets.bfres then Some(Bfres) else tail;
    assert FirstMatch(Order[2..], ext, sets) == tail by { assert Order[2..][1..] == Order[3..]; }
    tail := if ext in sets.bfevfl then Some(Bfevfl) else tail;
    assert FirstMatch(Order[1..], ext, sets) == tail by { assert Order[1..][1..] == Order[2..]; }
  }

  function Rank(k: Kind): (i: nat)
    ensures i < |Order| && Order[i] == k
  {
    match k
    case Bars => 0
    case Bfevfl => 1
    case Bfres => 2
    case Byml => 3
    case Havok => 4
    case Msbt => 5
    case Sarc => 6
  }

  /** First match: `k` is chosen exactly when it matches and no earlier set in the chain does. */
  lemma RouteFirstMatch(ext: string, sets: ExtSets, k: Kind)
    ensures Route(ext, sets) == Some(k) <==>
      ext in SetOf(sets, k) && forall j :: 0 <= j < Rank(k) ==> ext !in SetOf(sets, Order[j])
  {
    RouteIsFirstMatch(ext, sets);
    FirstMatchChooses(Order, ext, sets, Rank(k));
  }

  /** Pass-through: an extension is left alone exactly when no set holds it. */
  lemma RoutePassThrough(ext: string, sets: ExtSets)
    ensures Route(ext, sets) == None <==> forall k :: ext !in SetOf(sets, k)
  {
    RouteIsFirstMatch(ext, sets);
    FirstMatchNone(Order, ext, sets);
    forall k ensures Route(ext, sets) == None ==> ext !in SetOf(sets, k) {
      assert Order[Rank(k)] == k;
    }
  }

  predicate Disjoint(sets: ExtSets)
  {
    forall k1, k2 :: k1 != k2 ==> SetOf(sets, k1) !! SetOf(sets, k2)
  }

  /** With disjoint sets the order does not matter: the route is the one set holding `ext`. */
  lemma RouteDisjoint(ext: string, sets: ExtSets, k: Kind)
    requires Disjoint(sets)
    ensures Route(ext, sets) == Some(k) <==> ext in SetOf(sets, k)
  {
    RouteFirstMatch(ext, sets, k);
    if ext in SetOf(sets, k) {
      forall j | 0 <= j < Rank(k) ensures ext !in SetOf(sets, Order[j]) {
        assert Order[j] != k;
      }
    }
  }
}
