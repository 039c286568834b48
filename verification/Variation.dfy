/** How much a price column varies within groups of rows sharing an instrument
    (python/src/inspector/mapping/tier1.py, variation_ratio): the evidence that tells a
    settlement price from a trade price. `cells` are the stripped cells of the column. */
module Variation {
  import opened Basics

  datatype Column = Column(keys: seq<string>, cells: seq<string>) {
    predicate Fits() {
      |keys| == |cells|
    }

    /** Row `i` is a filled row of group `k`. */
    ghost predicate InGroup(i: int, k: string)
      requires Fits()
    {
      0 <= i < |cells| && keys[i] == k && cells[i] != ""
    }

    function Size(k: string, n: nat): nat
      requires Fits() && n <= |cells|
    {
      if n == 0 then 0 else Size(k, n - 1) + if keys[n - 1] == k && cells[n - 1] != "" then 1 else 0
    }

    function Values(k: string, n: nat): set<string>
      requires Fits() && n <= |cells|
    {
      if n == 0 then {} else Values(k, n - 1) + if keys[n - 1] == k && cells[n - 1] != "" then {cells[n - 1]} else {}
    }

    /** Only groups with more than one filled row carry information about variation. */
    predicate Informative(k: string)
      requires Fits()
    {
      Size(k, |cells|) > 1
    }

    ghost predicate Varies(k: string)
      requires Fits()
    {
      exists i, j :: InGroup(i, k) && InGroup(j, k) && cells[i] != cells[j]
    }

    ghost function Places(k: string, n: nat): set<int>
      requires Fits() && n <= |cells|
    {
      set i | 0 <= i < n && InGroup(i, k)
    }

    lemma {:induction false} SizeIsHowMany(k: string, n: nat)
      requires Fits() && n <= |cells|
      ensures Size(k, n) == |Places(k, n)|
    {
      if n > 0 {
        SizeIsHowMany(k, n - 1);
        assert n - 1 !in Places(k, n - 1);
        assert Places(k, n) == Places(k, n - 1) + if InGroup(n - 1, k) then {n - 1} else {};
      }
    }

    function InformativeKeys(): set<string>
      requires Fits()
    {
      set k | k in keys && Informative(k)
    }

    ghost function VaryingKeys(): set<string>
      requires Fits()
    {
      set k | k in keys && Informative(k) && Varies(k)
    }

    /** The same set, counted by values. */
    function DifferingKeys(): set<string>
      requires Fits()
    {
      set k | k in keys && Informative(k) && |Values(k, |cells|)| > 1
    }

    lemma DifferingIsVarying()
      requires Fits()
      ensures DifferingKeys() == VaryingKeys()
    {
      forall k ensures k in DifferingKeys() <==> k in VaryingKeys() {
        ManyValuesVary(k);
      }
    }

    lemma {:induction false} ValuesAreHeld(k: string, n: nat, x: string)
      requires Fits() && n <= |cells|
      ensures x in Values(k, n) <==> exists i :: i < n && InGroup(i, k) && cells[i] == x
    {
      if n > 0 {
        ValuesAreHeld(k, n - 1, x);
        if InGroup(n - 1, k) && cells[n - 1] == x {
          assert x in Values(k, n);
        }
      }
    }

    lemma ManyValuesVary(k: string)
      requires Fits()
      ensures |Values(k, |cells|)| > 1 <==> Varies(k)
    {
      var vs := Values(k, |cells|);
      if |vs| > 1 {
        var x :| x in vs;
        assert |vs - {x}| > 0;
        var y :| y in vs - {x};
        ValuesAreHeld(k, |cells|, x);
        ValuesAreHeld(k, |cells|, y);
        var i :| InGroup(i, k) && cells[i] == x;
        var j :| InGroup(j, k) && cells[j] == y;
      } else if Varies(k) {
        var i, j :| InGroup(i, k) && InGroup(j, k) && cells[i] != cells[j];
        ValuesAreHeld(k, |cells|, cells[i]);
        ValuesAreHeld(k, |cells|, cells[j]);
        TwoMembers(vs, cells[i], cells[j]);
      }
    }

    /** A group that varies has two filled rows, so it is informative. */
    lemma {:induction false} SizeOfTwo(k: string, n: nat, i: nat, j: nat)
      requires Fits() && n <= |cells| && i < j < n && InGroup(i, k) && InGroup(j, k)
      ensures Size(k, n) > 1
    {
      if n - 1 > j {
        SizeOfTwo(k, n - 1, i, j);
      } else {
        SizeOfOne(k, j, i);
      }
    }

    lemma {:induction false} SizeOfOne(k: string, n: nat, i: nat)
      requires Fits() && n <= |cells| && i < n && InGroup(i, k)
      ensures Size(k, n) > 0
    {
      if n - 1 > i {
        SizeOfOne(k, n - 1, i);
      }
    }

    lemma VaryingIsInformative(k: string)
      requires Fits() && Varies(k)
      ensures k in VaryingKeys() && k in InformativeKeys()
    {
      var i, j :| InGroup(i, k) && InGroup(j, k) && cells[i] != cells[j];
      SizeOfTwo(k, |cells|, if i < j then i else j, if i < j then j else i);
    }

    ghost predicate TwoRows(k: string) {
      Fits() && exists i, j :: i < j && InGroup(i, k) && InGroup(j, k)
    }

    /** A group is informative exactly when it has two filled rows to compare. */
    lemma InformativeHasTwoRows(k: string)
      requires Fits()
      ensures Informative(k) <==> TwoRows(k)
    {
      var all := Places(k, |cells|);
      SizeIsHowMany(k, |cells|);
      if Informative(k) {
        var i :| i in all;
        assert |all - {i}| > 0;
        var j :| j in all - {i};
        assert InGroup(if i < j then i else j, k) && InGroup(if i < j then j else i, k);
      }
      if TwoRows(k) {
        var i, j :| i < j && InGroup(i, k) && InGroup(j, k);
        SizeOfTwo(k, |cells|, i, j);
      }
    }

    /** Once some group has two filled rows to compare, the ratio is 0 exactly when every
        group is constant, and 1 exactly when every comparable group varies. */
    lemma ShareMeansVariation(r: real)
      requires Fits() && InformativeKeys() != {}
      requires r == |VaryingKeys()| as real / |InformativeKeys()| as real
      ensures 0.0 <= r <= 1.0
      ensures r == 0.0 <==> forall k :: !Varies(k)
      ensures r == 1.0 <==> forall k | k in InformativeKeys() :: Varies(k)
    {
      var varying, informative := VaryingKeys(), InformativeKeys();
      assert varying <= informative;
      SubsetIsSmaller(varying, informative);
      forall k | Varies(k) ensures k in varying {
        VaryingIsInformative(k);
      }
      if k :| Varies(k) {
        SubsetIsSmaller({k}, varying);
      } else {
        assert varying == {};
      }
      if forall k | k in informative :: Varies(k) {
        assert varying == informative;
      }
      ShareOf(|varying|, |informative|, r);
    }
  }

  lemma ShareOf(a: nat, b: nat, r: real)
    requires a <= b && b > 0 && r == a as real / b as real
    ensures 0.0 <= r <= 1.0 && (r == 0.0 <==> a == 0) && (r == 1.0 <==> a == b)
  {
    assert r * b as real == a as real;
  }

  lemma TwoMembers(s: set<string>, x: string, y: string)
    requires x in s && y in s && x != y
    ensures |s| > 1
  {
    SubsetIsSmaller({x, y}, s);
  }

  lemma {:induction false} SubsetIsSmaller(a: set<string>, b: set<string>)
    requires a <= b
    ensures |a| <= |b|
    ensures |a| == |b| ==> a == b
    decreases |a|
  {
    if a != {} {
      var x :| x in a;
      SubsetIsSmaller(a - {x}, b - {x});
      assert a == a - {x} + {x} && b == b - {x} + {x};
    } else if |b| == 0 {
      assert b == {};
    }
  }

  // ---- without groups: overall distinctness ----

  function Filled(cells: seq<string>): nat {
    if cells == [] then 0 else Filled(cells[..|cells| - 1]) + if cells[|cells| - 1] != "" then 1 else 0
  }

  function FilledPlaces(cells: seq<string>): set<int> {
    set i | 0 <= i < |cells| && cells[i] != ""
  }

  lemma {:induction false} FilledIsHowMany(cells: seq<string>)
    ensures Filled(cells) == |FilledPlaces(cells)|
  {
    if cells != [] {
      var n := |cells| - 1;
      FilledIsHowMany(cells[..n]);
      assert FilledPlaces(cells) == FilledPlaces(cells[..n]) + if cells[n] != "" then {n} else {};
    }
  }

  predicate AllDiffer(cells: seq<string>) {
    forall i, j | 0 <= i < j < |cells| && cells[i] != "" :: cells[i] != cells[j]
  }

  lemma {:induction false} DistinctAtMostFilled(cells: seq<string>)
    ensures |DistinctCells(cells)| <= Filled(cells)
    ensures |DistinctCells(cells)| == Filled(cells) <==> AllDiffer(cells)
    ensures DistinctCells(cells) == {} <==> Filled(cells) == 0
  {
    if cells != [] {
      var n := |cells| - 1;
      var init, last := cells[..n], cells[n];
      DistinctAtMostFilled(init);
      assert cells == init + [last];
      assert DistinctCells(cells) == DistinctCells(init) + if last != "" then {last} else {};
      assert AllDiffer(cells) <==> AllDiffer(init) && (last == "" || last !in init);
    }
  }

  /** Without groups the ratio is 0 for a column without filled cells, and otherwise
      positive, and 1 exactly when no two filled cells are alike. */
  lemma DistinctnessMeansDifference(cells: seq<string>)
    ensures 0.0 <= Distinctness(cells) <= 1.0
    ensures Distinctness(cells) == 0.0 <==> FilledPlaces(cells) == {}
    ensures Distinctness(cells) == 1.0 <==> FilledPlaces(cells) != {} && AllDiffer(cells)
  {
    FilledIsHowMany(cells);
    DistinctAtMostFilled(cells);
    if Filled(cells) > 0 {
      ShareOf(|DistinctCells(cells)|, Filled(cells), Distinctness(cells));
    }
  }

  function DistinctCells(cells: seq<string>): set<string> {
    set c | c in cells && c != ""
  }

  function Distinctness(cells: seq<string>): real {
    if Filled(cells) == 0 then 0.0 else |DistinctCells(cells)| as real / Filled(cells) as real
  }

  method OverallDistinctness(cells: seq<string>) returns (r: real)
    ensures r == Distinctness(cells)
  {
    var distinct: set<string>, nonEmpty: nat := {}, 0;
    for i := 0 to |cells|
      invariant distinct == DistinctCells(cells[..i])
      invariant nonEmpty == Filled(cells[..i])
    {
      assert cells[..i + 1] == cells[..i] + [cells[i]];
      assert cells[..i + 1][..i] == cells[..i];
      if cells[i] != "" {
        distinct := distinct + {cells[i]};
        nonEmpty := nonEmpty + 1;
      }
    }
    assert cells[..|cells|] == cells;
    r := if nonEmpty > 0 then |distinct| as real / nonEmpty as real else 0.0;
  }

  function RatioOf(cells: seq<string>, groupBy: Option<seq<string>>): real {
    if cells == [] || groupBy.None? || |groupBy.value| != |cells| then Distinctness(cells)
    else
      var c := Column(groupBy.value, cells);
      if c.InformativeKeys() == {} then Distinctness(cells)
      else |c.DifferingKeys()| as real / |c.InformativeKeys()| as real
  }

  method VariationRatio(cells: seq<string>, groupBy: Option<seq<string>>) returns (r: real)
    ensures r == RatioOf(cells, groupBy)
    ensures
      var c := if groupBy.Some? then Column(groupBy.value, cells) else Column([], []);
      if cells != [] && c.Fits() && c.keys != [] && c.InformativeKeys() != {}
      then r == |c.VaryingKeys()| as real / |c.InformativeKeys()| as real
      else r == Distinctness(cells)
  {
    if cells == [] {
      return 0.0;
    }
    if groupBy.None? || groupBy.value == [] || |groupBy.value| != |cells| {
      r := OverallDistinctness(cells);
      return;
    }
    var c := Column(groupBy.value, cells);
    var groups, sizes := Gather(c);
    var informative, varying := Tally(c, groups, sizes);
    if informative == 0 {
      r := OverallDistinctness(cells);
      return;
    }
    c.DifferingIsVarying();
    r := varying as real / informative as real;
  }

  /** What the dictionaries of distinct values and of row counts say of group `k`. */
  ghost predicate GatheredAt(c: Column, groups: map<string, set<string>>, sizes: map<string, nat>, n: nat, k: string)
    requires c.Fits() && n <= |c.cells|
  {
    if k in groups then k in sizes && k in c.keys && groups[k] == c.Values(k, n) && sizes[k] == c.Size(k, n)
    else k !in sizes && c.Size(k, n) == 0 && c.Values(k, n) == {}
  }

  method Gather(c: Column) returns (groups: map<string, set<string>>, sizes: map<string, nat>)
    requires c.Fits()
    ensures forall k :: GatheredAt(c, groups, sizes, |c.cells|, k)
  {
    groups, sizes := map[], map[];
    for i := 0 to |c.cells|
      invariant forall k :: GatheredAt(c, groups, sizes, i, k)
    {
      var key, value := c.keys[i], c.cells[i];
      ghost var before, counts := groups, sizes;
      assert GatheredAt(c, before, counts, i, key);
      if value != "" {
        groups := groups[key := (if key in groups then groups[key] else {}) + {value}];
        sizes := sizes[key := (if key in sizes then sizes[key] else 0) + 1];
      }
      ghost var done := i + 1;
      forall k ensures GatheredAt(c, groups, sizes, done, k) {
        assert GatheredAt(c, before, counts, i, k);
      }
    }
  }

  /** `seen` holds the informative groups that are no longer to do, `differing` those of
      them that vary. */
  ghost predicate Tallied(c: Column, all: set<string>, todo: set<string>, seen: set<string>, differing: set<string>)
    requires c.Fits()
  {
    && (forall k :: k in seen <==> k in all && k !in todo && c.Informative(k))
    && (forall k :: k in differing <==> k in seen && c.Varies(k))
  }

  method Tally(c: Column, groups: map<string, set<string>>, sizes: map<string, nat>)
    returns (informative: nat, varying: nat)
    requires c.Fits() && forall k :: GatheredAt(c, groups, sizes, |c.cells|, k)
    ensures informative == |c.InformativeKeys()| && varying == |c.VaryingKeys()|
  {
    informative, varying := 0, 0;
    var todo := groups.Keys;
    ghost var seen, differing: set<string> := {}, {};
    while todo != {}
      invariant todo <= groups.Keys
      invariant Tallied(c, groups.Keys, todo, seen, differing)
      invariant informative == |seen| && varying == |differing|
      decreases todo
    {
      var k :| k in todo;
      assert GatheredAt(c, groups, sizes, |c.cells|, k);
      c.ManyValuesVary(k);
      todo := todo - {k};
      if sizes[k] > 1 {
        informative, seen := informative + 1, seen + {k};
        if |groups[k]| > 1 {
          varying, differing := varying + 1, differing + {k};
        }
      }
    }
    TalliedWhole(c, groups, sizes, seen, differing);
  }

  lemma TalliedWhole(
    c: Column, groups: map<string, set<string>>, sizes: map<string, nat>, seen: set<string>, differing: set<string>)
    requires c.Fits() && forall k :: GatheredAt(c, groups, sizes, |c.cells|, k)
    requires Tallied(c, groups.Keys, {}, seen, differing)
    ensures seen == c.InformativeKeys() && differing == c.VaryingKeys()
  {
    forall k ensures k in seen <==> k in c.keys && c.Informative(k) {
      assert GatheredAt(c, groups, sizes, |c.cells|, k);
    }
  }
}
