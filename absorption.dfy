/** What both copies of `MaterialAbs` compute, as functions of their inputs:
    the energy grid, the edge window, the masked selection and its extrema,
    each compound's absorption curve and their point-by-point sum, the
    transmission, and the compound-name strings. */
module Absorption {
  import opened Common
  import Formula

  // ---- the energy grid ------------------------------------------------------

  /** `max(100, edge_value - 500)`, in eV. */
  function GridStart(edgeEv: real): real
  {
    if edgeEv - 500.0 > 100.0 then edgeEv - 500.0 else 100.0
  }

  /** The number of points of `np.arange(start, edge_value + 500)`. */
  function GridLength(edgeEv: real): nat
  {
    var span := edgeEv + 500.0 - GridStart(edgeEv);
    if span <= 0.0 then 0 else Ceil(span)
  }

  /** `np.arange(max(100, edge_value - 500), edge_value + 500) / 1000`: the
      grid in keV, point i being the start plus i eV. */
  function EnergyGrid(edgeEv: real): (g: seq<real>)
    ensures |g| == GridLength(edgeEv)
  {
    var n := GridLength(edgeEv);
    seq(n, i requires 0 <= i < n => (GridStart(edgeEv) + i as real) / 1000.0)
  }

  /** The grid starts at the start point, steps by exactly 1 eV (0.001 keV),
      is strictly increasing, never goes below 0.1 keV, keeps every point
      below `edge_value + 500` eV, and stops where the next step would not. */
  lemma GridShape(edgeEv: real)
    ensures var g := EnergyGrid(edgeEv);
      && (|g| > 0 ==> g[0] * 1000.0 == GridStart(edgeEv))
      && (forall i :: 0 <= i < |g| - 1 ==> g[i + 1] - g[i] == 0.001)
      && (forall i :: 0 <= i < |g| ==> g[i] >= 0.1 && g[i] * 1000.0 < edgeEv + 500.0)
      && (forall i, j :: 0 <= i < j < |g| ==> g[i] < g[j])
      && GridStart(edgeEv) + |g| as real >= edgeEv + 500.0
  {
  }

  /** The grid points in eV are exactly the start plus the whole numbers of
      steps that stay below `edge_value + 500`. */
  lemma GridIndexRange(edgeEv: real, k: nat)
    ensures k < |EnergyGrid(edgeEv)| <==> GridStart(edgeEv) + k as real < edgeEv + 500.0
    ensures k < |EnergyGrid(edgeEv)| ==> EnergyGrid(edgeEv)[k] * 1000.0 == GridStart(edgeEv) + k as real
  {
  }

  /** An edge at or above 600 eV gets a full 1000-point grid. */
  lemma GridOfHighEdge(edgeEv: real)
    requires edgeEv >= 600.0
    ensures |EnergyGrid(edgeEv)| == 1000
  {
  }

  /** The grid is empty exactly when the edge lies at or below -400 eV. */
  lemma GridEmptyIff(edgeEv: real)
    ensures |EnergyGrid(edgeEv)| == 0 <==> edgeEv <= -400.0
  {
  }

  // ---- construction ---------------------------------------------------------

  /** The lookups of `__init__`, in order: the atomic number of the element
      symbol, then the edge name check, then the edge energy (keV) converted
      to eV. */
  function EdgeValue(lib: Library, element: string, edge: string): (r: Result<real>)
    ensures r.Success? ==> lib.symbolToAtomicNumber(element).Some? && EdgeShell(edge).Some?
  {
    match lib.symbolToAtomicNumber(element)
    case None => Failure(UnknownElement(element))
    case Some(z) =>
      match EdgeShell(edge)
      case None => Failure(InvalidEdge(edge))
      case Some(shell) =>
        match lib.edgeEnergy(z, shell)
        case None => Failure(EdgeEnergyUnavailable(z, shell))
        case Some(kev) => Success(kev * 1000.0)
  }

  /** Construction raises for every edge name other than K, L1, L2, L3, but
      an unknown element symbol is reported first. */
  lemma ConstructionErrors(lib: Library, element: string, edge: string)
    ensures lib.symbolToAtomicNumber(element).None? ==> EdgeValue(lib, element, edge) == Failure(UnknownElement(element))
    ensures lib.symbolToAtomicNumber(element).Some? ==>
      (EdgeValue(lib, element, edge) == Failure(InvalidEdge(edge)) <==>
       !(edge == "K" || edge == "L1" || edge == "L2" || edge == "L3"))
  {
  }

  // ---- the edge window of abs_calc ------------------------------------------

  /** `E1 = edge_value - 50`, replaced by 100 only when negative, and
      `E2 = edge_value + 50`. */
  function EdgeWindow(edgeEv: real): (w: (real, real))
    ensures w.1 == edgeEv + 50.0
    ensures edgeEv - 50.0 >= 0.0 ==> w.0 == edgeEv - 50.0
    ensures edgeEv - 50.0 < 0.0 ==> w.0 == 100.0
    ensures w.0 >= 0.0
  {
    var e1 := edgeEv - 50.0;
    (if e1 < 0.0 then 100.0 else e1, edgeEv + 50.0)
  }

  /** Some grid point lies in the inclusive window (energy * 1000 in eV). */
  predicate Hits(grid: seq<real>, e1: real, e2: real)
  {
    exists i :: 0 <= i < |grid| && InWindow(grid[i] * 1000.0, e1, e2)
  }

  /** The window that `abs_calc` passes to `edge_jump_calc` always contains a
      grid point, unless the grid itself is empty. */
  lemma EdgeWindowHitsGrid(edgeEv: real)
    ensures Hits(EnergyGrid(edgeEv), EdgeWindow(edgeEv).0, EdgeWindow(edgeEv).1) <==> edgeEv > -400.0
  {
    var g := EnergyGrid(edgeEv);
    var (e1, e2) := EdgeWindow(edgeEv);
    if edgeEv > -400.0 {
      var k: nat;
      if edgeEv >= 600.0 {
        k := 450;
      } else if edgeEv >= 150.0 {
        k := Ceil(edgeEv - 50.0) - 100;
      } else {
        k := 0;
      }
      GridIndexRange(edgeEv, k);
      assert InWindow(g[k] * 1000.0, e1, e2);
    } else {
      GridEmptyIff(edgeEv);
    }
  }

  // ---- masked selection and its extrema -------------------------------------

  /** `abs_total[mask]`: the values at the grid points whose energy in eV
      lies in the inclusive window, in grid order. */
  function Select(values: seq<real>, grid: seq<real>, e1: real, e2: real): (r: seq<real>)
    requires |values| == |grid|
    ensures |r| <= |values|
    decreases |grid|
  {
    if grid == [] then []
    else
      var rest := Select(values[1..], grid[1..], e1, e2);
      if InWindow(grid[0] * 1000.0, e1, e2) then [values[0]] + rest else rest
  }

  /** Every value at a grid point inside the window is selected. */
  lemma {:induction false} SelectKeepsWindow(values: seq<real>, grid: seq<real>, e1: real, e2: real)
    requires |values| == |grid|
    ensures forall i :: 0 <= i < |grid| && InWindow(grid[i] * 1000.0, e1, e2) ==>
      values[i] in Select(values, grid, e1, e2)
    decreases |grid|
  {
    if grid != [] {
      SelectKeepsWindow(values[1..], grid[1..], e1, e2);
      assert forall i :: 1 <= i < |grid| ==> values[i] == values[1..][i - 1] && grid[i] == grid[1..][i - 1];
    }
  }

  /** Every selected value comes from a grid point inside the window. */
  lemma {:induction false} SelectFromWindow(values: seq<real>, grid: seq<real>, e1: real, e2: real, x: real)
    requires |values| == |grid|
    requires x in Select(values, grid, e1, e2)
    ensures exists i :: 0 <= i < |grid| && InWindow(grid[i] * 1000.0, e1, e2) && values[i] == x
  {
    var rest := Select(values[1..], grid[1..], e1, e2);
    if InWindow(grid[0] * 1000.0, e1, e2) && x == values[0] {
      assert InWindow(grid[0] * 1000.0, e1, e2) && values[0] == x;
    } else {
      assert x in rest;
      SelectFromWindow(values[1..], grid[1..], e1, e2, x);
      var i :| 0 <= i < |grid[1..]| && InWindow(grid[1..][i] * 1000.0, e1, e2) && values[1..][i] == x;
      assert InWindow(grid[i + 1] * 1000.0, e1, e2) && values[i + 1] == x;
    }
  }

  /** The selection is empty exactly when no grid point lies in the window. */
  lemma SelectEmptyIff(values: seq<real>, grid: seq<real>, e1: real, e2: real)
    requires |values| == |grid|
    ensures |Select(values, grid, e1, e2)| == 0 <==> !Hits(grid, e1, e2)
  {
    var r := Select(values, grid, e1, e2);
    if |r| > 0 {
      SelectFromWindow(values, grid, e1, e2, r[0]);
    }
  }

  /** `ndarray.max()` of a non-empty array. */
  function SeqMax(s: seq<real>): real
    requires |s| > 0
  {
    if |s| == 1 then s[0]
    else
      var m := SeqMax(s[1..]);
      if s[0] >= m then s[0] else m
  }

  /** `ndarray.min()` of a non-empty array. */
  function SeqMin(s: seq<real>): real
    requires |s| > 0
  {
    if |s| == 1 then s[0]
    else
      var m := SeqMin(s[1..]);
      if s[0] <= m then s[0] else m
  }

  /** The maximum and the minimum are elements of the array that bound
      every element. */
  lemma {:induction false} SeqExtrema(s: seq<real>)
    requires |s| > 0
    ensures SeqMax(s) in s && SeqMin(s) in s
    ensures forall x :: x in s ==> SeqMin(s) <= x <= SeqMax(s)
  {
    if |s| > 1 {
      SeqExtrema(s[1..]);
      assert forall x :: x in s ==> x == s[0] || x in s[1..];
    }
  }

  /** `abs_max`, `abs_min` and `edge_jump` over one selection. */
  datatype EdgeStats = EdgeStats(absMax: real, absMin: real, edgeJump: real)

  function Stats(s: seq<real>): EdgeStats
    requires |s| > 0
  {
    var hi, lo := SeqMax(s), SeqMin(s);
    EdgeStats(hi, lo, hi - lo)
  }

  /** The extrema are selected values that bound every selected value, and
      the edge jump is their non-negative difference. */
  lemma StatsBounds(s: seq<real>)
    requires |s| > 0
    ensures Stats(s).absMax in s && Stats(s).absMin in s
    ensures forall x :: x in s ==> Stats(s).absMin <= x <= Stats(s).absMax
    ensures Stats(s).edgeJump == Stats(s).absMax - Stats(s).absMin && Stats(s).edgeJump >= 0.0
  {
    SeqExtrema(s);
  }

  /** The values `abs_calc` reports through `printlst` and the summary
      attributes. */
  datatype ReportState = ReportState(
    printlst: map<string, string>, absMax: Option<real>, absMin: Option<real>,
    edgeJump: Option<real>, transmittedPercentage: Option<seq<real>>)

  const AbsMaxKey := "01_abs_max"
  const AbsMinKey := "02_abs_min"
  const EdgeJumpKey := "03_abs_edge_jump"
  const CompoundsKey := "00_compounds_info"

  /** The three `printlst` entries `edge_jump_calc` writes. */
  function StatsLines(lib: Library, st: EdgeStats): (m: map<string, string>)
    ensures m.Keys == {AbsMaxKey, AbsMinKey, EdgeJumpKey}
  {
    map[AbsMaxKey := "Abs Max. is " + lib.format(st.absMax, 3),
        AbsMinKey := "Abs Min. is " + lib.format(st.absMin, 3),
        EdgeJumpKey := "Abs edge jump is " + lib.format(st.edgeJump, 3)]
  }

  // ---- compounds and their absorption ----------------------------------------

  /** A caller's compound dictionary: `compound` and `area_density` are only
      read; the `"abs"` entry is written by `abs_calc`. The object is shared
      with the caller, so writes are visible there. */
  class CompoundInfo {
    const compound: string
    const areaDensity: real
    var abs: Option<seq<real>>

    constructor (compound: string, areaDensity: real, abs: Option<seq<real>>)
      ensures this.compound == compound && this.areaDensity == areaDensity && this.abs == abs
    {
      this.compound := compound;
      this.areaDensity := areaDensity;
      this.abs := abs;
    }

    function Value(): Compound
    {
      Compound(compound, areaDensity)
    }
  }

  /** The part of a compound dictionary the physics depends on. */
  datatype Compound = Compound(formula: string, areaDensity: real)

  function Snapshot(infos: seq<CompoundInfo>): (cs: seq<Compound>)
    ensures |cs| == |infos|
    ensures forall k :: 0 <= k < |infos| ==> cs[k] == infos[k].Value()
  {
    seq(|infos|, k requires 0 <= k < |infos| => infos[k].Value())
  }

  /** One more item of a list has been visited. */
  lemma PrefixGrows<T>(s: seq<T>, k: nat)
    requires k < |s|
    ensures forall x :: x in s[..k + 1] <==> x in s[..k] || x == s[k]
  {
    assert s[..k + 1] == s[..k] + [s[k]];
  }

  /** The cross-section lookup succeeds at every grid point. */
  predicate CurveDefined(lib: Library, c: Compound, grid: seq<real>)
  {
    forall i :: 0 <= i < |grid| ==> lib.csTotalCp(c.formula, grid[i]).Some?
  }

  /** `CS_Total_CP(compound, E) * area_density` at one energy. */
  function Term(lib: Library, c: Compound, e: real): real
    requires lib.csTotalCp(c.formula, e).Some?
  {
    lib.csTotalCp(c.formula, e).value * c.areaDensity
  }

  /** The list comprehension over the grid: the compound's curve, or `None`
      when the lookup raises at some grid point. */
  function Curve(lib: Library, c: Compound, grid: seq<real>): (r: Option<seq<real>>)
    ensures r.Some? ==> |r.value| == |grid|
    decreases |grid|
  {
    if grid == [] then Some([])
    else
      var last := |grid| - 1;
      var init := Curve(lib, c, grid[..last]);
      var x := lib.csTotalCp(c.formula, grid[last]);
      if init.None? || x.None? then None
      else
        Some(init.value + [x.value * c.areaDensity])
  }

  /** The comprehension produces a curve exactly when the lookup succeeds
      at every grid point. */
  lemma {:induction false} CurveDefinedIff(lib: Library, c: Compound, grid: seq<real>)
    ensures Curve(lib, c, grid).Some? <==> CurveDefined(lib, c, grid)
    decreases |grid|
  {
    if grid != [] {
      var last := |grid| - 1;
      CurveDefinedIff(lib, c, grid[..last]);
      assert forall j :: 0 <= j < last ==> grid[..last][j] == grid[j];
    }
  }

  /** Extending the grid by one point whose lookup gave `x` appends that
      point's term. */
  lemma CurveSnoc(lib: Library, c: Compound, grid: seq<real>, i: nat, x: Option<real>)
    requires i < |grid| && Curve(lib, c, grid[..i]).Some?
    requires x == lib.csTotalCp(c.formula, grid[i]) && x.Some?
    ensures Curve(lib, c, grid[..i + 1]) == Some(Curve(lib, c, grid[..i]).value + [x.value * c.areaDensity])
  {
    assert grid[..i + 1][..i] == grid[..i] && grid[..i + 1][i] == grid[i];
    var r := Curve(lib, c, grid[..i + 1]);
    assert r.Some?;
    assert |r.value| == i + 1;
    assert r.value[..i] == Curve(lib, c, grid[..i]).value;
    assert r.value[i] == x.value * c.areaDensity;
  }

  /** Each point of the curve is the compound's term at that grid energy. */
  lemma {:induction false} CurveAt(lib: Library, c: Compound, grid: seq<real>, i: nat)
    requires Curve(lib, c, grid).Some? && i < |grid|
    ensures lib.csTotalCp(c.formula, grid[i]).Some?
    ensures Curve(lib, c, grid).value[i] == Term(lib, c, grid[i])
  {
    var last := |grid| - 1;
    if i < last {
      CurveAt(lib, c, grid[..last], i);
      assert grid[..last][i] == grid[i];
    }
  }

  /** Every compound of the list has a curve. */
  predicate AllDefined(lib: Library, cs: seq<Compound>, grid: seq<real>)
  {
    forall k :: 0 <= k < |cs| ==> Curve(lib, cs[k], grid).Some?
  }

  /** The index of the first compound without a curve, or `|cs|`. */
  function FirstFailure(lib: Library, cs: seq<Compound>, grid: seq<real>): (k: nat)
    ensures k <= |cs|
    ensures AllDefined(lib, cs[..k], grid)
    ensures k < |cs| ==> Curve(lib, cs[k], grid).None?
  {
    if cs == [] then 0
    else if Curve(lib, cs[0], grid).None? then 0
    else
      var k := FirstFailure(lib, cs[1..], grid);
      assert cs[..k + 1] == [cs[0]] + cs[1..][..k];
      k + 1
  }

  /** A compound without a curve, reached while every earlier one had one,
      is the first failure. */
  lemma FirstFailureAt(lib: Library, cs: seq<Compound>, grid: seq<real>, k: nat)
    requires k < |cs| && k <= FirstFailure(lib, cs, grid) && Curve(lib, cs[k], grid).None?
    ensures FirstFailure(lib, cs, grid) == k
  {
  }

  /** A compound with a curve, reached while every earlier one had one,
      is before the first failure. */
  lemma BeforeFirstFailure(lib: Library, cs: seq<Compound>, grid: seq<real>, k: nat)
    requires k < |cs| && k <= FirstFailure(lib, cs, grid) && Curve(lib, cs[k], grid).Some?
    ensures k < FirstFailure(lib, cs, grid)
  {
  }

  function Zeros(n: nat): (z: seq<real>)
    ensures |z| == n && forall i :: 0 <= i < n ==> z[i] == 0.0
  {
    seq(n, _ => 0.0)
  }

  /** Numpy's `a + b` of two arrays of one length. */
  function Add(a: seq<real>, b: seq<real>): (r: seq<real>)
    requires |a| == |b|
    ensures |r| == |a| && forall i :: 0 <= i < |a| ==> r[i] == a[i] + b[i]
  {
    seq(|a|, i requires 0 <= i < |a| => a[i] + b[i])
  }

  /** `abs_total` after the loop has added the curves of `cs`, in order,
      to an array of zeros. */
  function Total(lib: Library, cs: seq<Compound>, grid: seq<real>): (t: seq<real>)
    requires AllDefined(lib, cs, grid)
    ensures |t| == |grid|
  {
    if cs == [] then Zeros(|grid|)
    else
      var last := |cs| - 1;
      assert AllDefined(lib, cs[..last], grid);
      Add(Total(lib, cs[..last], grid), Curve(lib, cs[last], grid).value)
  }

  /** The absorption of all compounds at one energy. */
  function PointSum(lib: Library, cs: seq<Compound>, e: real): real
    requires forall k :: 0 <= k < |cs| ==> lib.csTotalCp(cs[k].formula, e).Some?
  {
    if cs == [] then 0.0
    else
      var last := |cs| - 1;
      PointSum(lib, cs[..last], e) + Term(lib, cs[last], e)
  }

  /** `abs_total[i]` is the sum over the compounds of their cross-section at
      the grid energy times their area density. */
  lemma {:induction false} TotalAt(lib: Library, cs: seq<Compound>, grid: seq<real>, i: nat)
    requires AllDefined(lib, cs, grid) && i < |grid|
    ensures forall k :: 0 <= k < |cs| ==> lib.csTotalCp(cs[k].formula, grid[i]).Some?
    ensures Total(lib, cs, grid)[i] == PointSum(lib, cs, grid[i])
  {
    assert forall k :: 0 <= k < |cs| ==> Curve(lib, cs[k], grid).Some?;
    if cs != [] {
      var last := |cs| - 1;
      TotalAt(lib, cs[..last], grid, i);
      CurveAt(lib, cs[last], grid, i);
    }
  }

  /** One more pass of the loop: the next compound's curve is added to the
      running total. */
  lemma TotalStep(lib: Library, cs: seq<Compound>, k: nat, grid: seq<real>, curve: Option<seq<real>>)
    requires k < |cs| && AllDefined(lib, cs[..k], grid)
    requires curve == Curve(lib, cs[k], grid) && curve.Some?
    ensures AllDefined(lib, cs[..k + 1], grid)
    ensures Total(lib, cs[..k + 1], grid) == Add(Total(lib, cs[..k], grid), curve.value)
  {
    assert cs[..k + 1][..k] == cs[..k];
  }

  /** One more pass of the loop: the next compound's pieces are appended. */
  lemma NamesStep(lib: Library, cs: seq<Compound>, k: nat, unit: string)
    requires k < |cs|
    ensures Names(lib, cs[..k + 1], unit) == Names(lib, cs[..k], unit) + NamePiece(lib, cs[k], unit)
    ensures "$$" + LatexNames(lib, cs[..k + 1]) == ("$$" + LatexNames(lib, cs[..k])) + LatexPiece(lib, cs[k])
  {
    assert cs[..k + 1][..k] == cs[..k];
  }

  /** Without compounds, `abs_total` stays all zeros. */
  lemma TotalOfNone(lib: Library, grid: seq<real>)
    ensures Total(lib, [], grid) == Zeros(|grid|)
  {
  }

  /** Taking one compound out of the point sum. */
  lemma {:induction false} PointSumRemove(lib: Library, cs: seq<Compound>, e: real, j: nat)
    requires forall k :: 0 <= k < |cs| ==> lib.csTotalCp(cs[k].formula, e).Some?
    requires j < |cs|
    ensures var rest := cs[..j] + cs[j + 1..];
      (forall k :: 0 <= k < |rest| ==> lib.csTotalCp(rest[k].formula, e).Some?) &&
      PointSum(lib, cs, e) == PointSum(lib, rest, e) + Term(lib, cs[j], e)
  {
    var rest := cs[..j] + cs[j + 1..];
    Removed(cs, j);
    var last := |cs| - 1;
    if j < last {
      var init := cs[..last];
      PointSumRemove(lib, init, e, j);
      RemovedInit(cs, j);
      var a, b, c := PointSum(lib, init[..j] + init[j + 1..], e), Term(lib, cs[j], e), Term(lib, cs[last], e);
      assert PointSum(lib, cs, e) == (a + b) + c;
      assert PointSum(lib, rest, e) == a + c;
    } else {
      assert rest == cs[..last];
    }
  }

  /** Where the elements of `s` sit once the one at `j` is removed. */
  lemma Removed<T>(s: seq<T>, j: nat)
    requires j < |s|
    ensures |s[..j] + s[j + 1..]| == |s| - 1
    ensures forall k :: 0 <= k < j ==> (s[..j] + s[j + 1..])[k] == s[k]
    ensures forall k :: j < k < |s| ==> (s[..j] + s[j + 1..])[k - 1] == s[k]
  {
  }

  /** Removing an element before the last one commutes with dropping the last. */
  lemma RemovedInit<T>(s: seq<T>, j: nat)
    requires j < |s| - 1
    ensures var rest, init := s[..j] + s[j + 1..], s[..|s| - 1];
      rest[..|rest| - 1] == init[..j] + init[j + 1..] && rest[|rest| - 1] == s[|s| - 1]
  {
    var rest, init := s[..j] + s[j + 1..], s[..|s| - 1];
    assert rest[..|rest| - 1] == init[..j] + init[j + 1..];
  }

  /** The order of the compounds does not change the absorption at any
      energy: the point sum of a permutation is the same. */
  lemma {:induction false} PointSumPermutation(lib: Library, cs: seq<Compound>, ds: seq<Compound>, e: real)
    requires multiset(cs) == multiset(ds)
    requires forall k :: 0 <= k < |cs| ==> lib.csTotalCp(cs[k].formula, e).Some?
    ensures forall k :: 0 <= k < |ds| ==> lib.csTotalCp(ds[k].formula, e).Some?
    ensures PointSum(lib, cs, e) == PointSum(lib, ds, e)
  {
    assert forall k :: 0 <= k < |ds| ==> ds[k] in multiset(cs);
    if cs != [] {
      var last := |cs| - 1;
      var x := cs[last];
      var j := RemoveMatching(cs, ds);
      var rest := ds[..j] + ds[j + 1..];
      PointSumRemove(lib, ds, e, j);
      PointSumPermutation(lib, cs[..last], rest, e);
    } else {
      assert |ds| == 0;
    }
  }

  /** The last element of `cs` occurs in its permutation `ds` at some index
      `j`, and what remains of both is again a permutation. */
  lemma RemoveMatching<T>(cs: seq<T>, ds: seq<T>) returns (j: nat)
    requires multiset(cs) == multiset(ds) && cs != []
    ensures j < |ds| && ds[j] == cs[|cs| - 1]
    ensures multiset(cs[..|cs| - 1]) == multiset(ds[..j] + ds[j + 1..])
  {
    var last := |cs| - 1;
    var x := cs[last];
    assert cs == cs[..last] + [x];
    assert x in multiset(ds);
    j :| 0 <= j < |ds| && ds[j] == x;
    assert ds == ds[..j] + [x] + ds[j + 1..];
    assert multiset(cs) == multiset(cs[..last]) + multiset{x};
    assert multiset(ds) == multiset(ds[..j]) + multiset{x} + multiset(ds[j + 1..]);
    assert multiset(ds[..j] + ds[j + 1..]) == multiset(ds[..j]) + multiset(ds[j + 1..]);
    assert multiset(cs[..last]) == multiset(cs) - multiset{x};
    assert multiset(ds[..j] + ds[j + 1..]) == multiset(ds) - multiset{x};
  }

  /** Summation is order-independent: permuting the compounds leaves
      `abs_total` unchanged. */
  lemma TotalPermutation(lib: Library, cs: seq<Compound>, ds: seq<Compound>, grid: seq<real>)
    requires multiset(cs) == multiset(ds)
    requires AllDefined(lib, cs, grid)
    ensures AllDefined(lib, ds, grid)
    ensures Total(lib, cs, grid) == Total(lib, ds, grid)
  {
    assert forall k :: 0 <= k < |ds| ==> ds[k] in multiset(cs);
    assert AllDefined(lib, ds, grid) by {
      forall k | 0 <= k < |ds| ensures Curve(lib, ds[k], grid).Some? {
        assert ds[k] in cs;
      }
    }
    forall i | 0 <= i < |grid| ensures Total(lib, cs, grid)[i] == Total(lib, ds, grid)[i] {
      TotalAt(lib, cs, grid, i);
      TotalAt(lib, ds, grid, i);
      PointSumPermutation(lib, cs, ds, grid[i]);
    }
  }

  /** `compound_info["abs"] = np.array([...])`: the loop over the grid that
      evaluates one compound's curve, stopping at the first lookup that
      raises. */
  method ComputeCurve(lib: Library, c: Compound, grid: seq<real>) returns (r: Option<seq<real>>)
    ensures r == Curve(lib, c, grid)
  {
    var acc: seq<real> := [];
    var i := 0;
    while i < |grid|
      invariant 0 <= i <= |grid|
      invariant Curve(lib, c, grid[..i]) == Some(acc)
    {
      var cs := lib.csTotalCp(c.formula, grid[i]);
      if cs.None? {
        CurveDefinedIff(lib, c, grid);
        return None;
      }
      CurveSnoc(lib, c, grid, i, cs);
      acc := acc + [cs.value * c.areaDensity];
      i := i + 1;
    }
    assert grid[..i] == grid;
    return Some(acc);
  }

  /** `np.exp(-abs_total) * 100`. */
  function Transmission(lib: Library, total: seq<real>): (t: seq<real>)
    ensures |t| == |total|
    ensures forall i :: 0 <= i < |total| ==> t[i] == lib.exp(-total[i]) * 100.0
  {
    seq(|total|, i requires 0 <= i < |total| => lib.exp(-total[i]) * 100.0)
  }

  // ---- the compound-name strings --------------------------------------------

  /** `str.rstrip(chars)`: drops trailing characters that belong to the SET
      `chars`, not a trailing copy of the string. */
  function RStrip(s: string, chars: set<char>): (r: string)
    ensures |r| <= |s| && r == s[..|r|]
    ensures r == [] || r[|r| - 1] !in chars
    ensures forall i :: |r| <= i < |s| ==> s[i] in chars
  {
    if s != [] && s[|s| - 1] in chars then RStrip(s[..|s| - 1], chars) else s
  }

  /** The characters of `rstrip(" + ")`. */
  const Separator := " + "
  const SeparatorChars := {' ', '+'}

  /** Stripping removes the final separator together with any ' ' or '+'
      that precedes it. */
  lemma StripSeparator(s: string)
    ensures RStrip(s + Separator, SeparatorChars) == RStrip(s, SeparatorChars)
  {
    var t := s + Separator;
    assert t[..|t| - 1] == s + " +";
    assert (s + " +")[..|s| + 1] == s + " ";
    assert (s + " ")[..|s|] == s;
  }

  /** When the text before the final separator does not end in ' ' or '+',
      exactly the separator is removed. */
  lemma StripOnlySeparator(s: string)
    requires s == [] || s[|s| - 1] !in SeparatorChars
    ensures RStrip(s + Separator, SeparatorChars) == s
  {
    StripSeparator(s);
  }

  /** `"=" * 80`. */
  function Rule(): (r: string)
    ensures |r| == 80 && forall i :: 0 <= i < 80 ==> r[i] == '='
  {
    seq(80, _ => '=')
  }

  /** The `"00_compounds_info"` entry of `printlst`. */
  function Banner(names: string): string
  {
    Rule() + "\n " + names + " \n" + Rule()
  }

  /** One compound's piece of `compound_name_all`; `unit` is the text
      between the formatted density and the formula. */
  function NamePiece(lib: Library, c: Compound, unit: string): string
  {
    lib.format(c.areaDensity * 1000.0, 1) + unit + c.formula + Separator
  }

  /** One compound's piece of `compound_name_all_latex`. */
  function LatexPiece(lib: Library, c: Compound): string
  {
    lib.format(c.areaDensity * 1000.0, 1) + "\\,\\frac{mg}{cm^2}\\, " + Formula.FormulaToLatex(c.formula) + Separator
  }

  /** The pieces of the compounds of `cs` appended in order. */
  function Names(lib: Library, cs: seq<Compound>, unit: string): string
  {
    if cs == [] then "" else Names(lib, cs[..|cs| - 1], unit) + NamePiece(lib, cs[|cs| - 1], unit)
  }

  function LatexNames(lib: Library, cs: seq<Compound>): string
  {
    if cs == [] then "" else LatexNames(lib, cs[..|cs| - 1]) + LatexPiece(lib, cs[|cs| - 1])
  }

  /** The finished `compound_name_all`: the last compound's separator is
      stripped, and the list reads "<density> <unit> <formula>" joined by " + ". */
  lemma FinishedNames(lib: Library, cs: seq<Compound>, unit: string)
    requires cs != []
    requires var last := cs[|cs| - 1].formula; last != [] && last[|last| - 1] !in SeparatorChars
    ensures var n := |cs| - 1;
      RStrip(Names(lib, cs, unit), SeparatorChars)
        == Names(lib, cs[..n], unit) + lib.format(cs[n].areaDensity * 1000.0, 1) + unit + cs[n].formula
  {
    var n := |cs| - 1;
    var body := Names(lib, cs[..n], unit) + lib.format(cs[n].areaDensity * 1000.0, 1) + unit + cs[n].formula;
    assert Names(lib, cs, unit) == body + Separator;
    assert body[|body| - 1] == cs[n].formula[|cs[n].formula| - 1];
    StripOnlySeparator(body);
  }
}
