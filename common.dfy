/** Values shared by both copies of the absorption calculator: the outcome
    types, the error kinds the Python code raises, the external physics
    library (xraylib), and numpy's `masked_outside` window test. */
module Common {

  datatype Option<+T> = None | Some(value: T)

  /** A call either produces a value or raises one of the errors below. */
  datatype Result<+T> = Success(value: T) | Failure(error: Error)

  /** The xraylib shell constants that `edge_map` maps edge names to. */
  datatype Shell = KShell | L1Shell | L2Shell | L3Shell

  /** The exceptions the modelled code can raise. */
  datatype Error =
    | UnknownElement(symbol: string)          // xrl.SymbolToAtomicNumber rejects the symbol
    | InvalidEdge(edge: string)               // the ValueError of the edge check
    | EdgeEnergyUnavailable(z: int, shell: Shell)  // xrl.EdgeEnergy rejects (Z, shell)
    | EmptyComposition                        // "No compounds information provided"
    | CrossSectionFailed(compound: string)    // xrl.CS_Total_CP raised for this compound
    | NotComputed                             // abs_total read before abs_calc ran
    | UnorderableBound                        // E1 given without E2: masked_outside compares with None
    | ZeroSizeReduction                       // max()/min() of an empty array

  /** The foreign functions the core calls. Lookups that can raise are
      partial: `None` stands for the exception. `exp` is numpy's exponential
      and `format(x, d)` is Python's `f"{x:.<d>f}"`; neither is interpreted. */
  datatype Library = Library(
    symbolToAtomicNumber: string -> Option<int>,
    edgeEnergy: (int, Shell) -> Option<real>,   // keV
    csTotalCp: (string, real) -> Option<real>,  // cm^2/g at an energy in keV
    exp: real -> real,
    format: (real, nat) -> string)

  /** `edge_map`: the four edge names and their shells. */
  function EdgeShell(edge: string): (r: Option<Shell>)
    ensures r.Some? <==> edge == "K" || edge == "L1" || edge == "L2" || edge == "L3"
    ensures edge == "K" ==> r == Some(KShell)
    ensures edge == "L1" ==> r == Some(L1Shell)
    ensures edge == "L2" ==> r == Some(L2Shell)
    ensures edge == "L3" ==> r == Some(L3Shell)
  {
    if edge == "K" then Some(KShell)
    else if edge == "L1" then Some(L1Shell)
    else if edge == "L2" then Some(L2Shell)
    else if edge == "L3" then Some(L3Shell)
    else None
  }

  function Min(a: real, b: real): real { if a <= b then a else b }
  function Max(a: real, b: real): real { if a <= b then b else a }

  /** `np.ma.masked_outside(x, v1, v2)` leaves `x` unmasked exactly when it
      lies in the closed interval between the two bounds, given in either
      order (numpy swaps them when `v2 < v1`). */
  predicate InWindow(x: real, v1: real, v2: real)
  {
    Min(v1, v2) <= x <= Max(v1, v2)
  }

  /** The smallest integer not below `x` (numpy's length of `arange`). */
  function Ceil(x: real): (c: int)
    ensures c as real - 1.0 < x <= c as real
  {
    -((-x).Floor)
  }
}
