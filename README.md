# EasyXASCalc absorption core in Dafny

EasyXASCalc estimates the X-ray absorption of a sample made of several
compounds around one absorption edge of one element. `MaterialAbs`
is built from a list of compound dictionaries (formula and area density),
an element symbol and an edge name (K, L1, L2, L3). It builds a 1 eV energy
grid around the edge, stored in keV. `abs_calc` then sums each compound's
cross-section times its area density into `abs_total`, writes each
compound's own curve back into the caller's dictionary, builds the plain
and LaTeX compound-name strings, computes the edge jump over a 100 eV
window around the edge (`edge_jump_calc`) and the transmission. Beside the
class sit three free helpers:
- `formula_to_latex`, a regular-expression tokenizer of chemical formulas;
- `compound_generator`, which joins element symbols and compositions;
- `select_data`, a multi-criterion 0/1 mask.

The class exists twice, in the notebook module `XASCalc_core.py` and in
the web backend `backend/core.py`. The model keeps both copies:

- `common.dfy` (module `Common`): results and errors, and the
  `Library` of external lookups. The xraylib symbol lookup, edge energy and
  `CS_Total_CP` are partial functions (they answer `None` where xraylib
  raises). `exp` and the number formatter are plain functions. All of
  them are parameters of the model.
- `formula.dfy` (module `Formula`): `formula_to_latex` as a recursive
  scan that mirrors `re.findall` with the pattern `([A-Z][a-z]*)(\d*\.?\d*)`.
  It proves what a match reads, that rendering well-formed matches and
  scanning them again gives the same matches, and that text between the
  matches is dropped.
- `absorption.dfy` (module `Absorption`): what both copies compute, as
  functions. It covers the grid, the edge window, the inclusive masked
  selection and its extrema, the per-compound curves and their sum, the
  transmission and the name strings. The caller's compound dictionary is
  the class `CompoundInfo`, whose `abs` field `abs_calc` overwrites in
  place.
- `notebook_core.dfy` (module `NotebookCore`): the notebook `MaterialAbs`
  as a class with mutable fields. `AbsCalc` is proved against the functions
  above. It covers the run that ends normally and the run that stops at the
  first compound whose lookup raises, which leaves `abs_total`, the names
  and the earlier `"abs"` entries partly updated.
- `backend_core.dfy` (module `BackendCore`): the backend `MaterialAbs`, with
  two differences:
  - It raises on an empty composition, after `abs_total` and the names
    have been reset.
  - It falls back to the whole of `abs_total` when the edge window selects
    no grid point.
  Lemmas relate its `edge_jump_calc` to the notebook one. Its name string
  carries the unit as written in that file, "mg/cmÂ²" (a UTF-8 "²" read
  as Latin-1), where the notebook copy has "mg/cm²".
- `notebook_helpers.dfy` (module `NotebookHelpers`): `compound_generator`
  and `select_data`. `select_data` is an in-place loop over an array.

Python exceptions are `Failure` results that carry an `Error`:
- `UnknownElement`, `InvalidEdge` and `EdgeEnergyUnavailable` come from construction;
- `EmptyComposition` is the backend's ValueError;
- `CrossSectionFailed` is a lookup that raises inside the loop;
- `NotComputed` is reading `abs_total` before `abs_calc`;
- `UnorderableBound` is `E1` given without `E2`;
- `ZeroSizeReduction` is `max()` of an empty array.

Behaviour of the code a reader may not expect:
- The grid is empty when the edge lies at or below -400 eV. Nothing in the
  code keeps it non-empty (`GridEmptyIff`).
- Only the backend copy rejects an empty composition and falls back to the
  whole grid for an empty window. The notebook copy returns a zero total
  for no compounds and raises on an empty window.
- `masked_outside` orders its two bounds itself, so a window given as
  (E2, E1) selects the same points as (E1, E2).
- A lookup failure re-raises xraylib's own exception; the model names the
  compound's formula in `CrossSectionFailed`.

## Model

| member | source | states |
|---|---|---|
| Formula.FormulaToLatex | XASCalc_core.py:16-36 | the LaTeX pieces of the scan's matches concatenated in order; the output is empty exactly when the formula has no match |
| Formula.Tokens | XASCalc_core.py:26-27 | `re.findall`: a match starts at every upper-case letter not consumed by the previous match, every other character is skipped; there are never more matches than characters |
| Formula.MatchAt | XASCalc_core.py:26 | the match at an upper-case letter: the letter and the greedy `[a-z]*` run, then the greedy count; it consumes at least the letter and never runs past the text |
| Formula.RunIsLongest | XASCalc_core.py:26 | `[a-z]*` and `\d*` are greedy: the run is the longest prefix of the class, so the next character is outside it |
| Formula.MatchAtWellFormed | XASCalc_core.py:26-27 | a match at an upper-case letter reads an element symbol and a count, and consumes exactly the text of the two groups |
| Formula.CountLengthIsCount | XASCalc_core.py:26 | what the count group reads is digits, optionally a '.' and digits |
| Formula.CountLengthOfCount | XASCalc_core.py:26 | a count followed by text that cannot extend it (no digit next, and no '.' unless the count already has one) is read in full and no further |
| Formula.TokensWellFormed | XASCalc_core.py:26-27 | every match of the scan is a well-formed element symbol and count |
| Formula.TokensOfRender | XASCalc_core.py:26-27 | scanning the text of a list of well-formed matches gives back exactly that list, in order |
| Formula.TokensSkipJunk | XASCalc_core.py:27 | characters before the first upper-case letter are dropped |
| Formula.NoUpperGivesEmpty | backend/core.py:12-22 | a formula without an upper-case letter gives the empty string |
| Formula.LatexOfRender | XASCalc_core.py:29-36 | the LaTeX of a formula made only of element symbols and counts is one piece per match in order: `\text{El}` for an empty count, `\text{El}_{count}` with the count copied verbatim otherwise |
| Formula.TokensOfWritten | XASCalc_core.py:26-27 | in a formula made of well-formed tokens and text without upper-case letters that cannot extend the token before it, the scan reads exactly those tokens and drops every other character |
| Formula.LatexOfFormula | XASCalc_core.py:26-36 | the LaTeX of such a formula is one piece per token, in order |
| Formula.CalciumHydroxide | XASCalc_core.py:26-36 | "Ca(OH)2" gives the pieces of Ca, O and H only |
| Formula.PiecesAppend | XASCalc_core.py:29-34 | the output of concatenated matches is the concatenation of their outputs |
| NotebookHelpers.CompoundGenerator | XASCalc_core.py:119 | `el + comp` for the pairs of `zip` joined in order, stopping at the shorter list (characterised by the next two rows) |
| NotebookHelpers.CompoundGeneratorZips | XASCalc_core.py:119 | the result is `el + comp` for the pairs of `zip`, in order |
| NotebookHelpers.ExtraItemsIgnored | XASCalc_core.py:119 | items of the longer list beyond the shorter one's length do not change the result |
| NotebookHelpers.GeneratedFormulaTokens | XASCalc_core.py:119 | with element symbols and decimal compositions, `formula_to_latex` reads the generated formula back pair by pair |
| NotebookHelpers.MaskValue | XASCalc_core.py:65-70 | the mask value at one point after the criteria's 0/1 factors have been multiplied in, in loop order; it is always 0 or 1 |
| NotebookHelpers.MaskValueMeaning | XASCalc_core.py:65-70 | the product of the 0/1 factors is 1 exactly when every criterion's value lies in its inclusive window, else 0 (1 with no criteria) |
| NotebookHelpers.CriterionNeverAdds | XASCalc_core.py:67-70 | inserting one more criterion anywhere never turns a 0 of the mask into a 1 |
| NotebookHelpers.SelectData | XASCalc_core.py:65-70 | the in-place loop leaves a mask of the grid's size that is 1 exactly where every criterion holds and 0 exactly where one fails |
| Absorption.EnergyGrid | XASCalc_core.py:157 | the grid has as many points as `arange` gives between its start and edge + 500 eV |
| Absorption.GridShape | XASCalc_core.py:157 | the grid starts at max(100, edge - 500) eV, steps by 1 eV, is strictly increasing, is never below 0.1 keV and stays below edge + 500 eV |
| Absorption.GridIndexRange | XASCalc_core.py:157 | point k exists exactly when start + k eV is below edge + 500 eV, and then equals it |
| Absorption.GridOfHighEdge | XASCalc_core.py:157 | an edge at or above 600 eV gets 1000 points |
| Absorption.GridEmptyIff | XASCalc_core.py:157 | the grid is empty exactly when the edge lies at or below -400 eV |
| Common.EdgeShell | XASCalc_core.py:143-150 | `edge_map`: defined exactly for K, L1, L2 and L3, each mapped to its own shell |
| Absorption.EdgeValue | XASCalc_core.py:139-154 | the lookups of `__init__` in order (symbol, then edge name, then edge energy in keV times 1000); success needs a known element and one of K, L1, L2, L3 |
| Absorption.ConstructionErrors | XASCalc_core.py:140-151 | an unknown element fails first; a known one fails on the edge check exactly when the edge is not K, L1, L2 or L3 |
| Absorption.EdgeWindow | XASCalc_core.py:214-217 | E2 is edge + 50 eV; E1 is edge - 50 eV, replaced by 100 exactly when that is negative |
| Absorption.EdgeWindowHitsGrid | XASCalc_core.py:214-218 | the window of `abs_calc` contains a grid point exactly when the grid is not empty (edge above -400 eV) |
| Absorption.Select | XASCalc_core.py:169 | `abs_total[mask]`: the values at the grid points whose energy in eV lies in the inclusive window, in grid order, never more than the array holds |
| Absorption.SelectKeepsWindow | XASCalc_core.py:169 | every value at a grid point inside the inclusive window is selected |
| Absorption.SelectFromWindow | XASCalc_core.py:169 | every selected value is the value at some grid point inside the window |
| Absorption.SelectEmptyIff | XASCalc_core.py:169 | the selection is empty exactly when no grid point lies in the window |
| Absorption.SeqMax | XASCalc_core.py:170 | `max()` of a non-empty array (characterised by `SeqExtrema`) |
| Absorption.SeqMin | XASCalc_core.py:171 | `min()` of a non-empty array (characterised by `SeqExtrema`) |
| Absorption.Stats | XASCalc_core.py:170-172 | `abs_max`, `abs_min` and their difference over one selection (characterised by `StatsBounds`) |
| Absorption.SeqExtrema | XASCalc_core.py:170-171 | `max()` and `min()` are elements of the array that bound all of its elements |
| Absorption.StatsBounds | XASCalc_core.py:170-172 | `abs_max`/`abs_min` are selected values bounding every selected value; `edge_jump = abs_max - abs_min >= 0` |
| Absorption.StatsLines | XASCalc_core.py:173-177 | `edge_jump_calc` writes exactly the keys `01_abs_max`, `02_abs_min`, `03_abs_edge_jump` |
| Absorption.Curve | XASCalc_core.py:199 | the list comprehension over the grid: one value per grid point, or nothing when some lookup raises |
| Absorption.CurveDefinedIff | XASCalc_core.py:199 | a compound gets a curve exactly when the cross-section lookup succeeds at every grid point |
| Absorption.CurveAt | XASCalc_core.py:199 | each point of a curve is the cross-section at that energy times the area density |
| Absorption.ComputeCurve | XASCalc_core.py:199 | the loop over the grid yields the compound's curve, or nothing when some lookup raises |
| Absorption.FirstFailure | XASCalc_core.py:191-199 | the loop stops at the first compound without a curve; every earlier one has one |
| Absorption.Total | XASCalc_core.py:187-200 | `abs_total` after the loop: the curves of the compounds added in order to zeros, one value per grid point |
| Absorption.TotalAt | XASCalc_core.py:187-200 | `abs_total[i]` is the sum over the compounds of cross-section at `energy[i]` times area density |
| Absorption.TotalStep | XASCalc_core.py:200 | one pass of the loop adds the next compound's curve to the running total |
| Absorption.TotalOfNone | XASCalc_core.py:187 | with no compounds `abs_total` stays all zeros |
| Absorption.PointSumPermutation | XASCalc_core.py:191-200 | the absorption at one energy does not depend on the order of the compounds |
| Absorption.TotalPermutation | XASCalc_core.py:191-200 | permuting the compounds leaves `abs_total` unchanged |
| Absorption.Transmission | XASCalc_core.py:221 | the transmission has one entry per point of `abs_total`, equal to `exp(-abs_total[i]) * 100` |
| Absorption.RStrip | XASCalc_core.py:207-208 | `rstrip` removes the longest suffix made of characters of the set, keeping a prefix of the string |
| Absorption.StripSeparator | XASCalc_core.py:207-208 | the final " + " goes together with every ' ' or '+' before it |
| Absorption.StripOnlySeparator | XASCalc_core.py:207-208 | when the text before it does not end in ' ' or '+', exactly the final " + " is removed |
| Absorption.Rule | XASCalc_core.py:211 | the banner rule is 80 '=' characters |
| Absorption.Names | XASCalc_core.py:204 | `compound_name_all` before stripping: "<density> <unit> <formula> + " per compound, in order |
| Absorption.LatexNames | XASCalc_core.py:203 | `compound_name_all_latex` after its "$$": the LaTeX piece of each compound followed by " + ", in order |
| Absorption.NamesStep | XASCalc_core.py:203-204 | one pass of the loop appends the compound's piece to each name string |
| Absorption.FinishedNames | XASCalc_core.py:203-208 | the finished name is the pieces joined by " + " without a trailing separator, when the last formula is non-empty and does not end in ' ' or '+' |
| NotebookCore.EdgeJumpOutcome | XASCalc_core.py:169-172 | the result of `edge_jump_calc`: the whole array when E1 is None, else the inclusive window; fails on E1 without E2, on a missing total and on an empty selection (characterised by `WindowedEdgeJump`) |
| NotebookCore.WindowedEdgeJump | XASCalc_core.py:169-172 | with both bounds the edge jump fails exactly when no grid point is in the window; otherwise `abs_max`/`abs_min` are values in the window bounding all of them, and the jump is their non-negative difference |
| NotebookCore.AbsCalcEdgeJumpSucceeds | XASCalc_core.py:214-218 | the edge jump inside `abs_calc` succeeds exactly when the edge lies above -400 eV |
| NotebookCore.MaterialAbs.constructor | XASCalc_core.py:125-157 | the object keeps its inputs, has the grid of its edge and nothing computed yet |
| NotebookCore.MaterialAbs.Create | XASCalc_core.py:134-157 | the lookups run in order and the first failure is returned; on success the object has the edge energy in eV and its grid |
| NotebookCore.MaterialAbs.EdgeJumpCalc | XASCalc_core.py:159-178 | on success sets `abs_max`, `abs_min`, `edge_jump` from the selection and adds only the three summary keys to `printlst`; on failure nothing changes |
| NotebookCore.MaterialAbs.AbsCalc | XASCalc_core.py:180-222 | ends either at the first failing compound with partial totals, names and `"abs"` entries and the report untouched, or with the full total, stripped names, banner, edge jump over the window and transmission |
| NotebookCore.MaterialAbs.AddCompound | XASCalc_core.py:191-204 | one pass: on success the total, both names and this compound's `"abs"` entry include the compound; on failure nothing changes |
| NotebookCore.MaterialAbs.AddCompounds | XASCalc_core.py:191-204 | the loop stops exactly at the first failing compound, having added and stored every earlier one |
| NotebookCore.MaterialAbs.Finish | XASCalc_core.py:206-222 | after the loop: names stripped, banner written, then the edge jump and transmission |
| NotebookCore.MaterialAbs.FinishNames | XASCalc_core.py:206-211 | strips both names, closes the LaTeX one with `$$` and writes the banner key |
| NotebookCore.MaterialAbs.Conclude | XASCalc_core.py:213-222 | the edge jump over the window of `abs_calc`; on success the transmission of the total is stored and the total returned |
| BackendCore.EdgeJumpOutcome | backend/core.py:55-65 | as in the notebook copy, except that an empty selection is replaced by the whole total (characterised by the next two rows) |
| BackendCore.FallbackExtendsNotebook | backend/core.py:55-63 | wherever the notebook edge jump succeeds the backend gives the same result, and the backend fails exactly when `E1` is given without `E2`, the total is missing, or the total is empty |
| BackendCore.EmptyWindowFallsBack | backend/core.py:57-63 | a window without grid points gives the statistics of the whole total, where the notebook copy fails |
| BackendCore.AbsCalcEdgeJumpSucceeds | backend/core.py:114-119 | the edge jump inside `abs_calc` succeeds exactly when the edge lies above -400 eV |
| BackendCore.MaterialAbs.constructor | backend/core.py:28-52 | the object keeps its inputs, has the grid of its edge and nothing computed yet |
| BackendCore.MaterialAbs.Create | backend/core.py:29-52 | the lookups run in order and the first failure is returned; on success the object has the edge energy in eV and its grid |
| BackendCore.MaterialAbs.EdgeJumpCalc | backend/core.py:54-71 | as in the notebook copy, with the whole total used when the window is empty |
| BackendCore.MaterialAbs.AbsCalc | backend/core.py:73-123 | an empty composition fails after resetting the total to zeros and the names, with the report untouched; otherwise as in the notebook copy, including the partial state after a re-raise |
| BackendCore.MaterialAbs.Accumulate | backend/core.py:82-123 | the loop and what follows it end at the first failing compound or with the full results |
| BackendCore.MaterialAbs.AddCompound | backend/core.py:82-105 | one pass: on success the total, both names and this compound's `"abs"` entry include the compound; on failure nothing changes |
| BackendCore.MaterialAbs.AddCompounds | backend/core.py:82-105 | the loop stops exactly at the first failing compound, having added and stored every earlier one |
| BackendCore.MaterialAbs.Finish | backend/core.py:107-123 | after the loop: names stripped, banner written, then the edge jump and transmission |
| BackendCore.MaterialAbs.FinishNames | backend/core.py:107-112 | strips both names, closes the LaTeX one with `$$` and writes the banner key |
| BackendCore.MaterialAbs.Conclude | backend/core.py:114-123 | the edge jump over the window of `abs_calc`; on success the transmission of the total is stored and the total returned |

## Left out

- Plotting (`plot`, `contour_plot`, the figure branch of `select_data`), `interpolate` (scipy zoom), `type_writer`, the `printit` argument of `compound_generator` with its `print`, and the notebook's display side effects: rendering and console output only.
- `XASCalc_gui.py` and `backend/app.py`: widget and HTTP glue that only calls the core.
- The xraylib lookups, `exp` and the `:.1f`/`:.3f` formatting are parameters of the model. Nothing is assumed about them beyond their types, and the lookups may fail.
- Floating point: all quantities are exact reals. Rounding in the sums, in `exp` and in the `arange` length is not modelled.
- Compositions of `compound_generator` are the strings Python's `str()` prints for them; number printing is not modelled.
- NotebookHelpers.SelectData: requires every data array to have the mask's size and one threshold pair per array. Python's broadcasting errors and the IndexError for short threshold lists are not modelled, and `xx` is flattened to its number of points.
- Formula.IsDigit: `\d` is modelled as the ASCII digits '0' to '9'. In a Python str pattern `\d` also matches the other Unicode decimal digits, so for a count such as "٣" the model drops it where Python copies it into the subscript.
- NotebookCore.MaterialAbs.Create and BackendCore.MaterialAbs.Create: the default `edge='K'` of `__init__` is not modelled; callers pass the edge name explicitly.
- The backend's `print` before re-raising is output only. The model keeps the re-raise and the state it leaves behind.
- The notebook and backend `formula_to_latex` are the same code, so one definition serves both.
