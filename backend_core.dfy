/** `MaterialAbs` of the web backend copy (backend/core.py). It differs from
    the notebook copy in three places: `abs_calc` raises on an empty
    composition (after resetting `abs_total` and the names), `edge_jump_calc`
    falls back to the whole grid when the window selects no point, and the
    unit text in `compound_name_all` is the mis-encoded "mg/cm\U{00C2}\U{00B2}". A
    lookup error inside the loop is printed and raised again, which leaves the
    same partial state as in the notebook copy. */
module BackendCore {
  import opened Common
  import opened Absorption
  import NotebookCore

  /** The text between density and formula in `compound_name_all`: the UTF-8
      bytes of the superscript two read back as Latin-1. */
  const Unit := " mg/cm\U{00C2}\U{00B2} "

  /** What `edge_jump_calc(E1, E2)` computes from `abs_total` and the grid:
      the same selection as in the notebook copy, except that a window that
      selects no grid point falls back to the whole array. Only an empty
      `abs_total` is then a reduction over nothing. */
  function EdgeJumpOutcome(absTotal: Option<seq<real>>, energy: seq<real>, e1: Option<real>, e2: Option<real>)
    : Result<EdgeStats>
    requires absTotal.Some? ==> |absTotal.value| == |energy|
  {
    if e1.Some? && e2.None? then Failure(UnorderableBound)
    else if absTotal.None? then Failure(NotComputed)
    else
      var selected := if e1.None? then absTotal.value else Select(absTotal.value, energy, e1.value, e2.value);
      var used := if |selected| > 0 then selected else absTotal.value;
      if |used| == 0 then Failure(ZeroSizeReduction) else Success(Stats(used))
  }

  /** Wherever the notebook copy succeeds, the backend computes the same
      values; it fails only for an unusable bound, a missing `abs_total`, or
      an empty one. */
  lemma FallbackExtendsNotebook(absTotal: Option<seq<real>>, energy: seq<real>, e1: Option<real>, e2: Option<real>)
    requires absTotal.Some? ==> |absTotal.value| == |energy|
    ensures NotebookCore.EdgeJumpOutcome(absTotal, energy, e1, e2).Success? ==>
      EdgeJumpOutcome(absTotal, energy, e1, e2) == NotebookCore.EdgeJumpOutcome(absTotal, energy, e1, e2)
    ensures EdgeJumpOutcome(absTotal, energy, e1, e2).Failure? <==>
      (e1.Some? && e2.None?) || absTotal.None? || |absTotal.value| == 0
  {
    if absTotal.Some? && e1.Some? && e2.Some? {
      var selected := Select(absTotal.value, energy, e1.value, e2.value);
      assert |selected| <= |absTotal.value|;
    }
  }

  /** A window that contains no grid point yields the extrema of the whole
      array, where the notebook copy raises. */
  lemma EmptyWindowFallsBack(total: seq<real>, energy: seq<real>, e1: real, e2: real)
    requires |total| == |energy| && |total| > 0 && !Hits(energy, e1, e2)
    ensures EdgeJumpOutcome(Some(total), energy, Some(e1), Some(e2)) == Success(Stats(total))
    ensures NotebookCore.EdgeJumpOutcome(Some(total), energy, Some(e1), Some(e2)) == Failure(ZeroSizeReduction)
  {
    SelectEmptyIff(total, energy, e1, e2);
  }

  /** With the window `abs_calc` uses, `edge_jump_calc` of this copy fails
      only on an empty grid (an edge at or below -400 eV). */
  lemma AbsCalcEdgeJumpSucceeds(edgeEv: real, total: seq<real>)
    requires |total| == |EnergyGrid(edgeEv)|
    ensures var w := EdgeWindow(edgeEv);
      EdgeJumpOutcome(Some(total), EnergyGrid(edgeEv), Some(w.0), Some(w.1)).Success? <==> edgeEv > -400.0
  {
    var w := EdgeWindow(edgeEv);
    GridEmptyIff(edgeEv);
    FallbackExtendsNotebook(Some(total), EnergyGrid(edgeEv), Some(w.0), Some(w.1));
  }

  class MaterialAbs {
    const lib: Library
    const compoundsInfo: seq<CompoundInfo>
    const element: string
    const edge: string
    const edgeValue: real          // eV
    const energy: seq<real>        // keV
    var printlst: map<string, string>
    var absTotal: Option<seq<real>>
    var absMax: Option<real>
    var absMin: Option<real>
    var edgeJump: Option<real>
    var transmittedPercentage: Option<seq<real>>
    var compoundNameAll: Option<string>
    var compoundNameAllLatex: Option<string>

    /** The object invariant: the curves are aligned with the grid, and the
        summary values are consistent. */
    ghost predicate Valid()
      reads this`absTotal, this`transmittedPercentage, this`absMax, this`absMin, this`edgeJump
    {
      && (absTotal.Some? ==> |absTotal.value| == |energy|)
      && (transmittedPercentage.Some? ==> |transmittedPercentage.value| == |energy|)
      && StatsConsistent()
    }

    /** The three summary values are set together, and the edge jump is
        the non-negative difference of the other two. */
    ghost predicate StatsConsistent()
      reads this`absMax, this`absMin, this`edgeJump
    {
      && (absMax.Some? <==> absMin.Some?) && (absMax.Some? <==> edgeJump.Some?)
      && (edgeJump.Some? ==> absMin.value <= absMax.value && edgeJump.value == absMax.value - absMin.value)
    }

    /** Nothing has been computed yet. */
    ghost predicate Unset()
      reads this
    {
      && printlst == map[] && absTotal == None && absMax == None && absMin == None && edgeJump == None
      && transmittedPercentage == None && compoundNameAll == None && compoundNameAllLatex == None
    }

    /** `__init__` once its lookups have succeeded. */
    constructor (lib: Library, compoundsInfo: seq<CompoundInfo>, element: string, edge: string, edgeValue: real)
      requires EdgeValue(lib, element, edge) == Success(edgeValue)
      ensures Valid() && Unset() && energy == EnergyGrid(edgeValue)
      ensures this.lib == lib && this.compoundsInfo == compoundsInfo
      ensures this.element == element && this.edge == edge && this.edgeValue == edgeValue
    {
      this.lib := lib;
      this.compoundsInfo := compoundsInfo;
      this.element := element;
      this.edge := edge;
      this.edgeValue := edgeValue;
      this.energy := EnergyGrid(edgeValue);
      printlst := map[];
      absTotal, absMax, absMin, edgeJump := None, None, None, None;
      transmittedPercentage, compoundNameAll, compoundNameAllLatex := None, None, None;
    }

    /** `MaterialAbs(compounds_info, element, edge)`: the element symbol is
        looked up first, then the edge name is checked, then the edge energy
        is read; any of them may raise. */
    static method Create(lib: Library, compoundsInfo: seq<CompoundInfo>, element: string, edge: string)
      returns (r: Result<MaterialAbs>)
      ensures r.Failure? ==> EdgeValue(lib, element, edge) == Failure(r.error)
      ensures r.Success? ==> EdgeValue(lib, element, edge) == Success(r.value.edgeValue)
      ensures r.Success? ==> fresh(r.value) && r.value.Valid() && r.value.Unset()
      ensures r.Success? ==> r.value.energy == EnergyGrid(r.value.edgeValue)
      ensures r.Success? ==> r.value.lib == lib && r.value.compoundsInfo == compoundsInfo
      ensures r.Success? ==> r.value.element == element && r.value.edge == edge
    {
      var z := lib.symbolToAtomicNumber(element);
      if z.None? {
        return Failure(UnknownElement(element));
      }
      var shell := EdgeShell(edge);
      if shell.None? {
        return Failure(InvalidEdge(edge));
      }
      var kev := lib.edgeEnergy(z.value, shell.value);
      if kev.None? {
        return Failure(EdgeEnergyUnavailable(z.value, shell.value));
      }
      var m := new MaterialAbs(lib, compoundsInfo, element, edge, kev.value * 1000.0);
      return Success(m);
    }

    /** `edge_jump_calc(E1, E2)`: on success sets `abs_max`, `abs_min` and
        `edge_jump` and writes only the three summary keys of `printlst`; on
        failure nothing changes. The window test is the one of `np.any(mask)`
        with its fallback to the whole array. */
    method EdgeJumpCalc(e1: Option<real>, e2: Option<real>) returns (r: Result<real>)
      requires Valid()
      modifies this`absMax, this`absMin, this`edgeJump, this`printlst
      ensures Valid()
      ensures var out := EdgeJumpOutcome(old(absTotal), energy, e1, e2);
        out.Failure? ==> r == Failure(out.error) && unchanged(this)
      ensures var out := EdgeJumpOutcome(old(absTotal), energy, e1, e2);
        out.Success? ==>
          && r == Success(out.value.edgeJump)
          && absMax == Some(out.value.absMax) && absMin == Some(out.value.absMin)
          && edgeJump == Some(out.value.edgeJump)
          && printlst == old(printlst) + StatsLines(lib, out.value)
    {
      if e1.Some? && e2.None? {
        return Failure(UnorderableBound);
      }
      if absTotal.None? {
        return Failure(NotComputed);
      }
      var selected := if e1.None? then absTotal.value else Select(absTotal.value, energy, e1.value, e2.value);
      if |selected| == 0 {
        selected := absTotal.value;
      }
      if |selected| == 0 {
        return Failure(ZeroSizeReduction);
      }
      var st := Stats(selected);
      StatsBounds(selected);
      assert EdgeJumpOutcome(absTotal, energy, e1, e2) == Success(st);
      absMax, absMin, edgeJump := Some(st.absMax), Some(st.absMin), Some(st.edgeJump);
      printlst := printlst + StatsLines(lib, st);
      r := Success(st.edgeJump);
    }

    /** `abs_calc()`. `abs_total` and the name strings are reset; an empty
        `compounds_info` then raises with nothing else changed. Otherwise
        each compound's curve is computed, stored in its dictionary and added
        in. A lookup that raises for compound k is raised again, leaving
        `abs_total` holding the sum of the compounds before k, whose `"abs"`
        entries stay written, and the names holding their pieces
        (`Aborted`). Otherwise the run ends as `Finished` says. */
    method AbsCalc() returns (r: Result<seq<real>>)
      requires Valid()
      modifies this, compoundsInfo
      ensures Valid()
      ensures compoundsInfo == [] ==>
        && r == Failure(EmptyComposition) && absTotal == Some(Zeros(|energy|))
        && compoundNameAll == Some("") && compoundNameAllLatex == Some("$$") && Report() == old(Report())
      ensures var cs := Snapshot(compoundsInfo);
        var k := FirstFailure(lib, cs, energy);
        compoundsInfo != [] ==>
          && (k < |cs| ==> Aborted(cs, k, old(Report()), r))
          && (k == |cs| ==> Finished(cs, old(Report()), r))
      ensures Stored(FirstFailure(lib, Snapshot(compoundsInfo), energy), old(AbsEntries()))
    {
      ghost var before := Report();
      absTotal := Some(Zeros(|energy|));
      compoundNameAllLatex := Some("$$");
      compoundNameAll := Some("");
      if |compoundsInfo| == 0 {
        return Failure(EmptyComposition);
      }
      assert Report() == before;
      r := Accumulate();
    }

    /** The loop of `abs_calc` and what follows it, once the total and the
        names have been reset. */
    method Accumulate() returns (r: Result<seq<real>>)
      requires Valid() && absTotal == Some(Zeros(|energy|))
      requires compoundNameAll == Some("") && compoundNameAllLatex == Some("$$")
      modifies this`absTotal, this`compoundNameAll, this`compoundNameAllLatex, this`printlst, this`absMax,
        this`absMin, this`edgeJump, this`transmittedPercentage, compoundsInfo
      ensures Valid()
      ensures var cs := Snapshot(compoundsInfo);
        var k := FirstFailure(lib, cs, energy);
        && (k < |cs| ==> Aborted(cs, k, old(Report()), r))
        && (k == |cs| ==> Finished(cs, old(Report()), r))
      ensures Stored(FirstFailure(lib, Snapshot(compoundsInfo), energy), old(AbsEntries()))
    {
      ghost var before := Report();
      var failed := AddCompounds();
      assert Report() == before;
      var cs := Snapshot(compoundsInfo);
      if failed.Some? {
        return Failure(CrossSectionFailed(cs[failed.value].formula));
      }
      assert cs[..|cs|] == cs;
      r := Finish(Total(lib, cs, energy), Names(lib, cs, Unit), "$$" + LatexNames(lib, cs));
    }

    /** What `abs_calc` reports besides `abs_total` and the names. */
    function Report(): ReportState
      reads this`printlst, this`absMax, this`absMin, this`edgeJump, this`transmittedPercentage
    {
      ReportState(printlst, absMax, absMin, edgeJump, transmittedPercentage)
    }

    /** `abs_calc` stopped at compound `k`: it raises with that compound's
        formula, `abs_total` and both names hold the first `k` compounds, and
        the reported values are still `before`. */
    ghost predicate Aborted(cs: seq<Compound>, k: nat, before: ReportState, r: Result<seq<real>>)
      reads this
    {
      && k < |cs| && Accumulated(cs, k)
      && r == Failure(CrossSectionFailed(cs[k].formula))
      && Report() == before
    }

    /** `abs_calc` went through all of `cs`: every compound has a curve and
        the run ends as `Completed` says for the sum of the curves and the
        two names built from all of them. */
    ghost predicate Finished(cs: seq<Compound>, before: ReportState, r: Result<seq<real>>)
      reads this
    {
      && AllDefined(lib, cs, energy)
      && Completed(Total(lib, cs, energy), Names(lib, cs, Unit), "$$" + LatexNames(lib, cs), before, r)
    }

    /** The end of `abs_calc` from `abs_total == total` and the two names
        built by the loop: the names lose their trailing separators (the
        LaTeX one is then closed with `$$`), `printlst` gets the banner of
        the plain one, and the run ends as `Concluded` says. */
    ghost predicate Completed(total: seq<real>, names: string, latex: string, before: ReportState, r: Result<seq<real>>)
      reads this
    {
      var name := RStrip(names, SeparatorChars);
      && absTotal == Some(total)
      && compoundNameAll == Some(name)
      && compoundNameAllLatex == Some(RStrip(latex, SeparatorChars) + "$$")
      && Concluded(total, before.(printlst := before.printlst[CompoundsKey := Banner(name)]), r)
    }

    /** `edge_jump_calc` has run on the edge window over `total`. If it
        raised, the error is passed on and the reported values are still
        `before`; otherwise the summary values and their `printlst` lines
        are set, the transmission is `exp(-total)` in percent and `total` is
        returned. */
    ghost predicate Concluded(total: seq<real>, before: ReportState, r: Result<seq<real>>)
      reads this`printlst, this`absMax, this`absMin, this`edgeJump, this`transmittedPercentage
    {
      |total| == |energy| &&
      var w := EdgeWindow(edgeValue);
      var out := EdgeJumpOutcome(Some(total), energy, Some(w.0), Some(w.1));
      && (out.Failure? ==> r == Failure(out.error) && Report() == before)
      && (out.Success? ==>
            && r == Success(total)
            && Report() == ReportState(before.printlst + StatsLines(lib, out.value), Some(out.value.absMax),
                 Some(out.value.absMin), Some(out.value.edgeJump), Some(Transmission(lib, total))))
    }

    /** The part of `abs_calc` after the loop. */
    method Finish(ghost total: seq<real>, ghost names: string, ghost latex: string) returns (r: Result<seq<real>>)
      requires Valid() && absTotal == Some(total)
      requires compoundNameAll == Some(names) && compoundNameAllLatex == Some(latex)
      modifies this`compoundNameAll, this`compoundNameAllLatex, this`printlst, this`absMax, this`absMin,
        this`edgeJump, this`transmittedPercentage
      ensures Valid() && Completed(total, names, latex, old(Report()), r)
    {
      ghost var before := Report();
      FinishNames();
      assert Report() == before.(printlst := before.printlst[CompoundsKey := Banner(compoundNameAll.value)]);
      r := Conclude(total);
    }

    /** The end of `abs_calc`: `edge_jump_calc` on the edge window, then the
        transmission. */
    method Conclude(ghost total: seq<real>) returns (r: Result<seq<real>>)
      requires Valid() && absTotal == Some(total)
      modifies this`printlst, this`absMax, this`absMin, this`edgeJump, this`transmittedPercentage
      ensures Valid() && Concluded(total, old(Report()), r)
    {
      var w := EdgeWindow(edgeValue);
      var jump := EdgeJumpCalc(Some(w.0), Some(w.1));
      if jump.Failure? {
        return Failure(jump.error);
      }
      transmittedPercentage := Some(Transmission(lib, absTotal.value));
      r := Success(absTotal.value);
    }

    /** The two names lose their trailing separators, the LaTeX one is
        closed with `$$`, and `printlst` gets the banner of the plain one. */
    method FinishNames()
      requires compoundNameAll.Some? && compoundNameAllLatex.Some?
      modifies this`compoundNameAll, this`compoundNameAllLatex, this`printlst
      ensures compoundNameAll == Some(RStrip(old(compoundNameAll.value), SeparatorChars))
      ensures compoundNameAllLatex == Some(RStrip(old(compoundNameAllLatex.value), SeparatorChars) + "$$")
      ensures printlst == old(printlst)[CompoundsKey := Banner(compoundNameAll.value)]
    {
      compoundNameAllLatex := Some(RStrip(compoundNameAllLatex.value, SeparatorChars) + "$$");
      compoundNameAll := Some(RStrip(compoundNameAll.value, SeparatorChars));
      printlst := printlst[CompoundsKey := Banner(compoundNameAll.value)];
    }

    /** After the first `k` compounds of `cs` have been added: `abs_total`
        holds the sum of their curves and the two name strings their pieces. */
    ghost predicate Accumulated(cs: seq<Compound>, k: nat)
      reads this
    {
      && k <= |cs| && AllDefined(lib, cs[..k], energy)
      && absTotal == Some(Total(lib, cs[..k], energy))
      && compoundNameAll == Some(Names(lib, cs[..k], Unit))
      && compoundNameAllLatex == Some("$$" + LatexNames(lib, cs[..k]))
    }


    /** The `"abs"` entry of every compound dictionary at the start. */
    function AbsEntries(): map<CompoundInfo, Option<seq<real>>>
      reads compoundsInfo
    {
      map o | o in compoundsInfo :: o.abs
    }

    /** The dictionaries of the first `k` compounds hold their curves; the
        others still hold what `before` says. */
    ghost predicate Stored(k: nat, before: map<CompoundInfo, Option<seq<real>>>)
      reads compoundsInfo
    {
      && k <= |compoundsInfo|
      && forall o {:trigger o in compoundsInfo} :: o in compoundsInfo ==>
           o in before && o.abs == if o in compoundsInfo[..k] then Curve(lib, o.Value(), energy) else before[o]
    }

    /** One pass of the loop over the compounds: the curve of compound `k`
        is computed over the grid; if a lookup raises nothing changes and
        `k` is the first failing compound, otherwise the curve is stored in
        the compound's dictionary, added to `abs_total`, and both name
        strings get the compound's piece. */
    method AddCompound(k: nat, ghost cs: seq<Compound>, ghost before: map<CompoundInfo, Option<seq<real>>>)
      returns (ok: bool)
      requires cs == Snapshot(compoundsInfo) && k < |cs| && k <= FirstFailure(lib, cs, energy)
      requires Accumulated(cs, k) && Stored(k, before)
      modifies this`absTotal, this`compoundNameAll, this`compoundNameAllLatex, compoundsInfo[k]
      ensures ok ==> k < FirstFailure(lib, cs, energy) && Accumulated(cs, k + 1) && Stored(k + 1, before)
      ensures !ok ==> k == FirstFailure(lib, cs, energy) && Accumulated(cs, k) && Stored(k, before)
    {
      var info := compoundsInfo[k];
      var curve := ComputeCurve(lib, info.Value(), energy);
      if curve.None? {
        FirstFailureAt(lib, cs, energy, k);
        return false;
      }
      BeforeFirstFailure(lib, cs, energy, k);
      PrefixGrows(compoundsInfo, k);
      info.abs := curve;
      TotalStep(lib, cs, k, energy, curve);
      NamesStep(lib, cs, k, Unit);
      absTotal := Some(Add(absTotal.value, curve.value));
      compoundNameAllLatex := Some(compoundNameAllLatex.value + LatexPiece(lib, info.Value()));
      compoundNameAll := Some(compoundNameAll.value + NamePiece(lib, info.Value(), Unit));
      return true;
    }

    /** The `for compound_info in self.compounds_info` loop of `abs_calc`,
        from the reset arrays and strings: it stops at the first compound
        whose lookup raises and reports its index. The dictionaries of the
        compounds before it hold their curves; the others are untouched. */
    method AddCompounds() returns (failed: Option<nat>)
      requires absTotal == Some(Zeros(|energy|))
      requires compoundNameAll == Some("") && compoundNameAllLatex == Some("$$")
      modifies this`absTotal, this`compoundNameAll, this`compoundNameAllLatex, compoundsInfo
      ensures var cs := Snapshot(compoundsInfo);
        var k := FirstFailure(lib, cs, energy);
        && failed == (if k < |cs| then Some(k) else None)
        && Accumulated(cs, k) && Stored(k, old(AbsEntries()))
    {
      var cs := Snapshot(compoundsInfo);
      ghost var before := AbsEntries();
      var k := 0;
      assert "$$" + LatexNames(lib, cs[..0]) == "$$";
      while k < |compoundsInfo|
        invariant k <= FirstFailure(lib, cs, energy)
        invariant Accumulated(cs, k) && Stored(k, before)
      {
        var ok := AddCompound(k, cs, before);
        if !ok {
          return Some(k);
        }
        k := k + 1;
      }
      return None;
    }
  }
}
