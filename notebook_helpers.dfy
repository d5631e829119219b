/** The free helper functions of the notebook copy (XASCalc_core.py):
    `compound_generator` and the mask of `select_data`. */
module NotebookHelpers {
  import opened Common
  import opened Formula

  // ---- compound_generator ---------------------------------------------------

  /** `''.join(f"{el}{comp}" for el, comp in zip(elements, composition))`.
      Compositions are numbers in the source; here they are the strings
      Python's `str()` gives them. `zip` stops at the shorter list. */
  function CompoundGenerator(elements: seq<string>, composition: seq<string>): string
  {
    if elements == [] || composition == [] then ""
    else elements[0] + composition[0] + CompoundGenerator(elements[1..], composition[1..])
  }

  function MinLength(a: nat, b: nat): nat { if a <= b then a else b }

  /** The pairs `zip` produces, as formula tokens. */
  function Zip(elements: seq<string>, composition: seq<string>): (ps: seq<Token>)
    ensures |ps| == MinLength(|elements|, |composition|)
  {
    seq(MinLength(|elements|, |composition|), i requires 0 <= i < MinLength(|elements|, |composition|) =>
      Token(elements[i], composition[i]))
  }

  /** The result is the first min(len(elements), len(composition)) pairs
      written out in order, each element immediately followed by its count. */
  lemma {:induction false} CompoundGeneratorZips(elements: seq<string>, composition: seq<string>)
    ensures CompoundGenerator(elements, composition) == Render(Zip(elements, composition))
  {
    var z := Zip(elements, composition);
    if elements != [] && composition != [] {
      CompoundGeneratorZips(elements[1..], composition[1..]);
      assert z[1..] == Zip(elements[1..], composition[1..]);
    } else {
      assert z == [];
    }
  }

  /** Items of the longer list beyond the shorter one's length are ignored. */
  lemma ExtraItemsIgnored(elements: seq<string>, composition: seq<string>)
    ensures var m := MinLength(|elements|, |composition|);
      CompoundGenerator(elements, composition) == CompoundGenerator(elements[..m], composition[..m])
  {
    var m := MinLength(|elements|, |composition|);
    CompoundGeneratorZips(elements, composition);
    CompoundGeneratorZips(elements[..m], composition[..m]);
    assert Zip(elements, composition) == Zip(elements[..m], composition[..m]);
  }

  /** A generated formula is read back by `formula_to_latex` pair by pair
      when the symbols are element symbols and the compositions decimal
      numbers (a composition printed like "1e-05" breaks this). */
  lemma GeneratedFormulaTokens(elements: seq<string>, composition: seq<string>)
    requires forall i :: 0 <= i < |elements| ==> IsElement(elements[i])
    requires forall i :: 0 <= i < |composition| ==> IsCount(composition[i])
    ensures Tokens(CompoundGenerator(elements, composition)) == Zip(elements, composition)
    ensures FormulaToLatex(CompoundGenerator(elements, composition)) == Pieces(Zip(elements, composition))
  {
    var z := Zip(elements, composition);
    assert forall t :: t in z ==> WellFormed(t);
    CompoundGeneratorZips(elements, composition);
    TokensOfRender(z);
  }

  // ---- select_data ----------------------------------------------------------

  /** The 0/1 factor `~masked_outside(data, lower, upper).mask` at one point. */
  function Indicator(x: real, lower: real, upper: real): int
  {
    if InWindow(x, lower, upper) then 1 else 0
  }

  /** Criteria are well shaped: every data array has the mask's `n` points
      and each has a lower and an upper threshold. */
  predicate Shaped(n: nat, data: seq<seq<real>>, lower: seq<real>, upper: seq<real>)
  {
    |data| <= |lower| && |data| <= |upper| &&
    forall i :: 0 <= i < |data| ==> |data[i]| == n
  }

  /** The mask value at point `j` after the first `|data|` criteria have been
      multiplied in, in the order of the loop. */
  function MaskValue(data: seq<seq<real>>, lower: seq<real>, upper: seq<real>, j: nat): (v: int)
    requires |data| <= |lower| && |data| <= |upper|
    requires forall i :: 0 <= i < |data| ==> j < |data[i]|
    ensures v == 0 || v == 1
  {
    if data == [] then 1
    else
      var last := |data| - 1;
      MaskValue(data[..last], lower, upper, j) * Indicator(data[last][j], lower[last], upper[last])
  }

  /** Point `j` passes every criterion. */
  predicate SelectedAt(data: seq<seq<real>>, lower: seq<real>, upper: seq<real>, j: nat)
    requires |data| <= |lower| && |data| <= |upper|
    requires forall i :: 0 <= i < |data| ==> j < |data[i]|
  {
    forall i :: 0 <= i < |data| ==> InWindow(data[i][j], lower[i], upper[i])
  }

  /** The product of the 0/1 factors is 1 exactly when every value lies in
      its inclusive window, and 0 otherwise. */
  lemma {:induction false} MaskValueMeaning(data: seq<seq<real>>, lower: seq<real>, upper: seq<real>, j: nat)
    requires |data| <= |lower| && |data| <= |upper|
    requires forall i :: 0 <= i < |data| ==> j < |data[i]|
    ensures MaskValue(data, lower, upper, j) == if SelectedAt(data, lower, upper, j) then 1 else 0
  {
    if data != [] {
      var last := |data| - 1;
      MaskValueMeaning(data[..last], lower, upper, j);
      if SelectedAt(data, lower, upper, j) {
        assert SelectedAt(data[..last], lower, upper, j);
      } else if SelectedAt(data[..last], lower, upper, j) {
        assert !InWindow(data[last][j], lower[last], upper[last]);
      }
    }
  }

  /** Inserting one more criterion anywhere in the list never turns a 0 of
      the mask into a 1. */
  lemma CriterionNeverAdds(data: seq<seq<real>>, lower: seq<real>, upper: seq<real>, j: nat,
                           p: nat, d: seq<real>, lo: real, hi: real)
    requires |data| <= |lower| && |data| <= |upper|
    requires forall i :: 0 <= i < |data| ==> j < |data[i]|
    requires p <= |data| && j < |d|
    ensures var data', lower', upper' := data[..p] + [d] + data[p..],
                                         lower[..p] + [lo] + lower[p..],
                                         upper[..p] + [hi] + upper[p..];
      MaskValue(data', lower', upper', j) <= MaskValue(data, lower, upper, j)
  {
    var data', lower', upper' := data[..p] + [d] + data[p..],
                                 lower[..p] + [lo] + lower[p..],
                                 upper[..p] + [hi] + upper[p..];
    Inserted(data, p, d);
    Inserted(lower, p, lo);
    Inserted(upper, p, hi);
    forall i | 0 <= i < |data'| ensures j < |data'[i]| {
      if i != p {
        var k := if i < p then i else i - 1;
        assert data'[i] == data[k];
      }
    }
    MaskValueMeaning(data, lower, upper, j);
    MaskValueMeaning(data', lower', upper', j);
    if SelectedAt(data', lower', upper', j) {
      forall i | 0 <= i < |data| ensures InWindow(data[i][j], lower[i], upper[i]) {
        var i' := if i < p then i else i + 1;
        assert data'[i'] == data[i] && lower'[i'] == lower[i] && upper'[i'] == upper[i];
      }
    }
  }

  /** Where the elements of `s` sit once `x` is inserted at position `p`. */
  lemma Inserted<T>(s: seq<T>, p: nat, x: T)
    requires p <= |s|
    ensures |s[..p] + [x] + s[p..]| == |s| + 1 && (s[..p] + [x] + s[p..])[p] == x
    ensures forall i :: 0 <= i < p ==> (s[..p] + [x] + s[p..])[i] == s[i]
    ensures forall i :: p < i <= |s| ==> (s[..p] + [x] + s[p..])[i] == s[i - 1]
  {
  }

  /** `select_data` without its plotting branch: the mask has the shape of
      `xx` (flattened to `n` points) and is 1 exactly at the points where
      every criterion's value lies in its inclusive threshold window. With
      no criteria it is all ones. */
  method SelectData(n: nat, data: seq<seq<real>>, lower: seq<real>, upper: seq<real>)
    returns (mask: array<int>)
    requires Shaped(n, data, lower, upper)
    ensures fresh(mask) && mask.Length == n
    ensures forall j :: 0 <= j < n ==> mask[j] == MaskValue(data, lower, upper, j)
    ensures forall j :: 0 <= j < n ==> (mask[j] == 1 <==> SelectedAt(data, lower, upper, j))
    ensures forall j :: 0 <= j < n ==> (mask[j] == 0 <==> !SelectedAt(data, lower, upper, j))
  {
    mask := new int[n](_ => 1);
    var i := 0;
    while i < |data|
      invariant 0 <= i <= |data|
      invariant forall j :: 0 <= j < n ==> mask[j] == MaskValue(data[..i], lower, upper, j)
    {
      assert data[..i + 1][..i] == data[..i];
      var j := 0;
      while j < n
        invariant 0 <= j <= n
        invariant forall k :: 0 <= k < j ==> mask[k] == MaskValue(data[..i + 1], lower, upper, k)
        invariant forall k :: j <= k < n ==> mask[k] == MaskValue(data[..i], lower, upper, k)
      {
        mask[j] := mask[j] * Indicator(data[i][j], lower[i], upper[i]);
        j := j + 1;
      }
      i := i + 1;
    }
    assert data[..|data|] == data;
    forall j | 0 <= j < n
      ensures mask[j] == 1 <==> SelectedAt(data, lower, upper, j)
      ensures mask[j] == 0 <==> !SelectedAt(data, lower, upper, j)
    {
      MaskValueMeaning(data, lower, upper, j);
    }
  }
}
