/** `formula_to_latex`: the `re.findall` scan of a chemical formula with the
    pattern `([A-Z][a-z]*)(\d*\.?\d*)` and the LaTeX pieces it emits. Both
    copies of the function (notebook and backend) are the same code. */
module Formula {

  predicate IsUpper(c: char) { 'A' <= c <= 'Z' }
  predicate IsLower(c: char) { 'a' <= c <= 'z' }
  predicate IsDigit(c: char) { '0' <= c <= '9' }

  /** One match of the pattern: the element group and the count group. */
  datatype Token = Token(element: string, count: string)

  /** The two repeated character classes of the pattern: `[a-z]` and `\d`. */
  datatype CharClass = Lower | Digit

  predicate In(c: char, k: CharClass)
  {
    match k
    case Lower => IsLower(c)
    case Digit => IsDigit(c)
  }

  /** Length of the longest prefix of `s` whose characters are all in class
      `k` (a greedy `[a-z]*` or `\d*`). */
  function Run(s: string, k: CharClass): (n: nat)
    ensures n <= |s|
  {
    if s != [] && In(s[0], k) then 1 + Run(s[1..], k) else 0
  }

  /** The run is the longest prefix in the class: every character of it is
      in the class, and the next one, if any, is not. */
  lemma {:induction false} RunIsLongest(s: string, k: CharClass)
    ensures AllOf(s[..Run(s, k)], k)
    ensures Run(s, k) < |s| ==> !In(s[Run(s, k)], k)
  {
    if s != [] && In(s[0], k) {
      RunIsLongest(s[1..], k);
      assert s[..Run(s, k)] == [s[0]] + s[1..][..Run(s[1..], k)];
    }
  }

  /** Length of the greedy match of `\d*\.?\d*` at the start of `s`. When no
      '.' follows the first digits, the second `\d*` matches nothing, since
      the next character is not a digit either. */
  function CountLength(s: string): (n: nat)
    ensures n <= |s|
  {
    var d := Run(s, Digit);
    if d < |s| && s[d] == '.' then d + 1 + Run(s[d + 1..], Digit) else d
  }

  predicate AllOf(s: string, p: CharClass)
  {
    forall i :: 0 <= i < |s| ==> In(s[i], p)
  }

  /** What the element group can match: an upper-case letter, then lower-case ones. */
  predicate IsElement(e: string)
  {
    |e| > 0 && IsUpper(e[0]) && AllOf(e[1..], Lower)
  }

  /** What the count group can match: digits, optionally followed by '.' and digits. */
  predicate IsCount(c: string)
  {
    var d := Run(c, Digit);
    d == |c| || (c[d] == '.' && AllOf(c[d + 1..], Digit))
  }

  predicate WellFormed(t: Token)
  {
    IsElement(t.element) && IsCount(t.count)
  }

  /** The match of the pattern at an upper-case letter: the token and the
      number of characters it consumes (at least the letter itself). */
  function MatchAt(s: string): (m: (Token, nat))
    requires s != [] && IsUpper(s[0])
    ensures 0 < m.1 <= |s|
  {
    var e := 1 + Run(s[1..], Lower);
    var tail := s[e..];
    var c := CountLength(tail);
    (Token(s[..e], tail[..c]), e + c)
  }

  /** `re.findall`: scanning left to right, a match starts at every
      upper-case letter not consumed by the previous match; any other
      character is skipped. */
  function Tokens(s: string): (ts: seq<Token>)
    ensures |ts| <= |s|
    decreases |s|
  {
    if s == [] then []
    else if !IsUpper(s[0]) then Tokens(s[1..])
    else
      var m := MatchAt(s);
      [m.0] + Tokens(s[m.1..])
  }

  /** A match reads an element symbol and a count, and consumes exactly
      their characters. */
  lemma MatchAtWellFormed(s: string)
    requires s != [] && IsUpper(s[0])
    ensures WellFormed(MatchAt(s).0)
    ensures MatchAt(s).0.element + MatchAt(s).0.count == s[..MatchAt(s).1]
  {
    var e := 1 + Run(s[1..], Lower);
    var tail := s[e..];
    var c := CountLength(tail);
    var element, count := s[..e], tail[..c];
    assert IsCount(count) by { CountLengthIsCount(tail); }
    assert IsElement(element) by {
      RunIsLongest(s[1..], Lower);
      assert element[1..] == s[1..][..e - 1];
    }
    assert element + count == s[..e + c];
  }

  /** Every match of the scan is an element symbol followed by a count. */
  lemma {:induction false} TokensWellFormed(s: string)
    ensures forall t :: t in Tokens(s) ==> WellFormed(t)
    decreases |s|
  {
    if s != [] {
      if !IsUpper(s[0]) {
        TokensWellFormed(s[1..]);
      } else {
        var m := MatchAt(s);
        MatchAtWellFormed(s);
        TokensWellFormed(s[m.1..]);
      }
    }
  }

  lemma CountLengthIsCount(s: string)
    ensures IsCount(s[..CountLength(s)])
  {
    var d := Run(s, Digit);
    var n := CountLength(s);
    var c := s[..n];
    if d < |s| && s[d] == '.' {
      var d2 := Run(s[d + 1..], Digit);
      RunOfPrefix(s, Digit, n);
      RunIsLongest(s[d + 1..], Digit);
      assert c[d + 1..] == s[d + 1..][..d2];
    } else {
      RunOfPrefix(s, Digit, n);
    }
  }

  /** Cutting `s` after its first `n` characters, with `n` not inside the
      leading run, keeps that run. */
  lemma {:induction false} RunOfPrefix(s: string, p: CharClass, n: nat)
    requires Run(s, p) <= n <= |s|
    ensures Run(s[..n], p) == Run(s, p)
  {
    if s != [] && In(s[0], p) {
      assert s[..n][1..] == s[1..][..n - 1];
      RunOfPrefix(s[1..], p, n - 1);
    }
  }

  /** The LaTeX piece of one match: `\text{El}` when the count is empty,
      `\text{El}_{count}` otherwise. */
  function Piece(t: Token): string
  {
    if t.count == [] then "\\text{" + t.element + "}"
    else "\\text{" + t.element + "}_{" + t.count + "}"
  }

  /** The loop of `formula_to_latex`: pieces concatenated in match order. */
  function Pieces(ts: seq<Token>): string
  {
    if ts == [] then "" else Piece(ts[0]) + Pieces(ts[1..])
  }

  /** The output is empty exactly when the formula has no match. */
  function FormulaToLatex(formula: string): (r: string)
    ensures r == [] <==> Tokens(formula) == []
  {
    Pieces(Tokens(formula))
  }

  /** The text a sequence of matches was read from, with nothing skipped. */
  function Render(ts: seq<Token>): string
  {
    if ts == [] then "" else ts[0].element + ts[0].count + Render(ts[1..])
  }

  // ---- lemmas --------------------------------------------------------------

  lemma {:induction false} RunAppend(a: string, b: string, p: CharClass)
    requires AllOf(a, p)
    ensures Run(a + b, p) == |a| + Run(b, p)
  {
    if a != [] {
      assert (a + b)[1..] == a[1..] + b;
      RunAppend(a[1..], b, p);
    } else {
      assert a + b == b;
    }
  }

  lemma RunStops(s: string, p: CharClass)
    requires s == [] || !In(s[0], p)
    ensures Run(s, p) == 0
  {
  }

  /** Text that starts a new match (or ends the string) after a count. */
  predicate StartsMatchOrEmpty(s: string)
  {
    s == [] || IsUpper(s[0])
  }

  /** The text after count `c` cannot extend it: it does not start with a
      digit, nor with a '.' unless `c` already holds one. */
  predicate CountEnds(c: string, rest: string)
  {
    rest == [] || (!IsDigit(rest[0]) && (rest[0] == '.' ==> '.' in c))
  }

  /** The text after token `t` cannot extend its match: not its count and,
      when the count is empty, not its element either. */
  predicate TokenEnds(t: Token, rest: string)
  {
    CountEnds(t.count, rest) && (t.count == [] && rest != [] ==> !IsLower(rest[0]))
  }

  /** A count followed by text that cannot extend it is consumed exactly
      by `\d*\.?\d*`. */
  lemma CountLengthOfCount(c: string, rest: string)
    requires IsCount(c) && CountEnds(c, rest)
    ensures CountLength(c + rest) == |c|
  {
    var d := Run(c, Digit);
    assert Run(c + rest, Digit) == d by {
      RunOfPrefix(c, Digit, d);
      RunIsLongest(c, Digit);
      assert c + rest == c[..d] + (c[d..] + rest);
      RunAppend(c[..d], c[d..] + rest, Digit);
      if d == |c| {
        assert c[d..] + rest == rest;
      } else {
        assert (c[d..] + rest)[0] == '.';
      }
      RunStops(c[d..] + rest, Digit);
    }
    if d < |c| {
      FractionRun(c, rest, d);
    } else {
      assert c + rest == c[..d] + rest;
      if rest != [] && rest[0] == '.' {
        RunIsLongest(c, Digit);
        assert false;
      }
    }
  }

  lemma FractionRun(c: string, rest: string, d: nat)
    requires d < |c| && c[d] == '.' && AllOf(c[d + 1..], Digit) && CountEnds(c, rest)
    ensures Run((c + rest)[d + 1..], Digit) == |c| - d - 1
  {
    assert (c + rest)[d + 1..] == c[d + 1..] + rest;
    RunAppend(c[d + 1..], rest, Digit);
    RunStops(rest, Digit);
  }

  /** After the upper-case letter of a well-formed token, the `[a-z]*` run
      stops exactly where the element ends. */
  lemma ElementRun(t: Token, rest: string)
    requires WellFormed(t) && TokenEnds(t, rest)
    ensures Run((t.element + t.count + rest)[1..], Lower) == |t.element| - 1
  {
    var s := t.element + t.count + rest;
    assert s[1..] == t.element[1..] + (t.count + rest);
    RunAppend(t.element[1..], t.count + rest, Lower);
    if t.count != [] {
      assert (t.count + rest)[0] == t.count[0];
      assert Run(t.count, Digit) == 0 ==> t.count[0] == '.';
    } else {
      assert t.count + rest == rest;
    }
    RunStops(t.count + rest, Lower);
  }

  /** A well-formed token followed by text that cannot extend it is matched
      exactly. */
  lemma MatchAtToken(t: Token, rest: string)
    requires WellFormed(t) && TokenEnds(t, rest)
    ensures var s := t.element + t.count + rest;
      s != [] && IsUpper(s[0]) && MatchAt(s) == (t, |t.element| + |t.count|)
  {
    var s := t.element + t.count + rest;
    TokenGroups(t, rest);
    MatchAtSplit(s, |t.element|, |t.count|);
  }

  /** Where the two groups of the pattern end in a rendered token. */
  lemma TokenGroups(t: Token, rest: string)
    requires WellFormed(t) && TokenEnds(t, rest)
    ensures var s := t.element + t.count + rest; var e := |t.element|;
      && s != [] && IsUpper(s[0]) && Run(s[1..], Lower) == e - 1 && CountLength(s[e..]) == |t.count|
      && s[..e] == t.element && s[e..][..|t.count|] == t.count
  {
    var s := t.element + t.count + rest;
    var e := |t.element|;
    assert s[0] == t.element[0];
    ElementRun(t, rest);
    assert s[e..] == t.count + rest;
    CountLengthOfCount(t.count, rest);
    assert s[..e] == t.element;
    assert s[e..][..|t.count|] == t.count;
  }

  /** The match at `s` in terms of the lengths of its two groups. */
  lemma MatchAtSplit(s: string, e: nat, c: nat)
    requires s != [] && IsUpper(s[0]) && 0 < e <= |s|
    requires Run(s[1..], Lower) == e - 1 && CountLength(s[e..]) == c
    ensures MatchAt(s) == (Token(s[..e], s[e..][..c]), e + c)
  {
  }

  /** Parsing what `Render` printed gives back the same matches: the scan of
      `formula_to_latex` reads well-formed element/count pairs exactly. */
  lemma {:induction false} TokensOfRender(ts: seq<Token>)
    requires forall t :: t in ts ==> WellFormed(t)
    ensures Tokens(Render(ts)) == ts
  {
    if ts != [] {
      var t, more := ts[0], ts[1..];
      assert t in ts;
      assert forall u :: u in more ==> u in ts;
      var rest := Render(more);
      RenderStartsMatch(more);
      MatchAtToken(t, rest);
      var s := t.element + t.count + rest;
      assert s[|t.element| + |t.count|..] == rest;
      assert Render(ts) == s;
      assert Tokens(s) == [t] + Tokens(rest);
      TokensOfRender(more);
      HeadTail(ts);
    }
  }

  lemma HeadTail<T>(s: seq<T>)
    requires s != []
    ensures [s[0]] + s[1..] == s
  {
  }

  /** Rendered well-formed matches begin with an upper-case letter, unless
      there are none. */
  lemma RenderStartsMatch(ts: seq<Token>)
    requires forall t :: t in ts ==> WellFormed(t)
    ensures StartsMatchOrEmpty(Render(ts))
  {
    if ts != [] {
      assert ts[0] in ts;
    }
  }

  /** Text before the first upper-case letter is dropped. */
  lemma {:induction false} TokensSkipJunk(junk: string, s: string)
    requires forall i :: 0 <= i < |junk| ==> !IsUpper(junk[i])
    ensures Tokens(junk + s) == Tokens(s)
  {
    if junk != [] {
      assert (junk + s)[1..] == junk[1..] + s;
      TokensSkipJunk(junk[1..], s);
    } else {
      assert junk + s == s;
    }
  }

  /** A formula without any upper-case letter yields the empty string. */
  lemma NoUpperGivesEmpty(s: string)
    requires forall i :: 0 <= i < |s| ==> !IsUpper(s[i])
    ensures FormulaToLatex(s) == ""
  {
    TokensSkipJunk(s, "");
    assert s + "" == s;
  }

  /** The LaTeX of well-formed matches written out is their pieces in order;
      in particular each count substring is copied verbatim. */
  lemma LatexOfRender(ts: seq<Token>)
    requires forall t :: t in ts ==> WellFormed(t)
    ensures FormulaToLatex(Render(ts)) == Pieces(ts)
  {
    TokensOfRender(ts);
  }

  /** Text without upper-case letters: the scan never starts a match in it. */
  predicate NoUpper(s: string)
  {
    forall i :: 0 <= i < |s| ==> !IsUpper(s[i])
  }

  /** A formula written as matches, each followed by its own gap of text. */
  function Write(ts: seq<Token>, gaps: seq<string>): string
    requires |gaps| == |ts|
  {
    if ts == [] then "" else ts[0].element + ts[0].count + gaps[0] + Write(ts[1..], gaps[1..])
  }

  /** A token and the gap after it are read as that token alone, whatever
      follows, when the gap has no upper-case letter and cannot extend it. */
  lemma TokenThenGap(t: Token, gap: string, more: string)
    requires WellFormed(t) && NoUpper(gap) && TokenEnds(t, gap) && StartsMatchOrEmpty(more)
    ensures Tokens(t.element + t.count + gap + more) == [t] + Tokens(more)
  {
    GapEnds(t, gap, more);
    ScanToken(t, gap + more);
    TokensSkipJunk(gap, more);
    AppendAssoc(t.element + t.count, gap, more);
  }

  lemma AppendAssoc<T>(a: seq<T>, b: seq<T>, c: seq<T>)
    ensures a + b + c == a + (b + c)
  {
  }

  /** A gap that ends the token still ends it once more text follows. */
  lemma GapEnds(t: Token, gap: string, more: string)
    requires TokenEnds(t, gap) && StartsMatchOrEmpty(more)
    ensures TokenEnds(t, gap + more)
  {
    if gap == [] {
      assert gap + more == more;
    } else {
      assert (gap + more)[0] == gap[0];
    }
  }

  /** The scan reads a well-formed token that nothing extends, then goes on
      with the text after it. */
  lemma ScanToken(t: Token, rest: string)
    requires WellFormed(t) && TokenEnds(t, rest)
    ensures Tokens(t.element + t.count + rest) == [t] + Tokens(rest)
  {
    var s := t.element + t.count + rest;
    MatchAtToken(t, rest);
    ScanStep(s);
    assert s[|t.element| + |t.count|..] == rest;
  }

  /** One step of the scan at an upper-case letter. */
  lemma ScanStep(s: string)
    requires s != [] && IsUpper(s[0])
    ensures Tokens(s) == [MatchAt(s).0] + Tokens(s[MatchAt(s).1..])
  {
  }

  /** The matches of a formula made of text without upper-case letters and
      well-formed tokens, each followed by a gap that cannot extend it: the
      scan reads exactly those tokens, and every character outside them is
      dropped. */
  lemma {:induction false} TokensOfWritten(lead: string, ts: seq<Token>, gaps: seq<string>)
    requires |gaps| == |ts| && NoUpper(lead)
    requires forall i :: 0 <= i < |ts| ==> WellFormed(ts[i]) && NoUpper(gaps[i]) && TokenEnds(ts[i], gaps[i])
    ensures Tokens(lead + Write(ts, gaps)) == ts
    decreases |ts|
  {
    TokensSkipJunk(lead, Write(ts, gaps));
    if ts != [] {
      var more := Write(ts[1..], gaps[1..]);
      assert StartsMatchOrEmpty(more) by {
        if ts[1..] != [] {
          assert more[0] == ts[1].element[0];
        }
      }
      TokenThenGap(ts[0], gaps[0], more);
      assert Write(ts, gaps) == ts[0].element + ts[0].count + gaps[0] + more;
      TokensOfWritten("", ts[1..], gaps[1..]);
      assert "" + more == more;
      HeadTail(ts);
    } else {
      assert lead + Write(ts, gaps) == lead + "";
    }
  }

  /** `formula_to_latex` of such a formula is one piece per token, in order;
      for example "Ca(OH)2" gives the pieces of Ca, O and H. */
  lemma LatexOfFormula(lead: string, ts: seq<Token>, gaps: seq<string>)
    requires |gaps| == |ts| && NoUpper(lead)
    requires forall i :: 0 <= i < |ts| ==> WellFormed(ts[i]) && NoUpper(gaps[i]) && TokenEnds(ts[i], gaps[i])
    ensures FormulaToLatex(lead + Write(ts, gaps)) == Pieces(ts)
  {
    TokensOfWritten(lead, ts, gaps);
  }

  /** The parentheses and the trailing "2" of "Ca(OH)2" are outside every
      match, so the output holds only the pieces of Ca, O and H. */
  lemma CalciumHydroxide()
    ensures FormulaToLatex("Ca(OH)2") == Pieces([Token("Ca", ""), Token("O", ""), Token("H", "")])
  {
    var ca, o, h := Token("Ca", ""), Token("O", ""), Token("H", "");
    var ts, gaps := [ca, o, h], ["(", "", ")2"];
    assert AllOf("a", Lower) && AllOf("", Lower);
    assert WellFormed(ca) && WellFormed(o) && WellFormed(h);
    assert NoUpper("(") && NoUpper("") && NoUpper(")2");
    assert Write(ts[2..], gaps[2..]) == "H)2";
    assert Write(ts[1..], gaps[1..]) == "OH)2";
    assert Write(ts, gaps) == "Ca(OH)2";
    LatexOfFormula("", ts, gaps);
    assert "" + Write(ts, gaps) == "Ca(OH)2";
  }

  /** The output for two runs of matches, one after the other, is the output
      for the first run followed by the output for the second. */
  lemma {:induction false} PiecesAppend(a: seq<Token>, b: seq<Token>)
    ensures Pieces(a + b) == Pieces(a) + Pieces(b)
  {
    if a != [] {
      assert (a + b)[1..] == a[1..] + b;
      PiecesAppend(a[1..], b);
    } else {
      assert a + b == b;
    }
  }
}
