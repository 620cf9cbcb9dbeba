/** The per-identifier category tests of the structured-record path
    (`_is_base_ident`, `_is_amine_ident`, `_is_aryl_halide_ident`,
    `_is_metal_ident`, `_is_ligand_ident`). Each lower-cases the identifier and
    tests keyword containment; three of them add a regular-expression search,
    written out here as a predicate on positions. */
module Identifiers {
  import opened Strings
  import opened Keywords

  /** The slice `v[from..to]` holds no newline, so the regex `.*` can cover it. */
  predicate OnOneLine(v: string, from: int, to: int) {
    0 <= from <= to <= |v| && forall m :: from <= m < to ==> v[m] != '\n'
  }

  predicate CationAt(v: string, j: int) {
    At(v, j, "[na+]") || At(v, j, "[k+]") || At(v, j, "[li+]")
  }

  /** `re.search(r"\[o-\].*\[(na|k|li)\+\]", v)`: an alkoxide "[o-]" and,
      later on the same line, a sodium, potassium or lithium cation. */
  predicate AlkoxideSalt(v: string) {
    exists i, j :: 0 <= i <= |v| && 0 <= j <= |v| && At(v, i, "[o-]") && CationAt(v, j) && OnOneLine(v, i + 4, j)
  }

  predicate HalogenAt(v: string, j: int) {
    At(v, j, "cl") || At(v, j, "br") || At(v, j, "i")
  }

  /** `re.search(r"c.*(cl|br|i)", v)`: a "c" and, later on the same line,
      "cl", "br" or "i". */
  predicate HalogenAfterCarbon(v: string) {
    exists i, j :: 0 <= i <= |v| && 0 <= j <= |v| && At(v, i, "c") && HalogenAt(v, j) && OnOneLine(v, i + 1, j)
  }

  /** `re.search(r"n[h]?2", v)`. */
  predicate AminePattern(v: string) {
    Contains(v, "n2") || Contains(v, "nh2")
  }

  predicate IsBaseIdent(value: string) {
    var v := Lower(value);
    ContainsAny(v, BASE_KEYWORDS) || AlkoxideSalt(v) || ContainsAny(v, BASE_PATTERN_WORDS)
  }

  predicate IsAmineIdent(value: string) {
    var v := Lower(value);
    ContainsAny(v, AMINE_KEYWORDS) || AminePattern(v)
  }

  predicate IsArylHalideIdent(value: string) {
    var v := Lower(value);
    ContainsAny(v, ARYL_HALIDE_KEYWORDS) || HalogenAfterCarbon(v)
  }

  predicate IsMetalIdent(value: string) {
    ContainsAny(Lower(value), METAL_KEYWORDS)
  }

  predicate IsLigandIdent(value: string) {
    ContainsAny(Lower(value), LIGAND_KEYWORDS)
  }

  /** The unordered halogen test of the summary-text classifier: "br", "cl" or
      "i" occurs somewhere and "c" occurs somewhere, in either order. */
  predicate HalogenAndCarbon(nm: string) {
    (Contains(nm, "br") && Contains(nm, "c")) || (Contains(nm, "cl") && Contains(nm, "c")) || (Contains(nm, "i") && Contains(nm, "c"))
  }

  /** All five tests ignore case. */
  lemma IdentTestsIgnoreCase(value: string)
    ensures IsBaseIdent(Lower(value)) == IsBaseIdent(value)
    ensures IsAmineIdent(Lower(value)) == IsAmineIdent(value)
    ensures IsArylHalideIdent(Lower(value)) == IsArylHalideIdent(value)
    ensures IsMetalIdent(Lower(value)) == IsMetalIdent(value)
    ensures IsLigandIdent(Lower(value)) == IsLigandIdent(value)
  {
    LowerIdempotent(value);
  }

  lemma AtWitness(s: string, i: int, k: string)
    requires At(s, i, k)
    ensures Contains(s, k)
  {
  }

  /** The ordered regex search implies the unordered test: the summary-text
      fallback accepts every value the structured path's halogen pattern does. */
  lemma HalogenAfterCarbonIsAlsoUnordered(v: string)
    requires HalogenAfterCarbon(v)
    ensures HalogenAndCarbon(v)
  {
    var i, j :| 0 <= i <= |v| && 0 <= j <= |v| && At(v, i, "c") && HalogenAt(v, j) && OnOneLine(v, i + 1, j);
    AtWitness(v, i, "c");
    if At(v, j, "cl") {
      AtWitness(v, j, "cl");
    } else if At(v, j, "br") {
      AtWitness(v, j, "br");
    } else {
      AtWitness(v, j, "i");
    }
  }

  /** ... but not conversely: in "ic" the "i" comes before the only "c". */
  lemma UnorderedIsWeaker()
    ensures HalogenAndCarbon("ic")
    ensures !HalogenAfterCarbon("ic")
  {
    var v := "ic";
    assert At(v, 0, "i");
    assert At(v, 1, "c");
    forall i, j | 0 <= i <= |v| && 0 <= j <= |v| && At(v, i, "c") && HalogenAt(v, j)
      ensures !OnOneLine(v, i + 1, j)
    {
      assert v[i] == 'c';
      assert i == 1;
    }
  }

  /** Among the amine keywords only "amine", "aniline" and "nh2" matter (the
      others contain "amine"), and the regex adds the bare "n2". */
  lemma AmineIdentSimplified(value: string)
    ensures IsAmineIdent(value) <==>
      (var v := Lower(value);
       Contains(v, "amine") || Contains(v, "aniline") || Contains(v, "nh2") || Contains(v, "n2"))
  {
    var v := Lower(value);
    assert Contains(v, "amine") ==> ContainsAny(v, AMINE_KEYWORDS) by {
      if Contains(v, "amine") { assert Contains(v, AMINE_KEYWORDS[0]); }
    }
    assert Contains(v, "aniline") ==> ContainsAny(v, AMINE_KEYWORDS) by {
      if Contains(v, "aniline") { assert Contains(v, AMINE_KEYWORDS[1]); }
    }
    if ContainsAny(v, AMINE_KEYWORDS) {
      var j :| 0 <= j < |AMINE_KEYWORDS| && Contains(v, AMINE_KEYWORDS[j]);
      if j >= 3 {
        var k := AMINE_KEYWORDS[j];
        EndsInAmine(k);
        ContainsTransitive(v, k, "amine");
      }
    }
  }

  lemma EndsInAmine(k: string)
    requires k in AMINE_KEYWORDS[3..]
    ensures Contains(k, "amine")
  {
    assert At(k, |k| - 5, "amine");
  }

  /** The base regex adds only "hmds" and "tertbutoxide" to the base keywords. */
  lemma BaseIdentSimplified(value: string)
    ensures IsBaseIdent(value) <==>
      (var v := Lower(value);
       ContainsAny(v, BASE_KEYWORDS) || AlkoxideSalt(v) || Contains(v, "hmds") || Contains(v, "tertbutoxide"))
  {
    var v := Lower(value);
    if Contains(v, "hmds") { assert Contains(v, BASE_PATTERN_WORDS[2]); }
    if Contains(v, "tertbutoxide") { assert Contains(v, BASE_PATTERN_WORDS[5]); }
    if ContainsAny(v, BASE_PATTERN_WORDS) {
      var j :| 0 <= j < |BASE_PATTERN_WORDS| && Contains(v, BASE_PATTERN_WORDS[j]);
      if j == 0 { assert Contains(v, BASE_KEYWORDS[0]); }
      if j == 1 { assert Contains(v, BASE_KEYWORDS[2]); }
      if j == 3 { assert Contains(v, BASE_KEYWORDS[4]); }
      if j == 4 { assert Contains(v, BASE_KEYWORDS[3]); }
    }
  }
}
