/** The reaction-summary evidence extractor (`extract_components`) and its two
    classifiers. The HTML parser is outside the model: a summary arrives as its
    table rows (the stripped text of every cell and of the first link) and as
    the `Label : remainder` captures of its visible text. */
module HtmlExtract {
  import opened Wrappers
  import opened Strings
  import opened Keywords
  import opened Identifiers
  import opened Counters

  /** `re.fullmatch(r"[0-9 .%]+", v)`: non-empty and made only of digits,
      spaces, dots and percent signs. */
  predicate IsNumericLike(v: string) {
    |v| > 0 && forall i :: 0 <= i < |v| ==> v[i] in "0123456789 .%"
  }

  /** A cell that `_pick_name_from_cells` takes as the entity name. */
  predicate IsNameCandidate(v: string) {
    v != [] && !IsNumericLike(v) && !IsRoleWord(Lower(v))
  }

  /** `_pick_name_from_cells`: the first cell that is a name candidate. */
  function PickNameFromCells(cells: seq<string>): (r: Option<string>)
    ensures r.None? <==> forall i :: 0 <= i < |cells| ==> !IsNameCandidate(cells[i])
    ensures r.Some? ==> exists i :: 0 <= i < |cells| && cells[i] == r.value && IsNameCandidate(cells[i])
                                    && forall j :: 0 <= j < i ==> !IsNameCandidate(cells[j])
  {
    if cells == [] then None
    else if IsNameCandidate(cells[0]) then Some(cells[0])
    else
      var r := PickNameFromCells(cells[1..]);
      assert r.Some? ==> exists i :: 0 <= i < |cells| && cells[i] == r.value && IsNameCandidate(cells[i])
                                     && forall j :: 0 <= j < i ==> !IsNameCandidate(cells[j]) by {
        if r.Some? {
          var i :| 0 <= i < |cells| - 1 && cells[1..][i] == r.value && IsNameCandidate(cells[1..][i])
                   && forall j :: 0 <= j < i ==> !IsNameCandidate(cells[1..][j]);
          assert cells[i + 1] == r.value;
          forall j | 0 <= j < i + 1 ensures !IsNameCandidate(cells[j]) {
            if j > 0 { assert cells[j] == cells[1..][j - 1]; }
          }
        }
      }
      assert r.None? ==> forall i :: 0 <= i < |cells| ==> !IsNameCandidate(cells[i]) by {
        if r.None? {
          forall i | 0 <= i < |cells| ensures !IsNameCandidate(cells[i]) {
            if i > 0 { assert cells[i] == cells[1..][i - 1]; }
          }
        }
      }
      r
  }

  /** The categories the summary-text classifier tries for a reagent or
      reactant, highest priority first. */
  const TEXT_PRIORITY: seq<string> := [BASE, AMINE, LIGAND, METAL, ARYL_HALIDE]

  /** The test the summary-text classifier applies to a lower-cased name for
      each category of `TEXT_PRIORITY`. */
  predicate TextTest(cat: string, nm: string) {
    if cat == BASE then ContainsAny(nm, BASE_KEYWORDS)
    else if cat == AMINE then ContainsAny(nm, AMINE_KEYWORDS)
    else if cat == LIGAND then ContainsAny(nm, LIGAND_KEYWORDS)
    else if cat == METAL then ContainsAny(nm, METAL_KEYWORDS)
    else if cat == ARYL_HALIDE then ContainsAny(nm, ARYL_HALIDE_KEYWORDS) || HalogenAndCarbon(nm)
    else false
  }

  /** `_classify_from_text`: an explicit label gives its category outright; a
      reagent or reactant label gives the first keyword family that matches
      the name; any other label gives nothing. */
  function ClassifyFromText(name: string, lbl: string): (r: Option<string>)
    ensures r.Some? ==> r.value in TEXT_PRIORITY + [SOLVENT]
  {
    var lv := Lower(lbl);
    var nm := Lower(name);
    if lv == "solvent" then Some(SOLVENT)
    else if lv == "ligand" then Some(LIGAND)
    else if lv == "metal" then Some(METAL)
    else if lv == "base" then Some(BASE)
    else if lv == "reagent" || lv == "reactant" then
      if ContainsAny(nm, BASE_KEYWORDS) then Some(BASE)
      else if ContainsAny(nm, AMINE_KEYWORDS) then Some(AMINE)
      else if ContainsAny(nm, LIGAND_KEYWORDS) then Some(LIGAND)
      else if ContainsAny(nm, METAL_KEYWORDS) then Some(METAL)
      else if ContainsAny(nm, ARYL_HALIDE_KEYWORDS) || HalogenAndCarbon(nm) then Some(ARYL_HALIDE)
      else None
    else None
  }

  /** The explicit category a lower-case label names, if it names one. */
  function ExplicitCategory(lv: string): Option<string> {
    if lv == "solvent" then Some(SOLVENT)
    else if lv == "ligand" then Some(LIGAND)
    else if lv == "metal" then Some(METAL)
    else if lv == "base" then Some(BASE)
    else None
  }

  /** An explicit label decides the category whatever the name is. */
  lemma ClassifyExplicitLabel(name: string, lbl: string)
    requires ExplicitCategory(Lower(lbl)).Some?
    ensures ClassifyFromText(name, lbl) == ExplicitCategory(Lower(lbl))
    ensures forall other :: ClassifyFromText(other, lbl) == ClassifyFromText(name, lbl)
  {
  }

  /** For a reagent or reactant label the result is the first category of
      `TEXT_PRIORITY` whose test the lower-cased name passes, and nothing when
      it passes none. */
  lemma {:induction false} ClassifyReagentFirstMatch(name: string, lbl: string)
    requires Lower(lbl) == "reagent" || Lower(lbl) == "reactant"
    ensures var r := ClassifyFromText(name, lbl);
            (r.None? <==> forall k :: 0 <= k < |TEXT_PRIORITY| ==> !TextTest(TEXT_PRIORITY[k], Lower(name)))
            && (r.Some? ==> exists k :: 0 <= k < |TEXT_PRIORITY| && TEXT_PRIORITY[k] == r.value
                                        && TextTest(r.value, Lower(name))
                                        && forall j :: 0 <= j < k ==> !TextTest(TEXT_PRIORITY[j], Lower(name)))
  {
    var nm := Lower(name);
    var p := TEXT_PRIORITY;
    assert TextTest(p[0], nm) == ContainsAny(nm, BASE_KEYWORDS);
    assert TextTest(p[1], nm) == ContainsAny(nm, AMINE_KEYWORDS);
    assert TextTest(p[2], nm) == ContainsAny(nm, LIGAND_KEYWORDS);
    assert TextTest(p[3], nm) == ContainsAny(nm, METAL_KEYWORDS);
    assert TextTest(p[4], nm) == (ContainsAny(nm, ARYL_HALIDE_KEYWORDS) || HalogenAndCarbon(nm));
    var k: int := if TextTest(p[0], nm) then 0 else if TextTest(p[1], nm) then 1
                  else if TextTest(p[2], nm) then 2 else if TextTest(p[3], nm) then 3
                  else if TextTest(p[4], nm) then 4 else 5;
    assert forall j :: 0 <= j < k ==> !TextTest(p[j], nm);
    if k < 5 {
      assert ClassifyFromText(name, lbl) == Some(p[k]);
    } else {
      assert ClassifyFromText(name, lbl) == None;
    }
  }

  /** A label outside the six role words gives no category, and a category
      only ever comes from a role-word label. */
  lemma ClassifyNeedsRoleWord(name: string, lbl: string)
    ensures ClassifyFromText(name, lbl).Some? ==> IsRoleWord(Lower(lbl))
  {
  }

  /** Where both paths test the same family, the summary-text choice is one
      that the structured path's union would also contain. */
  lemma ClassifyAgreesWithIdentTests(name: string, lbl: string)
    requires Lower(lbl) == "reagent" || Lower(lbl) == "reactant"
    ensures ClassifyFromText(name, lbl) == Some(BASE) ==> IsBaseIdent(name)
    ensures ClassifyFromText(name, lbl) == Some(AMINE) ==> IsAmineIdent(name)
    ensures ClassifyFromText(name, lbl) == Some(LIGAND) ==> IsLigandIdent(name)
    ensures ClassifyFromText(name, lbl) == Some(METAL) ==> IsMetalIdent(name)
  {
  }

  /** A summary table row: the stripped text of its cells, left to right, and
      of its first link when it has one. */
  datatype Row = Row(cells: seq<string>, link: Option<string>)

  /** The rightmost cell whose lower-case form is a role word. */
  function RowLabel(cells: seq<string>): Option<string>
    decreases |cells|
  {
    if cells == [] then None
    else
      var last := cells[|cells| - 1];
      if IsRoleWord(Lower(last)) then Some(last) else RowLabel(cells[..|cells| - 1])
  }

  /** No label exactly when no cell is a role word; otherwise the label is a
      role-word cell with no role-word cell to its right. */
  lemma {:induction false} RowLabelRightmost(cells: seq<string>)
    ensures RowLabel(cells).None? <==> forall i :: 0 <= i < |cells| ==> !IsRoleWord(Lower(cells[i]))
    ensures RowLabel(cells).Some? ==>
      exists i :: 0 <= i < |cells| && cells[i] == RowLabel(cells).value && IsRoleWord(Lower(cells[i]))
                  && forall j :: i < j < |cells| ==> !IsRoleWord(Lower(cells[j]))
    decreases |cells|
  {
    if cells != [] {
      var n := |cells| - 1;
      var init := cells[..n];
      if !IsRoleWord(Lower(cells[n])) {
        RowLabelRightmost(init);
        assert RowLabel(cells) == RowLabel(init);
        if RowLabel(init).None? {
          forall i | 0 <= i < |cells|
            ensures !IsRoleWord(Lower(cells[i]))
          {
            if i < n {
              assert init[i] == cells[i];
            }
          }
        } else {
          var i :| 0 <= i < |init| && init[i] == RowLabel(init).value && IsRoleWord(Lower(init[i]))
                   && forall j :: i < j < |init| ==> !IsRoleWord(Lower(init[j]));
          forall j | i < j < |cells|
            ensures !IsRoleWord(Lower(cells[j]))
          {
            if j < n {
              assert init[j] == cells[j];
            }
          }
          assert cells[i] == init[i];
        }
      }
    }
  }

  /** The row's name: the first candidate among all cells but the last (the
      last cell is dropped whether or not it is the label), or else the text
      of the row's first link. */
  function RowName(row: Row): Option<string>
    requires row.cells != []
  {
    var picked := PickNameFromCells(row.cells[..|row.cells| - 1]);
    if picked.Some? then picked else row.link
  }

  /** The (category, name) pair a row contributes, if any: the label is the
      rightmost role word, and the row counts only when the label yields a
      category for the name and the name is non-empty. */
  function RowEvidence(row: Row): Option<(string, string)> {
    if row.cells == [] then None
    else
      match RowLabel(row.cells)
      case None => None
      case Some(lbl) =>
        var name := RowName(row);
        var text := if name.Some? then name.value else "";
        match ClassifyFromText(text, lbl)
        case None => None
        case Some(cat) => if text != "" then Some((cat, text)) else None
  }

  /** The pairs of the tabular pass, row by row. */
  function RowPairs(rows: seq<Row>): seq<(string, string)>
    decreases |rows|
  {
    if rows == [] then []
    else
      var init := RowPairs(rows[..|rows| - 1]);
      match RowEvidence(rows[|rows| - 1])
      case None => init
      case Some(p) => init + [p]
  }

  /** A row without a role-word cell, or without cells, contributes nothing. */
  lemma RowWithoutLabelSkipped(row: Row)
    requires forall i :: 0 <= i < |row.cells| ==> !IsRoleWord(Lower(row.cells[i]))
    ensures RowEvidence(row) == None
  {
    RowLabelRightmost(row.cells);
  }

  /** What a counted row is made of: a non-empty name that is either a name
      candidate among all cells but the last (the first one) or, when there is
      none, the link text; and the category that name gets under the row's
      rightmost role word. */
  lemma RowEvidenceShape(row: Row, cat: string, name: string)
    requires RowEvidence(row) == Some((cat, name))
    ensures name != ""
    ensures row.cells != [] && RowLabel(row.cells).Some?
    ensures ClassifyFromText(name, RowLabel(row.cells).value) == Some(cat)
    ensures var front := row.cells[..|row.cells| - 1];
            (exists i :: 0 <= i < |front| && front[i] == name && IsNameCandidate(name)
                         && forall j :: 0 <= j < i ==> !IsNameCandidate(front[j]))
            || ((forall i :: 0 <= i < |front| ==> !IsNameCandidate(front[i])) && row.link == Some(name))
  {
    var lbl := RowLabel(row.cells).value;
    var picked := PickNameFromCells(row.cells[..|row.cells| - 1]);
    assert RowName(row) == Some(name);
    assert picked.Some? ==> picked.value == name;
  }

  /** Every row adds at most one pair, so at most one count. */
  lemma {:induction false} RowPairsAtMostOnePerRow(rows: seq<Row>)
    ensures |RowPairs(rows)| <= |rows|
    decreases |rows|
  {
    if rows != [] {
      RowPairsAtMostOnePerRow(rows[..|rows| - 1]);
    }
  }

  /** Every role word starts with one of "s", "r", "l", "m" or "b". */
  lemma RoleWordInitial(w: string)
    requires IsRoleWord(w)
    ensures w != [] && w[0] in "srlmb"
  {
  }

  lemma NotRoleWordByInitial(w: string)
    requires w != [] && LowerChar(w[0]) !in "srlmb"
    ensures !IsRoleWord(Lower(w))
  {
    assert Lower(w)[0] == LowerChar(w[0]);
    if IsRoleWord(Lower(w)) {
      RoleWordInitial(Lower(w));
    }
  }

  /** A catalyst row: its percentage cell would be skipped as a name, but
      "Catalyst" is not a role word, so the label search finds nothing and the
      row is skipped as a whole. */
  lemma CatalystLabelRowSkipped()
    ensures RowEvidence(Row(["50%", "Pd(OAc)2", "Catalyst"], None)) == None
  {
    var cells := ["50%", "Pd(OAc)2", "Catalyst"];
    forall i | 0 <= i < |cells|
      ensures !IsRoleWord(Lower(cells[i]))
    {
      NotRoleWordByInitial(cells[i]);
    }
    RowWithoutLabelSkipped(Row(cells, None));
  }

  /** `[0-9 .%]+` must match the whole cell: "1.0 eq" has letters. */
  lemma AmountCellNotNumeric()
    ensures !IsNumericLike("1.0 eq")
  {
    var v := "1.0 eq";
    assert v[4] == 'e';
  }

  /** So in a row "1.0 eq | K2CO3 | Reagent" the amount cell, not the
      reagent, is taken as the row's name, and since that name passes none of
      the reagent tests the row adds nothing: "K2CO3" is not counted. */
  lemma AmountCellIsTakenAsName()
    ensures PickNameFromCells(["1.0 eq", "K2CO3"]) == Some("1.0 eq")
    ensures RowName(Row(["1.0 eq", "K2CO3", "Reagent"], None)) == Some("1.0 eq")
    ensures RowEvidence(Row(["1.0 eq", "K2CO3", "Reagent"], None)) == None
  {
    var nm := "1.0 eq";
    AmountCellNotNumeric();
    assert Lower(nm) == nm by {
      LowerOfLowerCase(nm);
    }
    assert !IsRoleWord(nm) by {
      if IsRoleWord(nm) { RoleWordInitial(nm); }
    }
    assert IsNameCandidate(nm);
    var cells := ["1.0 eq", "K2CO3", "Reagent"];
    assert cells[..2] == ["1.0 eq", "K2CO3"];
    ReagentIsRoleWord();
    assert RowLabel(cells) == Some("Reagent");
    AmountNameUnclassified();
  }

  lemma ReagentIsRoleWord()
    ensures Lower("Reagent") == "reagent" && IsRoleWord(Lower("Reagent"))
  {
  }

  /** "1.0 eq" holds no keyword of any family and no "c", so a reagent label
      gives it no category. */
  lemma AmountNameUnclassified()
    ensures ClassifyFromText("1.0 eq", "Reagent") == None
  {
    var nm := "1.0 eq";
    assert Lower(nm) == nm by {
      LowerOfLowerCase(nm);
    }
    ReagentIsRoleWord();
    AmountNameHasNoKeyword();
    NotContainedByInitial(nm, "c");
  }

  lemma AmountNameHasNoKeyword()
    ensures !ContainsAny("1.0 eq", BASE_KEYWORDS) && !ContainsAny("1.0 eq", AMINE_KEYWORDS)
    ensures !ContainsAny("1.0 eq", LIGAND_KEYWORDS) && !ContainsAny("1.0 eq", METAL_KEYWORDS)
    ensures !ContainsAny("1.0 eq", ARYL_HALIDE_KEYWORDS)
  {
    var nm := "1.0 eq";
    NoKeywordOf(nm, BASE_KEYWORDS);
    NoKeywordOf(nm, AMINE_KEYWORDS);
    NoKeywordOf(nm, LIGAND_KEYWORDS);
    NoKeywordOf(nm, METAL_KEYWORDS);
    NoKeywordOf(nm, ARYL_HALIDE_KEYWORDS);
  }

  lemma NotContainedByInitial(s: string, k: string)
    requires k != [] && k[0] !in s
    ensures !Contains(s, k)
  {
  }

  lemma NoKeywordOf(s: string, keys: seq<string>)
    requires forall j :: 0 <= j < |keys| ==> keys[j] != [] && keys[j][0] !in s
    ensures !ContainsAny(s, keys)
  {
    forall j | 0 <= j < |keys|
      ensures !Contains(s, keys[j])
    {
      NotContainedByInitial(s, keys[j]);
    }
  }

  datatype TextLabel = BaseLabel | SolventLabel | LigandLabel | CatalystLabel

  /** A catalyst line is counted as a metal. */
  function LabelCategory(l: TextLabel): string {
    match l
    case BaseLabel => BASE
    case SolventLabel => SOLVENT
    case LigandLabel => LIGAND
    case CatalystLabel => METAL
  }

  /** One `Label : remainder` capture of the visible text. */
  datatype TextMatch = TextMatch(tag: TextLabel, remainder: string)

  const PART_SEPARATORS: set<char> := {';', ','}

  /** `[p.strip() for p in pieces if p.strip()]`. */
  function StripNonEmpty(pieces: seq<string>): (parts: seq<string>)
    ensures |parts| <= |pieces|
    ensures forall i :: 0 <= i < |parts| ==> parts[i] != [] && IsStripped(parts[i])
    decreases |pieces|
  {
    if pieces == [] then []
    else
      var p := Strip(pieces[0]);
      (if p != [] then [p] else []) + StripNonEmpty(pieces[1..])
  }

  /** The parts a capture splits into at ';' and ',': each one non-empty,
      without separators and stripped. The source's `\s*` after a separator
      is not modelled: `\s` and `strip()` use the same whitespace set, so the
      strip that follows removes whatever `\s*` would have consumed. */
  function SplitParts(raw: string): (parts: seq<string>)
    ensures |parts| <= |Separators(raw, PART_SEPARATORS)| + 1
    ensures forall i :: 0 <= i < |parts| ==> parts[i] != [] && IsStripped(parts[i]) && NoSep(parts[i], PART_SEPARATORS)
  {
    var pieces := Split(raw, PART_SEPARATORS);
    SplitJoin(raw, PART_SEPARATORS);
    StripKeepsNoSep(pieces);
    StripNonEmpty(pieces)
  }

  lemma {:induction false} StripKeepsNoSep(pieces: seq<string>)
    requires forall i :: 0 <= i < |pieces| ==> NoSep(pieces[i], PART_SEPARATORS)
    ensures forall i :: 0 <= i < |StripNonEmpty(pieces)| ==> NoSep(StripNonEmpty(pieces)[i], PART_SEPARATORS)
    decreases |pieces|
  {
    if pieces != [] {
      StripKeepsNoSep(pieces[1..]);
      var p := Strip(pieces[0]);
      var i, j :| 0 <= i <= j <= |pieces[0]| && p == pieces[0][i..j];
      assert NoSep(p, PART_SEPARATORS);
    }
  }

  /** Stripping works piece by piece: the parts of two runs of pieces are
      the parts of the first run followed by those of the second ... */
  lemma {:induction false} StripNonEmptyAppend(a: seq<string>, b: seq<string>)
    ensures StripNonEmpty(a + b) == StripNonEmpty(a) + StripNonEmpty(b)
    decreases |a|
  {
    if a == [] {
      assert a + b == b;
    } else {
      var p := Strip(a[0]);
      var head := if p != [] then [p] else [];
      assert (a + b)[0] == a[0];
      assert (a + b)[1..] == a[1..] + b;
      assert StripNonEmpty(a + b) == head + StripNonEmpty(a[1..] + b);
      assert StripNonEmpty(a) == head + StripNonEmpty(a[1..]);
      StripNonEmptyAppend(a[1..], b);
      AppendAssoc(head, StripNonEmpty(a[1..]), StripNonEmpty(b));
    }
  }

  /** ... and a single piece gives its stripped text unless that is blank. */
  lemma StripNonEmptyOne(p: string)
    ensures StripNonEmpty([p]) == if Strip(p) != [] then [Strip(p)] else []
  {
    assert [p][1..] == [];
  }

  /** Pieces that each strip to a non-blank part give exactly those parts. */
  lemma {:induction false} StripNonEmptyOfPieces(pieces: seq<string>, parts: seq<string>)
    requires |pieces| == |parts|
    requires forall i :: 0 <= i < |parts| ==> parts[i] != [] && Strip(pieces[i]) == parts[i]
    ensures StripNonEmpty(pieces) == parts
    decreases |parts|
  {
    if parts != [] {
      StripNonEmptyOfPieces(pieces[1..], parts[1..]);
      assert [parts[0]] + parts[1..] == parts;
    }
  }

  /** Round trip: non-empty stripped parts without separators, joined with
      any separators, split back into exactly those parts. */
  lemma SplitPartsOfJoin(parts: seq<string>, between: string)
    requires |parts| == |between| + 1
    requires forall i :: 0 <= i < |parts| ==> parts[i] != [] && IsStripped(parts[i]) && NoSep(parts[i], PART_SEPARATORS)
    requires forall i :: 0 <= i < |between| ==> between[i] in PART_SEPARATORS
    ensures SplitParts(Join(parts, between)) == parts
  {
    SplitOfJoin(parts, between, PART_SEPARATORS);
    forall i | 0 <= i < |parts|
      ensures Strip(parts[i]) == parts[i]
    {
      StripOfStripped(parts[i]);
    }
    StripNonEmptyOfPieces(parts, parts);
  }

  /** Each part with whitespace before and after it. */
  function Padded(parts: seq<string>, before: seq<string>, after: seq<string>): (ps: seq<string>)
    requires |before| == |parts| && |after| == |parts|
    ensures |ps| == |parts|
    ensures forall i :: 0 <= i < |ps| ==> ps[i] == before[i] + parts[i] + after[i]
    decreases |parts|
  {
    if parts == [] then []
    else [before[0] + parts[0] + after[0]] + Padded(parts[1..], before[1..], after[1..])
  }

  lemma PaddedNoSep(before: string, p: string, after: string)
    requires AllSpace(before) && AllSpace(after) && NoSep(p, PART_SEPARATORS)
    ensures NoSep(before + p + after, PART_SEPARATORS)
  {
    var w := before + p + after;
    forall k | 0 <= k < |w|
      ensures w[k] !in PART_SEPARATORS
    {
      if k < |before| {
        assert w[k] == before[k];
      } else if k < |before| + |p| {
        assert w[k] == p[k - |before|];
      } else {
        assert w[k] == after[k - |before| - |p|];
      }
    }
  }

  /** The same round trip with whitespace on either side of every part, as
      after a separator: the whitespace is stripped away. */
  lemma SplitPartsOfPaddedJoin(parts: seq<string>, before: seq<string>, after: seq<string>, between: string)
    requires |parts| == |between| + 1 && |before| == |parts| && |after| == |parts|
    requires forall i :: 0 <= i < |parts| ==> parts[i] != [] && IsStripped(parts[i]) && NoSep(parts[i], PART_SEPARATORS)
    requires forall i :: 0 <= i < |parts| ==> AllSpace(before[i]) && AllSpace(after[i])
    requires forall i :: 0 <= i < |between| ==> between[i] in PART_SEPARATORS
    ensures SplitParts(Join(Padded(parts, before, after), between)) == parts
  {
    var pieces := Padded(parts, before, after);
    forall i | 0 <= i < |pieces|
      ensures NoSep(pieces[i], PART_SEPARATORS) && Strip(pieces[i]) == parts[i]
    {
      PaddedNoSep(before[i], parts[i], after[i]);
      StripPadded(before[i], parts[i], after[i]);
    }
    SplitOfJoin(pieces, between, PART_SEPARATORS);
    StripNonEmptyOfPieces(pieces, parts);
  }

  /** A capture such as "K2CO3, Cs2CO3" gives the two names, the blank after
      the comma stripped. */
  lemma SplitPartsOfCapture()
    ensures SplitParts("K2CO3, Cs2CO3") == ["K2CO3", "Cs2CO3"]
  {
    var parts := ["K2CO3", "Cs2CO3"];
    var before := ["", " "];
    var after := ["", ""];
    var padded := Padded(parts, before, after);
    assert padded[0] == "K2CO3" && padded[1] == " Cs2CO3";
    assert padded == ["K2CO3", " Cs2CO3"];
    assert Join(padded, ",") == "K2CO3, Cs2CO3";
    SplitPartsOfPaddedJoin(parts, before, after, ",");
  }

  /** `cat` paired with every part, in order. */
  function Tagged(cat: string, parts: seq<string>): (ps: seq<(string, string)>)
  {
    seq(|parts|, i requires 0 <= i < |parts| => (cat, parts[i]))
  }

  /** The pairs one capture contributes: its category with every part. */
  function MatchPairs(m: TextMatch): seq<(string, string)> {
    Tagged(LabelCategory(m.tag), SplitParts(m.remainder))
  }

  /** The pairs of the free-text pass, capture by capture. */
  function TextPairs(matches: seq<TextMatch>): seq<(string, string)>
    decreases |matches|
  {
    if matches == [] then []
    else TextPairs(matches[..|matches| - 1]) + MatchPairs(matches[|matches| - 1])
  }

  /** The label search of the tabular pass: cells are scanned from the right
      and the scan stops at the first role word. */
  method FindRowLabel(cells: seq<string>) returns (lbl: Option<string>)
    ensures lbl == RowLabel(cells)
  {
    lbl := None;
    var k := |cells|;
    assert cells[..k] == cells;
    while k > 0 && lbl.None?
      invariant 0 <= k <= |cells|
      invariant lbl.None? ==> RowLabel(cells[..k]) == RowLabel(cells)
      invariant lbl.Some? ==> lbl == RowLabel(cells)
    {
      assert cells[..k][..k - 1] == cells[..k - 1];
      if IsRoleWord(Lower(cells[k - 1])) {
        lbl := Some(cells[k - 1]);
      }
      k := k - 1;
    }
    assert cells[..|cells|] == cells;
  }

  /** One row of the tabular pass: what it adds to the table, if anything. */
  method RowContribution(row: Row) returns (e: Option<(string, string)>)
    ensures e == RowEvidence(row)
  {
    e := None;
    var cells := row.cells;
    if cells == [] {
      return;
    }
    var lbl := FindRowLabel(cells);
    if lbl.None? {
      return;
    }
    var name := PickNameFromCells(cells[..|cells| - 1]);
    if name.None? {
      name := row.link;
    }
    assert name == RowName(row);
    var text := if name.Some? then name.value else "";
    var cat := ClassifyFromText(text, lbl.value);
    if cat.Some? && text != "" {
      e := Some((cat.value, text));
    }
  }

  /** The tabular pass: one bump per row that yields a pair. */
  method RowPass(rows: seq<Row>) returns (out: Counts)
    ensures out == Tally(RowPairs(rows))
  {
    out := map[];
    var i := 0;
    while i < |rows|
      invariant 0 <= i <= |rows|
      invariant out == Tally(RowPairs(rows[..i]))
    {
      assert rows[..i + 1][..i] == rows[..i];
      var e := RowContribution(rows[i]);
      if e.Some? {
        TallySnoc(RowPairs(rows[..i]), e.value);
        out := Bump(out, e.value.0, e.value.1);
      }
      i := i + 1;
    }
    assert rows[..|rows|] == rows;
  }

  lemma TextPairsStep(ps: seq<(string, string)>, ms: seq<TextMatch>, i: nat)
    requires i < |ms|
    ensures ps + TextPairs(ms[..i + 1]) == ps + TextPairs(ms[..i]) + MatchPairs(ms[i])
  {
    assert ms[..i + 1][..i] == ms[..i];
  }

  lemma TaggedStep(done: seq<(string, string)>, cat: string, parts: seq<string>, j: nat)
    requires j < |parts|
    ensures done + Tagged(cat, parts)[..j + 1] == (done + Tagged(cat, parts)[..j]) + [(cat, parts[j])]
  {
    var pairs := Tagged(cat, parts);
    assert pairs[..j + 1] == pairs[..j] + [(cat, parts[j])];
  }

  /** The inner loop of the free-text pass: `out[cat][p] += 1` for every
      part `p`, onto the table `out` that already tallies `done`. */
  method BumpParts(out: Counts, ghost done: seq<(string, string)>, cat: string, parts: seq<string>) returns (out': Counts)
    requires out == Tally(done)
    ensures out' == Tally(done + Tagged(cat, parts))
  {
    out' := out;
    ghost var pairs := Tagged(cat, parts);
    assert done + pairs[..0] == done;
    var j := 0;
    while j < |parts|
      invariant 0 <= j <= |parts|
      invariant out' == Tally(done + pairs[..j])
    {
      TaggedStep(done, cat, parts, j);
      TallySnoc(done + pairs[..j], (cat, parts[j]));
      out' := Bump(out', cat, parts[j]);
      j := j + 1;
    }
    assert pairs[..|parts|] == pairs;
  }

  /** The free-text pass, onto the table `out` that already tallies `done`. */
  method TextPass(out: Counts, ghost done: seq<(string, string)>, matches: seq<TextMatch>) returns (out': Counts)
    requires out == Tally(done)
    ensures out' == Tally(done + TextPairs(matches))
  {
    out' := out;
    var m := 0;
    assert done + TextPairs(matches[..0]) == done;
    while m < |matches|
      invariant 0 <= m <= |matches|
      invariant out' == Tally(done + TextPairs(matches[..m]))
    {
      var parts := SplitParts(matches[m].remainder);
      out' := BumpParts(out', done + TextPairs(matches[..m]), LabelCategory(matches[m].tag), parts);
      TextPairsStep(done, matches, m);
      m := m + 1;
    }
    assert matches[..|matches|] == matches;
  }

  /** `extract_components` over the parsed summary: the tabular pass, then the
      free-text pass, both bumping the same table. Every count is the number
      of rows that yielded that pair plus the number of captured parts that
      did: the two passes add up and nothing is deduplicated. */
  method ExtractComponents(rows: seq<Row>, matches: seq<TextMatch>) returns (out: Counts)
    ensures out == Tally(RowPairs(rows) + TextPairs(matches))
    ensures forall c, n :: CountOf(out, c, n) == multiset(RowPairs(rows))[(c, n)] + multiset(TextPairs(matches))[(c, n)]
    ensures Positive(out)
  {
    out := RowPass(rows);
    out := TextPass(out, RowPairs(rows), matches);
    TallyCounts(RowPairs(rows) + TextPairs(matches));
    TallyKeys(RowPairs(rows) + TextPairs(matches));
  }
}
