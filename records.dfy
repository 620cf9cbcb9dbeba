/** The structured-record path of `aggregate_dataset`: a decoded reaction is a
    sequence of input slots, each holding components with a role name and
    typed identifiers. Every identifier yields zero or more (category,
    evidence) entries: the slot's own category when its key names one,
    otherwise the categories its role and value select. */
module Records {
  import opened Wrappers
  import opened Strings
  import opened Keywords
  import opened Identifiers
  import opened HtmlExtract

  /** One compound identifier: its type name (such as "SMILES") and value. */
  datatype Identifier = Identifier(kind: string, value: string)

  /** One component of an input: its reaction-role name and its identifiers. */
  datatype Component = Component(role: string, identifiers: seq<Identifier>)

  /** One entry of the reaction's `inputs` map: the key and its components. */
  datatype Slot = Slot(key: string, components: seq<Component>)

  /** A decoded reaction: its input slots in iteration order. */
  datatype Reaction = Reaction(inputs: seq<Slot>)

  /** One item of the `raw` lists. */
  datatype Evidence = Evidence(reactionId: string, inputKey: string, role: string, identifierType: string, value: string)

  // Role names as the role enumeration spells them.
  const SOLVENT_ROLE: string := "SOLVENT"
  const CATALYST_ROLE: string := "CATALYST"
  const REAGENT_ROLE: string := "REAGENT"
  const REACTANT_ROLE: string := "REACTANT"

  predicate IsDigit(c: char) {
    '0' <= c <= '9'
  }

  /** One `m\d+` segment, the `m` in either case. */
  predicate MSegment(p: string) {
    |p| >= 2 && (p[0] == 'm' || p[0] == 'M') && forall i :: 1 <= i < |p| ==> IsDigit(p[i])
  }

  /** `re.fullmatch(r"(?i)m\d+(?:_m\d+)*", k)`: the key is one or more
      `m<digits>` segments joined by underscores. */
  predicate StructuralKey(k: string) {
    var ps := Split(k, {'_'});
    forall i :: 0 <= i < |ps| ==> MSegment(ps[i])
  }

  /** The slot category: the map entry of the lower-cased key, failing that
      the key itself when it is structural, else none. */
  function SlotCategory(key: string): (r: Option<string>)
    ensures Lower(key) in INPUT_KEY_CATEGORY ==> r == Some(INPUT_KEY_CATEGORY[Lower(key)])
    ensures Lower(key) !in INPUT_KEY_CATEGORY ==> (r.Some? <==> StructuralKey(key))
    ensures Lower(key) !in INPUT_KEY_CATEGORY && r.Some? ==> r.value == key
  {
    var lk := Lower(key);
    if lk in INPUT_KEY_CATEGORY then Some(INPUT_KEY_CATEGORY[lk])
    else if StructuralKey(key) then Some(key)
    else None
  }

  /** The categories the role fallback gives an identifier value, in the
      order the source appends them. */
  function RoleCategories(role: string, v: string): seq<string> {
    if role == SOLVENT_ROLE then [SOLVENT]
    else if role == CATALYST_ROLE then
      (if IsMetalIdent(v) then [METAL] else []) + (if IsLigandIdent(v) then [LIGAND] else [])
    else if role == REAGENT_ROLE || role == REACTANT_ROLE then
      (if IsBaseIdent(v) then [BASE] else [])
      + (if IsAmineIdent(v) then [AMINE] else [])
      + (if IsArylHalideIdent(v) then [ARYL_HALIDE] else [])
    else []
  }

  /** The same categories, as the three independent tests of a reagent or
      reactant build them. */
  lemma ReagentCategories(role: string, v: string, cats: seq<string>)
    requires role == REAGENT_ROLE || role == REACTANT_ROLE
    requires cats == (if IsBaseIdent(v) then [BASE] else []) + (if IsAmineIdent(v) then [AMINE] else [])
                    + (if IsArylHalideIdent(v) then [ARYL_HALIDE] else [])
    ensures cats == RoleCategories(role, v)
  {
  }

  /** ... and the two independent tests of a catalyst. */
  lemma CatalystCategories(v: string, cats: seq<string>)
    requires cats == (if IsMetalIdent(v) then [METAL] else []) + (if IsLigandIdent(v) then [LIGAND] else [])
    ensures cats == RoleCategories(CATALYST_ROLE, v)
  {
  }

  /** The categories one identifier is filed under. */
  function IdentCategories(slotCat: Option<string>, role: string, v: string): seq<string> {
    if slotCat.Some? then [slotCat.value] else RoleCategories(role, v)
  }

  /** One entry per category, each with the same evidence record. */
  function Filed(cats: seq<string>, ev: Evidence): (r: seq<(string, Evidence)>)
  {
    seq(|cats|, i requires 0 <= i < |cats| => (cats[i], ev))
  }

  /** Filing under one more category, when its test passes, adds one entry
      at the end. */
  lemma FiledStep(base: seq<(string, Evidence)>, cats: seq<string>, c: string, b: bool, ev: Evidence)
    ensures base + Filed(cats + (if b then [c] else []), ev)
            == if b then base + Filed(cats, ev) + [(c, ev)] else base + Filed(cats, ev)
  {
    if !b {
      assert cats + [] == cats;
    }
  }

  /** The entries one identifier adds. */
  function IdentEntries(rid: string, key: string, slotCat: Option<string>, role: string, id: Identifier): seq<(string, Evidence)> {
    Filed(IdentCategories(slotCat, role, id.value), Evidence(rid, key, role, id.kind, id.value))
  }


  /** The entries of one component, identifier by identifier. */
  function ComponentEntries(rid: string, key: string, slotCat: Option<string>, comp: Component, n: nat): seq<(string, Evidence)>
    requires n <= |comp.identifiers|
  {
    if n == 0 then []
    else ComponentEntries(rid, key, slotCat, comp, n - 1) + IdentEntries(rid, key, slotCat, comp.role, comp.identifiers[n - 1])
  }

  /** The entries of the first `n` components of a slot. */
  function SlotEntries(rid: string, slot: Slot, n: nat): seq<(string, Evidence)>
    requires n <= |slot.components|
  {
    if n == 0 then []
    else
      var comp := slot.components[n - 1];
      SlotEntries(rid, slot, n - 1) + ComponentEntries(rid, slot.key, SlotCategory(slot.key), comp, |comp.identifiers|)
  }

  /** The entries of the first `n` slots of a reaction. */
  function ReactionEntries(rid: string, rxn: Reaction, n: nat): seq<(string, Evidence)>
    requires n <= |rxn.inputs|
  {
    if n == 0 then []
    else
      var slot := rxn.inputs[n - 1];
      ReactionEntries(rid, rxn, n - 1) + SlotEntries(rid, slot, |slot.components|)
  }

  /** One more identifier, component or slot appends its entries after those
      already taken, whatever came before. */
  lemma ComponentStep(base: seq<(string, Evidence)>, rid: string, key: string, slotCat: Option<string>, comp: Component, n: nat)
    requires n < |comp.identifiers|
    ensures base + ComponentEntries(rid, key, slotCat, comp, n + 1)
            == base + ComponentEntries(rid, key, slotCat, comp, n) + IdentEntries(rid, key, slotCat, comp.role, comp.identifiers[n])
  {
    AppendAssoc(base, ComponentEntries(rid, key, slotCat, comp, n), IdentEntries(rid, key, slotCat, comp.role, comp.identifiers[n]));
  }

  lemma SlotStep(base: seq<(string, Evidence)>, rid: string, slot: Slot, n: nat)
    requires n < |slot.components|
    ensures var comp := slot.components[n];
            base + SlotEntries(rid, slot, n + 1)
            == base + SlotEntries(rid, slot, n) + ComponentEntries(rid, slot.key, SlotCategory(slot.key), comp, |comp.identifiers|)
  {
    var comp := slot.components[n];
    AppendAssoc(base, SlotEntries(rid, slot, n), ComponentEntries(rid, slot.key, SlotCategory(slot.key), comp, |comp.identifiers|));
  }

  lemma ReactionStep(base: seq<(string, Evidence)>, rid: string, rxn: Reaction, n: nat)
    requires n < |rxn.inputs|
    ensures var slot := rxn.inputs[n];
            base + ReactionEntries(rid, rxn, n + 1) == base + ReactionEntries(rid, rxn, n) + SlotEntries(rid, slot, |slot.components|)
  {
    var slot := rxn.inputs[n];
    AppendAssoc(base, ReactionEntries(rid, rxn, n), SlotEntries(rid, slot, |slot.components|));
  }

  /** The entries of a whole reaction. */
  function Entries(rid: string, rxn: Reaction): seq<(string, Evidence)> {
    ReactionEntries(rid, rxn, |rxn.inputs|)
  }

  /** A slot with a category files every identifier of every component
      exactly once, under that category, whatever the component's role. */
  lemma {:induction false} SlotKeyedEntries(rid: string, key: string, c: string, comp: Component, n: nat)
    requires n <= |comp.identifiers|
    ensures var r := ComponentEntries(rid, key, Some(c), comp, n);
            |r| == n
            && forall i :: 0 <= i < n ==>
                 r[i] == (c, Evidence(rid, key, comp.role, comp.identifiers[i].kind, comp.identifiers[i].value))
  {
    if n > 0 {
      SlotKeyedEntries(rid, key, c, comp, n - 1);
    }
  }

  /** Without a slot category: a solvent is always a solvent; a catalyst is
      a metal and a ligand, each when its own test passes; a reagent or
      reactant is a base, an amine and an aryl halide, each when its own
      test passes; any other role gives nothing. */
  lemma RoleCategoriesMembership(role: string, v: string)
    ensures forall c :: c in RoleCategories(role, v) <==>
      (role == SOLVENT_ROLE && c == SOLVENT)
      || (role == CATALYST_ROLE && ((c == METAL && IsMetalIdent(v)) || (c == LIGAND && IsLigandIdent(v))))
      || ((role == REAGENT_ROLE || role == REACTANT_ROLE)
          && ((c == BASE && IsBaseIdent(v)) || (c == AMINE && IsAmineIdent(v)) || (c == ARYL_HALIDE && IsArylHalideIdent(v))))
  {
  }

  /** ... and never twice under the same category, so at most three times. */
  lemma RoleCategoriesDistinct(role: string, v: string)
    ensures var r := RoleCategories(role, v);
            |r| <= 3 && forall i, j :: 0 <= i < j < |r| ==> r[i] != r[j]
  {
  }

  /** Every entry one identifier adds carries its evidence record, under one
      of the categories selected for it. */
  lemma IdentEntriesShape(rid: string, key: string, slotCat: Option<string>, role: string, id: Identifier)
    ensures forall e :: e in IdentEntries(rid, key, slotCat, role, id) ==>
      e.1 == Evidence(rid, key, role, id.kind, id.value) && e.0 in IdentCategories(slotCat, role, id.value)
  {
    var r := IdentEntries(rid, key, slotCat, role, id);
    forall e | e in r
      ensures e.1 == Evidence(rid, key, role, id.kind, id.value) && e.0 in IdentCategories(slotCat, role, id.value)
    {
      var k :| 0 <= k < |r| && r[k] == e;
    }
  }

  /** Every entry of a component carries that component's role, the slot's
      key and an identifier of the component. */
  lemma {:induction false} ComponentEntriesShape(rid: string, key: string, slotCat: Option<string>, comp: Component, n: nat)
    requires n <= |comp.identifiers|
    ensures forall e :: e in ComponentEntries(rid, key, slotCat, comp, n) ==>
      e.1.reactionId == rid && e.1.inputKey == key && e.1.role == comp.role
      && (exists i :: 0 <= i < n && e.1.identifierType == comp.identifiers[i].kind && e.1.value == comp.identifiers[i].value)
      && e.0 in IdentCategories(slotCat, comp.role, e.1.value)
  {
    if n > 0 {
      var pre := ComponentEntries(rid, key, slotCat, comp, n - 1);
      var id := comp.identifiers[n - 1];
      var added := IdentEntries(rid, key, slotCat, comp.role, id);
      ComponentEntriesShape(rid, key, slotCat, comp, n - 1);
      IdentEntriesShape(rid, key, slotCat, comp.role, id);
      forall e: (string, Evidence) | e in pre + added
        ensures e.1.reactionId == rid && e.1.inputKey == key && e.1.role == comp.role
                && (exists i :: 0 <= i < n && e.1.identifierType == comp.identifiers[i].kind && e.1.value == comp.identifiers[i].value)
                && e.0 in IdentCategories(slotCat, comp.role, e.1.value)
      {
        if e !in pre {
          assert e.1.identifierType == comp.identifiers[n - 1].kind;
        }
      }
    }
  }

  /** Any key spelled as `m<digits>` segments joined by underscores is
      structural and is its own category, unless the map knows it. */
  lemma StructuralKeyOfSegments(segs: seq<string>, between: string)
    requires |segs| == |between| + 1
    requires forall i :: 0 <= i < |segs| ==> MSegment(segs[i])
    requires forall i :: 0 <= i < |between| ==> between[i] == '_'
    ensures StructuralKey(Join(segs, between))
  {
    forall i | 0 <= i < |segs| ensures NoSep(segs[i], {'_'}) {
      assert MSegment(segs[i]);
    }
    SplitOfJoin(segs, between, {'_'});
  }

  /** ... and only such keys are: a structural key is its own segments
      joined back with underscores. */
  lemma StructuralKeyIsJoin(k: string)
    requires StructuralKey(k)
    ensures var segs, between := Split(k, {'_'}), Separators(k, {'_'});
            |segs| == |between| + 1 && k == Join(segs, between)
            && (forall i :: 0 <= i < |segs| ==> MSegment(segs[i]))
            && (forall i :: 0 <= i < |between| ==> between[i] == '_')
  {
    SplitJoin(k, {'_'});
  }

  /** A structural key starts with its first segment: an `m` or `M` and at
      least one digit. */
  lemma StructuralKeyShape(k: string)
    requires StructuralKey(k)
    ensures |k| >= 2 && (k[0] == 'm' || k[0] == 'M') && IsDigit(k[1])
  {
    var ps := Split(k, {'_'});
    assert MSegment(ps[0]);
    SplitFirstIsPrefix(k, {'_'});
  }

  /** The first piece of a split is a prefix of the string. */
  lemma {:induction false} SplitFirstIsPrefix(s: string, seps: set<char>)
    ensures |Split(s, seps)[0]| <= |s| && Split(s, seps)[0] == s[..|Split(s, seps)[0]|]
    decreases |s|
  {
    if s != [] && s[0] !in seps {
      SplitFirstIsPrefix(s[1..], seps);
    }
  }

  /** When a summary-text reagent line names a base or an amine, the
      structured path, given the same name as an identifier value under a
      reagent or reactant role, files it under that category too. */
  lemma TextChoiceIsStructuredCategory(name: string, lbl: string, role: string)
    requires Lower(lbl) == "reagent" || Lower(lbl) == "reactant"
    requires role == REAGENT_ROLE || role == REACTANT_ROLE
    requires ClassifyFromText(name, lbl) == Some(BASE) || ClassifyFromText(name, lbl) == Some(AMINE)
    ensures ClassifyFromText(name, lbl).value in RoleCategories(role, name)
  {
    ClassifyAgreesWithIdentTests(name, lbl);
    RoleCategoriesMembership(role, name);
  }

  /** The summary text keeps one category per name, the record path keeps
      the union: a name with a base keyword and an amine keyword is a base
      there and both a base and an amine here. */
  lemma TextPicksOneRecordPicksUnion(name: string, role: string)
    requires role == REAGENT_ROLE || role == REACTANT_ROLE
    requires ContainsAny(Lower(name), BASE_KEYWORDS) && ContainsAny(Lower(name), AMINE_KEYWORDS)
    ensures ClassifyFromText(name, "reagent") == Some(BASE)
    ensures BASE in RoleCategories(role, name) && AMINE in RoleCategories(role, name)
  {
    LowerOfLowerCase("reagent");
    ReagentLabelBaseFirst(name, "reagent");
    assert IsBaseIdent(name) && IsAmineIdent(name);
    RoleCategoriesMembership(role, name);
  }

  lemma ReagentLabelBaseFirst(name: string, lbl: string)
    requires Lower(lbl) == "reagent"
    requires ContainsAny(Lower(name), BASE_KEYWORDS)
    ensures ClassifyFromText(name, lbl) == Some(BASE)
  {
  }

  lemma TriethylamineIsLowerCase()
    ensures Lower("triethylamine") == "triethylamine"
  {
    LowerOfLowerCase("triethylamine");
  }

  /** Triethylamine is both a base keyword and an amine. */
  lemma TriethylamineIsBaseAndAmine()
    ensures ContainsAny("triethylamine", BASE_KEYWORDS)
    ensures ContainsAny("triethylamine", AMINE_KEYWORDS)
  {
    var v := "triethylamine";
    assert BASE_KEYWORDS[5] == v;
    assert v[0..|v|] == v;
    assert Contains(v, BASE_KEYWORDS[5]) by {
      assert At(v, 0, v);
    }
    var a := AMINE_KEYWORDS[0];
    assert a == "amine";
    assert v[8..13] == a;
    assert Contains(v, a) by {
      assert At(v, 8, a);
    }
  }

  /** "triethylamine" under a reagent label counts as a base only, and under
      a reagent role as a base and as an amine. */
  lemma TriethylamineCase()
    ensures ClassifyFromText("triethylamine", "reagent") == Some(BASE)
    ensures BASE in RoleCategories(REAGENT_ROLE, "triethylamine")
    ensures AMINE in RoleCategories(REAGENT_ROLE, "triethylamine")
  {
    TriethylamineIsLowerCase();
    TriethylamineIsBaseAndAmine();
    TextPicksOneRecordPicksUnion("triethylamine", REAGENT_ROLE);
  }
}
