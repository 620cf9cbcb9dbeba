/** The per-dataset aggregation of `aggregate_dataset`: every decoded record
    is walked slot by slot, component by component and identifier by
    identifier, and each (category, evidence) entry is appended to
    `raw[cat]` while `counts[cat][value]` goes up by one. */
module Aggregation {
  import opened Wrappers
  import opened Keywords
  import opened Identifiers
  import opened Counters
  import opened Records

  /** The `defaultdict(list)` of evidence: category -> items, in order. */
  type Raw = map<string, seq<Evidence>>

  /** `raw[cat]` read through the default: empty when absent. */
  function RawOf(raw: Raw, cat: string): seq<Evidence> {
    if cat in raw then raw[cat] else []
  }

  /** `raw[cat].append(ev)` on a `defaultdict(list)`. */
  function Append(raw: Raw, cat: string, ev: Evidence): (r: Raw)
    ensures RawOf(r, cat) == RawOf(raw, cat) + [ev]
    ensures forall c :: c != cat ==> RawOf(r, c) == RawOf(raw, c)
    ensures r.Keys == raw.Keys + {cat}
  {
    raw[cat := RawOf(raw, cat) + [ev]]
  }

  /** The (category, value) pairs of a log of entries. */
  function Values(log: seq<(string, Evidence)>): (r: seq<(string, string)>)
  {
    seq(|log|, i requires 0 <= i < |log| => (log[i].0, log[i].1.value))
  }

  /** The evidence table obtained by appending every entry of `log`, in order. */
  function Group(log: seq<(string, Evidence)>): Raw
    decreases |log|
  {
    if log == [] then map[]
    else
      var last := log[|log| - 1];
      Append(Group(log[..|log| - 1]), last.0, last.1)
  }

  /** The evidence of the entries filed under `c`, in order. */
  function Select(log: seq<(string, Evidence)>, c: string): seq<Evidence>
    decreases |log|
  {
    if log == [] then []
    else
      var last := log[|log| - 1];
      Select(log[..|log| - 1], c) + (if last.0 == c then [last.1] else [])
  }

  /** The number of items of `es` whose value is `v`. */
  function Occurrences(es: seq<Evidence>, v: string): nat
    decreases |es|
  {
    if es == [] then 0
    else Occurrences(es[..|es| - 1], v) + (if es[|es| - 1].value == v then 1 else 0)
  }

  lemma OccurrencesSnoc(es: seq<Evidence>, e: Evidence, v: string)
    ensures Occurrences(es + [e], v) == Occurrences(es, v) + (if e.value == v then 1 else 0)
  {
    assert (es + [e])[..|es|] == es;
  }

  lemma GroupSnoc(log: seq<(string, Evidence)>, x: (string, Evidence))
    ensures Group(log + [x]) == Append(Group(log), x.0, x.1)
    ensures Select(log + [x], x.0) == Select(log, x.0) + [x.1]
    ensures forall c :: c != x.0 ==> Select(log + [x], c) == Select(log, c)
  {
    assert (log + [x])[..|log|] == log;
  }

  lemma ValuesSnoc(log: seq<(string, Evidence)>, x: (string, Evidence))
    ensures Values(log + [x]) == Values(log) + [(x.0, x.1.value)]
  {
  }

  /** Each category's list is exactly the evidence filed under it, in log
      order, and a category is a key exactly when something was filed under it. */
  lemma {:induction false} GroupSelect(log: seq<(string, Evidence)>)
    ensures forall c :: RawOf(Group(log), c) == Select(log, c)
    ensures forall c :: c in Group(log) <==> Select(log, c) != []
    decreases |log|
  {
    if log != [] {
      var init := log[..|log| - 1];
      var x := log[|log| - 1];
      GroupSelect(init);
      assert log == init + [x];
      GroupSnoc(init, x);
    }
  }

  /** Lock-step: every count is the number of items of that category's list
      that carry the value, and the two tables have the same categories. */
  lemma LockStep(log: seq<(string, Evidence)>)
    ensures forall c, v :: CountOf(Tally(Values(log)), c, v) == Occurrences(RawOf(Group(log), c), v)
    ensures Tally(Values(log)).Keys == Group(log).Keys
  {
    forall c, v
      ensures CountOf(Tally(Values(log)), c, v) == Occurrences(RawOf(Group(log), c), v)
    {
      LockStepAt(log, c, v);
    }
    LockStepKeys(log);
  }

  lemma {:induction false} LockStepAt(log: seq<(string, Evidence)>, c: string, v: string)
    ensures CountOf(Tally(Values(log)), c, v) == Occurrences(RawOf(Group(log), c), v)
    decreases |log|
  {
    if log != [] {
      var init := log[..|log| - 1];
      var x := log[|log| - 1];
      LockStepAt(init, c, v);
      assert log == init + [x];
      ValuesSnoc(init, x);
      TallySnoc(Values(init), (x.0, x.1.value));
      GroupSnoc(init, x);
      if c == x.0 {
        OccurrencesSnoc(RawOf(Group(init), x.0), x.1, v);
      }
    }
  }

  lemma {:induction false} LockStepKeys(log: seq<(string, Evidence)>)
    ensures Tally(Values(log)).Keys == Group(log).Keys
    decreases |log|
  {
    if log != [] {
      var init := log[..|log| - 1];
      var x := log[|log| - 1];
      LockStepKeys(init);
      assert log == init + [x];
      ValuesSnoc(init, x);
      TallySnoc(Values(init), (x.0, x.1.value));
      GroupSnoc(init, x);
    }
  }

  /** One search result: its reaction id, and the record when its payload was
      present and decoded. */
  datatype Item = Item(reactionId: Option<string>, record: Option<Reaction>)

  /** An item counts only with a non-empty id and a decoded record. */
  function ItemEntries(item: Item): seq<(string, Evidence)> {
    match item.reactionId
    case None => []
    case Some(rid) =>
      if rid == "" || item.record.None? then [] else Entries(rid, item.record.value)
  }

  /** The accumulator of one dataset: the two `defaultdict`s, and as ghost
      state the entries filed so far, which determine both. */
  class Aggregate {
    var counts: Counts
    var raw: Raw
    ghost var log: seq<(string, Evidence)>

    ghost predicate Valid()
      reads this
    {
      counts == Tally(Values(log)) && raw == Group(log)
    }

    constructor ()
      ensures Valid() && log == []
      ensures counts == map[] && raw == map[]
    {
      counts := map[];
      raw := map[];
      log := [];
    }

    /** `raw[cat].append(ev)` together with `counts[cat][ev.value] += 1`. */
    method Accumulate(cat: string, ev: Evidence)
      requires Valid()
      modifies this
      ensures Valid()
      ensures log == old(log) + [(cat, ev)]
      ensures raw == Append(old(raw), cat, ev)
      ensures counts == Bump(old(counts), cat, ev.value)
    {
      raw := Append(raw, cat, ev);
      counts := Bump(counts, cat, ev.value);
      ValuesSnoc(log, (cat, ev));
      TallySnoc(Values(log), (cat, ev.value));
      GroupSnoc(log, (cat, ev));
      log := log + [(cat, ev)];
    }

    /** One identifier of a component: filed under the slot category when
        there is one, otherwise under the categories its role selects. */
    method AddIdentifier(rid: string, key: string, slotCat: Option<string>, role: string, id: Identifier)
      requires Valid()
      modifies this
      ensures Valid()
      ensures log == old(log) + IdentEntries(rid, key, slotCat, role, id)
    {
      var ev := Evidence(rid, key, role, id.kind, id.value);
      if slotCat.Some? {
        Accumulate(slotCat.value, ev);
        FiledStep(old(log), [], slotCat.value, true, ev);
      } else if role == SOLVENT_ROLE {
        Accumulate(SOLVENT, ev);
        FiledStep(old(log), [], SOLVENT, true, ev);
      } else if role == CATALYST_ROLE {
        AddCatalyst(ev);
      } else if role == REAGENT_ROLE || role == REACTANT_ROLE {
        AddReagent(ev);
      } else {
        assert IdentCategories(slotCat, role, id.value) == [];
      }
    }

    /** Files `ev` under `cat` when its test passed: the entries so far are
        those of `cats`, and `cat` joins them exactly then. */
    method FileIf(cat: string, passed: bool, ev: Evidence, ghost base: seq<(string, Evidence)>, ghost cats: seq<string>)
      requires Valid() && log == base + Filed(cats, ev)
      modifies this
      ensures Valid()
      ensures log == base + Filed(cats + (if passed then [cat] else []), ev)
    {
      FiledStep(base, cats, cat, passed, ev);
      if passed {
        Accumulate(cat, ev);
      }
    }

    /** A catalyst identifier: metal and ligand tested independently. */
    method AddCatalyst(ev: Evidence)
      requires Valid()
      modifies this
      ensures Valid()
      ensures log == old(log) + Filed(RoleCategories(CATALYST_ROLE, ev.value), ev)
    {
      assert log == old(log) + Filed([], ev);
      var isMetal := IsMetalIdent(ev.value);
      FileIf(METAL, isMetal, ev, old(log), []);
      ghost var cats := if isMetal then [METAL] else [];
      var isLigand := IsLigandIdent(ev.value);
      FileIf(LIGAND, isLigand, ev, old(log), cats);
      CatalystCategories(ev.value, cats + (if isLigand then [LIGAND] else []));
    }

    /** A reagent or reactant identifier: base, amine and aryl halide tested
        independently. */
    method AddReagent(ev: Evidence)
      requires Valid()
      requires ev.role == REAGENT_ROLE || ev.role == REACTANT_ROLE
      modifies this
      ensures Valid()
      ensures log == old(log) + Filed(RoleCategories(ev.role, ev.value), ev)
    {
      assert log == old(log) + Filed([], ev);
      var isBase := IsBaseIdent(ev.value);
      FileIf(BASE, isBase, ev, old(log), []);
      ghost var cats := if isBase then [BASE] else [];
      var isAmine := IsAmineIdent(ev.value);
      FileIf(AMINE, isAmine, ev, old(log), cats);
      cats := cats + (if isAmine then [AMINE] else []);
      var isHalide := IsArylHalideIdent(ev.value);
      FileIf(ARYL_HALIDE, isHalide, ev, old(log), cats);
      ReagentCategories(ev.role, ev.value, cats + (if isHalide then [ARYL_HALIDE] else []));
    }

    /** The identifiers of one component, in order. */
    method AddComponent(rid: string, key: string, slotCat: Option<string>, comp: Component)
      requires Valid()
      modifies this
      ensures Valid()
      ensures log == old(log) + ComponentEntries(rid, key, slotCat, comp, |comp.identifiers|)
    {
      var n := 0;
      while n < |comp.identifiers|
        invariant 0 <= n <= |comp.identifiers|
        invariant Valid()
        invariant log == old(log) + ComponentEntries(rid, key, slotCat, comp, n)
      {
        AddIdentifier(rid, key, slotCat, comp.role, comp.identifiers[n]);
        ComponentStep(old(log), rid, key, slotCat, comp, n);
        n := n + 1;
      }
    }

    /** The components of one input slot, in order, each under the slot's
        category if the key gives one. */
    method AddSlot(rid: string, slot: Slot)
      requires Valid()
      modifies this
      ensures Valid()
      ensures log == old(log) + SlotEntries(rid, slot, |slot.components|)
    {
      var n := 0;
      while n < |slot.components|
        invariant 0 <= n <= |slot.components|
        invariant Valid()
        invariant log == old(log) + SlotEntries(rid, slot, n)
      {
        var catByKey := SlotCategory(slot.key);
        AddComponent(rid, slot.key, catByKey, slot.components[n]);
        SlotStep(old(log), rid, slot, n);
        n := n + 1;
      }
    }

    /** All input slots of one decoded reaction, in order. */
    method AddReaction(rid: string, rxn: Reaction)
      requires Valid()
      modifies this
      ensures Valid()
      ensures log == old(log) + Entries(rid, rxn)
    {
      var n := 0;
      while n < |rxn.inputs|
        invariant 0 <= n <= |rxn.inputs|
        invariant Valid()
        invariant log == old(log) + ReactionEntries(rid, rxn, n)
      {
        AddSlot(rid, rxn.inputs[n]);
        ReactionStep(old(log), rid, rxn, n);
        n := n + 1;
      }
    }

    /** One search result: skipped without a non-empty id or a decoded record. */
    method AddItem(item: Item)
      requires Valid()
      modifies this
      ensures Valid()
      ensures log == old(log) + ItemEntries(item)
    {
      if item.reactionId.Some? && item.reactionId.value != "" && item.record.Some? {
        AddReaction(item.reactionId.value, item.record.value);
      }
    }
  }

  /** The entries of the first `n` items. */
  function DatasetEntries(items: seq<Item>, n: nat): seq<(string, Evidence)>
    requires n <= |items|
  {
    if n == 0 then [] else DatasetEntries(items, n - 1) + ItemEntries(items[n - 1])
  }

  /** What `aggregate_dataset` returns: the counts and the evidence lists. */
  datatype AggregateResult = AggregateResult(counts: Counts, raw: Raw)

  /** The result built from a log of entries. */
  function ResultOf(log: seq<(string, Evidence)>): AggregateResult {
    AggregateResult(Tally(Values(log)), Group(log))
  }

  /** The two tables of a result move in lock-step. */
  ghost predicate InLockStep(res: AggregateResult) {
    res.counts.Keys == res.raw.Keys
    && forall c, v :: CountOf(res.counts, c, v) == Occurrences(RawOf(res.raw, c), v)
  }

  /** Whatever was filed, the two tables are in lock-step and every stored
      count is positive. */
  lemma ResultOfInLockStep(log: seq<(string, Evidence)>)
    ensures InLockStep(ResultOf(log))
    ensures Positive(ResultOf(log).counts)
  {
    LockStep(log);
    TallyKeys(Values(log));
  }

  /** One more item appends its entries after those of the items before it. */
  lemma DatasetStep(items: seq<Item>, n: nat)
    requires n < |items|
    ensures DatasetEntries(items, n + 1) == DatasetEntries(items, n) + ItemEntries(items[n])
  {
  }

  /** The aggregation loop over the items of one dataset. */
  method AggregateItems(items: seq<Item>) returns (res: AggregateResult)
    ensures res == ResultOf(DatasetEntries(items, |items|))
    ensures InLockStep(res)
    ensures Positive(res.counts)
  {
    var agg := new Aggregate();
    var n := 0;
    while n < |items|
      invariant 0 <= n <= |items|
      invariant agg.Valid()
      invariant agg.log == DatasetEntries(items, n)
    {
      DatasetStep(items, n);
      agg.AddItem(items[n]);
      n := n + 1;
    }
    res := AggregateResult(agg.counts, agg.raw);
    ResultOfInLockStep(agg.log);
  }
}
