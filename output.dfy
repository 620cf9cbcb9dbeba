/** The output filters of the command line: `--base_only` keeps only the
    "Base" tables, `--smiles_only` keeps only evidence whose identifier type
    is SMILES. Both rebuild evidence lists; neither touches a count. */
module Output {
  import opened Keywords
  import opened Counters
  import opened Records
  import opened Aggregation

  const SMILES: string := "SMILES"

  predicate IsSmiles(e: Evidence) {
    e.identifierType == SMILES
  }

  /** `[x for x in lst if x.get("identifier_type") == "SMILES"]`. */
  function SmilesItems(es: seq<Evidence>): seq<Evidence>
    decreases |es|
  {
    if es == [] then []
    else (if IsSmiles(es[0]) then [es[0]] else []) + SmilesItems(es[1..])
  }

  /** `a` is `b` with some items left out, the rest in their order. */
  predicate Subsequence(a: seq<Evidence>, b: seq<Evidence>)
    decreases |b|
  {
    if a == [] then true
    else if b == [] then false
    else (a[0] == b[0] && Subsequence(a[1..], b[1..])) || Subsequence(a, b[1..])
  }

  /** The filter keeps exactly the SMILES items, every copy of them ... */
  lemma {:induction false} SmilesItemsMembership(es: seq<Evidence>)
    ensures forall e :: multiset(SmilesItems(es))[e] == if IsSmiles(e) then multiset(es)[e] else 0
    ensures forall e :: e in SmilesItems(es) <==> e in es && IsSmiles(e)
    decreases |es|
  {
    if es != [] {
      SmilesItemsMembership(es[1..]);
      assert es == [es[0]] + es[1..];
      var head := if IsSmiles(es[0]) then [es[0]] else [];
      assert multiset(SmilesItems(es)) == multiset(head) + multiset(SmilesItems(es[1..]));
    }
  }

  /** ... in their original order ... */
  lemma {:induction false} SmilesItemsSubsequence(es: seq<Evidence>)
    ensures Subsequence(SmilesItems(es), es)
    decreases |es|
  {
    if es != [] {
      SmilesItemsSubsequence(es[1..]);
      var rest := SmilesItems(es[1..]);
      if IsSmiles(es[0]) {
        assert SmilesItems(es) == [es[0]] + rest;
        assert SmilesItems(es)[1..] == rest;
      } else {
        assert SmilesItems(es) == rest;
      }
    }
  }

  /** ... and filtering twice is filtering once. */
  lemma {:induction false} SmilesItemsIdempotent(es: seq<Evidence>)
    ensures SmilesItems(SmilesItems(es)) == SmilesItems(es)
    decreases |es|
  {
    if es != [] {
      SmilesItemsIdempotent(es[1..]);
      var rest := SmilesItems(es[1..]);
      if IsSmiles(es[0]) {
        var r := [es[0]] + rest;
        assert SmilesItems(es) == r;
        assert r[0] == es[0] && r[1..] == rest;
        assert SmilesItems(r) == [es[0]] + SmilesItems(rest);
      } else {
        assert SmilesItems(es) == rest;
      }
    }
  }

  lemma {:induction false} OccurrencesCons(e: Evidence, es: seq<Evidence>, v: string)
    ensures Occurrences([e] + es, v) == (if e.value == v then 1 else 0) + Occurrences(es, v)
    decreases |es|
  {
    if es != [] {
      var init := es[..|es| - 1];
      var last := es[|es| - 1];
      OccurrencesCons(e, init, v);
      assert ([e] + es)[..|es|] == [e] + init;
      assert ([e] + es)[|es|] == last;
    }
  }

  /** Leaving items out never adds an occurrence. */
  lemma {:induction false} OccurrencesOfSubsequence(a: seq<Evidence>, b: seq<Evidence>, v: string)
    requires Subsequence(a, b)
    ensures Occurrences(a, v) <= Occurrences(b, v)
    decreases |b|
  {
    if b != [] {
      assert b == [b[0]] + b[1..];
      OccurrencesCons(b[0], b[1..], v);
      if a != [] && a[0] == b[0] && Subsequence(a[1..], b[1..]) {
        OccurrencesOfSubsequence(a[1..], b[1..], v);
        assert a == [a[0]] + a[1..];
        OccurrencesCons(a[0], a[1..], v);
      } else if a != [] {
        OccurrencesOfSubsequence(a, b[1..], v);
      }
    }
  }

  /** `smiles_only` without `base_only`: every category keeps its key and
      only its SMILES items. */
  function SmilesOnly(raw: Raw): Raw {
    map k | k in raw :: SmilesItems(raw[k])
  }

  /** `--base_only`: the "Base" counts through the default `{}` and the "Base"
      items, filtered when `--smiles_only` is also set. */
  function BaseOnly(data: AggregateResult, smilesOnly: bool): AggregateResult {
    var baseCounts := if BASE in data.counts then data.counts[BASE] else map[];
    var baseRaw := RawOf(data.raw, BASE);
    AggregateResult(map[BASE := baseCounts], map[BASE := if smilesOnly then SmilesItems(baseRaw) else baseRaw])
  }

  /** What is stored for a dataset under the two flags. */
  function Filtered(data: AggregateResult, baseOnly: bool, smilesOnly: bool): AggregateResult {
    if baseOnly then BaseOnly(data, smilesOnly)
    else if smilesOnly then AggregateResult(data.counts, SmilesOnly(data.raw))
    else data
  }

  /** The `smiles_only` loop over `raw.items()`, building a fresh table. */
  method FilterRaw(raw: Raw) returns (filtered: Raw)
    ensures filtered == SmilesOnly(raw)
  {
    filtered := map[];
    var todo := raw.Keys;
    while todo != {}
      invariant todo <= raw.Keys
      invariant filtered.Keys == raw.Keys - todo
      invariant forall k :: k in filtered ==> filtered[k] == SmilesItems(raw[k])
      decreases |todo|
    {
      var k :| k in todo;
      filtered := filtered[k := SmilesItems(raw[k])];
      todo := todo - {k};
    }
  }

  /** Counts are never filtered: without `base_only` they are the dataset's
      counts, with it the "Base" row of them (empty when there is none), and
      "Base" is then the only category of both tables. */
  lemma FilteredCounts(data: AggregateResult, baseOnly: bool, smilesOnly: bool)
    ensures var f := Filtered(data, baseOnly, smilesOnly);
            (!baseOnly ==> f.counts == data.counts && f.raw.Keys == data.raw.Keys)
            && (baseOnly ==> f.counts.Keys == {BASE} && f.raw.Keys == {BASE}
                             && forall v :: CountOf(f.counts, BASE, v) == CountOf(data.counts, BASE, v))
  {
  }

  /** Every stored list is the dataset's list for its category, filtered to
      its SMILES items under `smiles_only`: so it is a subsequence of it, and
      under `smiles_only` it holds exactly its SMILES items. */
  lemma FilteredRaw(data: AggregateResult, baseOnly: bool, smilesOnly: bool, c: string)
    requires c in Filtered(data, baseOnly, smilesOnly).raw
    ensures Filtered(data, baseOnly, smilesOnly).raw[c] == if smilesOnly then SmilesItems(RawOf(data.raw, c)) else RawOf(data.raw, c)
    ensures Subsequence(Filtered(data, baseOnly, smilesOnly).raw[c], RawOf(data.raw, c))
    ensures smilesOnly ==> forall e :: e in Filtered(data, baseOnly, smilesOnly).raw[c] <==> e in RawOf(data.raw, c) && IsSmiles(e)
  {
    var f := Filtered(data, baseOnly, smilesOnly);
    var es := RawOf(data.raw, c);
    if smilesOnly {
      SmilesItemsSubsequence(es);
      SmilesItemsMembership(es);
    } else {
      SubsequenceRefl(es);
    }
  }

  lemma {:induction false} SubsequenceRefl(es: seq<Evidence>)
    ensures Subsequence(es, es)
    decreases |es|
  {
    if es != [] {
      SubsequenceRefl(es[1..]);
    }
  }

  /** After filtering, lock-step weakens to a bound: a count is at least the
      number of kept items with its value. */
  lemma FilteredCountsBound(data: AggregateResult, baseOnly: bool, smilesOnly: bool, c: string, v: string)
    requires InLockStep(data)
    ensures Occurrences(RawOf(Filtered(data, baseOnly, smilesOnly).raw, c), v)
            <= CountOf(Filtered(data, baseOnly, smilesOnly).counts, c, v)
  {
    var f := Filtered(data, baseOnly, smilesOnly);
    FilteredCounts(data, baseOnly, smilesOnly);
    if c in f.raw {
      FilteredRaw(data, baseOnly, smilesOnly, c);
      OccurrencesOfSubsequence(f.raw[c], RawOf(data.raw, c), v);
      assert CountOf(data.counts, c, v) == Occurrences(RawOf(data.raw, c), v);
    }
  }

  /** The bound is all that is left: one non-SMILES base keeps its count and
      loses its item. */
  lemma SmilesOnlyBreaksLockStep()
    ensures var ev := Evidence("r1", "base", "REAGENT", "NAME", "K2CO3");
            var data := AggregateResult(map[BASE := map["K2CO3" := 1]], map[BASE := [ev]]);
            InLockStep(data) && !InLockStep(Filtered(data, false, true))
  {
    var ev := Evidence("r1", "base", "REAGENT", "NAME", "K2CO3");
    var data := AggregateResult(map[BASE := map["K2CO3" := 1]], map[BASE := [ev]]);
    assert [ev][..0] == [];
    forall c, v ensures CountOf(data.counts, c, v) == Occurrences(RawOf(data.raw, c), v) {
    }
    assert !IsSmiles(ev);
    var f := Filtered(data, false, true);
    assert SmilesItems([ev]) == [];
    assert CountOf(f.counts, BASE, "K2CO3") == 1;
    assert Occurrences(RawOf(f.raw, BASE), "K2CO3") == 0;
  }
}
