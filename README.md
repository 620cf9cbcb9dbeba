# ORD reaction-component scraper, modelled in Dafny

The scraper queries the Open Reaction Database (ORD). For some datasets it
counts how often each compound appears in a reaction-condition category:

- bases;
- solvents;
- ligands;
- metals;
- amines;
- aryl halides;
- any category an input slot's key names.

It has two evidence paths:

- **Summary text** (`extract_components`): finds a role word in each row of a
  reaction-summary table and picks the row's name. Then it reads
  `Label: a; b, c` lines from the summary's visible text. A name gets a
  category from the label: explicit labels give theirs directly, and
  reagent or reactant labels go to a keyword classifier with a fixed priority.
- **Structured records** (`aggregate_dataset`): walks every decoded reaction
  slot by slot, component by component and identifier by identifier. Each
  identifier goes under the slot's category when the key names one. Otherwise
  it goes under every category its role's tests accept, with each test run
  independently. Each filing appends one evidence item to `raw[cat]` and adds
  one to `counts[cat][value]`.

Nothing in `ord_scraper.py` calls `extract_components` or
`get_reaction_summary_html`, so summary-text evidence never reaches what
`main` writes. `Datasets.Run` accordingly composes only the structured-record
aggregation (`AggregateItems`).

The command line then:

1. picks the dataset ids;
2. aggregates each dataset;
3. applies the `--base_only` and `--smiles_only` filters;
4. stores each dataset's result under its id. A dataset whose scrape raises
   is skipped.

Modules, in dependency order (`wrappers.dfy`, `strings.dfy`, `counters.dfy`,
`keywords.dfy`, `identifiers.dfy`, `html_extract.dfy`, `records.dfy`,
`aggregation.dfy`, `output.dfy`, `datasets.dfy`):

- `Strings`: ASCII lower-casing, substring search, Python's `strip()`, and
  splitting on separator characters with its inverse `Join`.
- `Counters`: `defaultdict(Counter)` as a map of maps. `Bump` is one `+= 1`.
  `Tally` is a sequence of bumps, and every count equals the multiplicity of
  its pair.
- `Keywords`: the keyword tables, the role words and `INPUT_KEY_CATEGORY_MAP`,
  copied exactly.
- `Identifiers`: the five `_is_*_ident` tests. Each regular expression is
  written out as a predicate on positions.
- `HtmlExtract`: `_pick_name_from_cells`, `_classify_from_text`, and both
  passes of `extract_components`. The passes are loops over the parsed rows
  and captures, proved against `Tally` of a specification sequence of pairs.
- `Records`: the decoded reaction as datatypes, plus the entries each
  identifier, component, slot and reaction adds, as functions.
- `Aggregation`: the accumulator of `aggregate_dataset` is a class. Its fields
  are the two tables, plus a ghost log of the entries filed so far. Every
  method extends the log by exactly the entries the specification functions
  give. `Valid()` ties both tables to the log. The lock-step lemma follows:
  every count equals the number of items with that value in that category's
  list.
- `Output`: the two output filters, and what each keeps of lock-step.
- `Datasets`: id extraction from URLs, target selection, and the loop of
  `main` over the datasets.

Two behaviours of the code a reader may not expect, and one spelling kept as
it is:

- `[0-9 .%]+` must match the whole cell, so an amount cell such as "1.0 eq"
  is not skipped. It is taken as the row's name, so the row "1.0 eq | K2CO3 |
  Reagent" counts nothing: "1.0 eq" passes no reagent test, and "K2CO3" is
  never looked at (`AmountCellIsTakenAsName`).
- The name is picked from all cells but the last (`cells[:-1]`), not from the
  cells other than the label.
- The base keyword "kom e" is kept as it is spelled.

A table row labelled "Catalyst" counts nothing. "Catalyst" is
not a role word, so the label search finds no label and the row is skipped
(`CatalystLabelRowSkipped`).

## Model

| member | source | states |
|---|---|---|
| Strings.Lower | OLASIMAN_ORD/ord_scraper.py:240 | the lower-cased text has the same length and maps every character through ASCII lower-casing |
| Strings.LowerIdempotent | OLASIMAN_ORD/ord_scraper.py:240 | lower-casing twice is lower-casing once |
| Strings.Strip | OLASIMAN_ORD/ord_scraper.py:226 | `strip()` yields a slice with no whitespace at either end, everything cut away is whitespace, and it is empty exactly when the input is all whitespace |
| Strings.StripPadded | OLASIMAN_ORD/ord_scraper.py:226 | `strip()` of stripped non-blank text with whitespace on either side gives back exactly that text |
| Strings.StripOfStripped | OLASIMAN_ORD/ord_scraper.py:226 | stripping text without outer whitespace changes nothing |
| Strings.Split | OLASIMAN_ORD/ord_scraper.py:226 | the split has at least one piece and no piece holds a separator |
| Strings.SplitJoin | OLASIMAN_ORD/ord_scraper.py:226 | n separators give n + 1 pieces, and the pieces rejoined with the separators give back the input |
| Strings.SplitOfJoin | OLASIMAN_ORD/ord_scraper.py:226 | separator-free pieces joined with separator characters split back into exactly those pieces |
| Strings.ContainsTransitive | OLASIMAN_ORD/ord_scraper.py:32-39 | a keyword containing another keyword is redundant in a table that holds both |
| Counters.Bump | OLASIMAN_ORD/ord_scraper.py:221 | `table[cat][v] += 1` raises that one count by one, leaves every other count, adds `cat` as a key, and keeps all counts positive |
| Counters.TallyCounts | OLASIMAN_ORD/ord_scraper.py:227-228 | after bumping a sequence of pairs, every count is the multiplicity of its pair |
| Counters.TallyKeys | OLASIMAN_ORD/ord_scraper.py:202 | the table's categories are exactly those bumped, and every stored count is positive |
| Counters.TallyAppend | OLASIMAN_ORD/ord_scraper.py:203-228 | two runs of bumps on one table add up count by count, so nothing is deduplicated |
| Identifiers.IsBaseIdent | OLASIMAN_ORD/ord_scraper.py:239-247 | `_is_base_ident`: a base keyword, the alkoxide-and-cation pattern, or a word of the base regex in the lower-cased value; characterised by BaseIdentSimplified and IdentTestsIgnoreCase |
| Identifiers.IsAmineIdent | OLASIMAN_ORD/ord_scraper.py:250-256 | `_is_amine_ident`: an amine keyword or `n[h]?2` in the lower-cased value; characterised by AmineIdentSimplified |
| Identifiers.IsArylHalideIdent | OLASIMAN_ORD/ord_scraper.py:259-265 | `_is_aryl_halide_ident`: an aryl-halide keyword, or a "c" followed on the same line by "cl", "br" or "i"; related to the text classifier by HalogenAfterCarbonIsAlsoUnordered and UnorderedIsWeaker |
| Identifiers.IsMetalIdent | OLASIMAN_ORD/ord_scraper.py:268-272 | `_is_metal_ident`: a metal keyword in the lower-cased value |
| Identifiers.IsLigandIdent | OLASIMAN_ORD/ord_scraper.py:275-279 | `_is_ligand_ident`: a ligand keyword in the lower-cased value |
| Identifiers.IdentTestsIgnoreCase | OLASIMAN_ORD/ord_scraper.py:239-279 | each of the five identifier tests gives the same answer on a value and on its lower-case form |
| Identifiers.BaseIdentSimplified | OLASIMAN_ORD/ord_scraper.py:239-247 | the base test holds iff the value has a base keyword, an alkoxide with a later Na/K/Li cation on the same line, "hmds" or "tertbutoxide" (the other regex words are already keywords) |
| Identifiers.AmineIdentSimplified | OLASIMAN_ORD/ord_scraper.py:250-256 | the amine test holds iff the lower-case value contains "amine", "aniline", "nh2" or "n2" |
| Identifiers.HalogenAfterCarbonIsAlsoUnordered | OLASIMAN_ORD/ord_scraper.py:259-265 | every value matching `c.*(cl\|br\|i)` also passes the unordered carbon-and-halogen test of the text classifier |
| Identifiers.UnorderedIsWeaker | OLASIMAN_ORD/ord_scraper.py:195 | "ic" passes the unordered test of the text classifier but fails the ordered regex |
| HtmlExtract.PickNameFromCells | OLASIMAN_ORD/ord_scraper.py:163-172 | no name exactly when no cell is a non-empty, non-numeric, non-role-word text; otherwise the first such cell |
| HtmlExtract.AmountCellIsTakenAsName | OLASIMAN_ORD/ord_scraper.py:163-221 | "1.0 eq" is not numeric-like, so it is picked ahead of "K2CO3" as the row's name, and the row "1.0 eq \| K2CO3 \| Reagent" then yields no pair at all |
| HtmlExtract.AmountNameUnclassified | OLASIMAN_ORD/ord_scraper.py:186-197 | "1.0 eq" under a "Reagent" label gets no category: it holds no keyword of any family and no "c" |
| HtmlExtract.ClassifyFromText | OLASIMAN_ORD/ord_scraper.py:175-197 | the classifier only ever returns Base, amine, Ligand, Metal, aryl halide or Solvent |
| HtmlExtract.ClassifyExplicitLabel | OLASIMAN_ORD/ord_scraper.py:176-185 | a solvent, ligand, metal or base label, in any case, gives its own category whatever the name |
| HtmlExtract.ClassifyReagentFirstMatch | OLASIMAN_ORD/ord_scraper.py:186-197 | under a reagent or reactant label the result is the first family, in the order Base, amine, Ligand, Metal, aryl halide, whose test the lower-cased name passes, and nothing when it passes none |
| HtmlExtract.ClassifyNeedsRoleWord | OLASIMAN_ORD/ord_scraper.py:175-197 | a category only ever comes from a label that is one of the six role words |
| HtmlExtract.ClassifyAgreesWithIdentTests | OLASIMAN_ORD/ord_scraper.py:186-194 | a Base, amine, Ligand or Metal choice under a reagent label also passes that family's identifier test |
| HtmlExtract.RowLabel | OLASIMAN_ORD/ord_scraper.py:207-214 | the label of a row, found from the right; characterised by RowLabelRightmost and computed by FindRowLabel |
| HtmlExtract.RowLabelRightmost | OLASIMAN_ORD/ord_scraper.py:207-214 | a row has no label exactly when no cell is a role word; otherwise its label is a role-word cell with none to its right |
| HtmlExtract.FindRowLabel | OLASIMAN_ORD/ord_scraper.py:207-212 | the right-to-left scan that stops at the first role word returns the row label |
| HtmlExtract.RowName | OLASIMAN_ORD/ord_scraper.py:215-218 | the first name candidate among all cells but the last, else the link text; characterised through PickNameFromCells and RowEvidenceShape |
| HtmlExtract.RowEvidence | OLASIMAN_ORD/ord_scraper.py:204-221 | the pair one row adds, if any; characterised by RowEvidenceShape and RowWithoutLabelSkipped, and computed by RowContribution |
| HtmlExtract.RowWithoutLabelSkipped | OLASIMAN_ORD/ord_scraper.py:205-214 | a row with no role-word cell contributes nothing |
| HtmlExtract.CatalystLabelRowSkipped | OLASIMAN_ORD/ord_scraper.py:208-214 | the row "50% \| Pd(OAc)2 \| Catalyst" contributes nothing, because "Catalyst" is not a role word |
| HtmlExtract.RowEvidenceShape | OLASIMAN_ORD/ord_scraper.py:213-221 | a counted row's name is non-empty and is either the first candidate among all cells but the last or, when there is none, the link text; its category is the one the classifier gives that name under the rightmost role word |
| HtmlExtract.RowContribution | OLASIMAN_ORD/ord_scraper.py:204-221 | one row's processing yields exactly the row's pair, if any |
| HtmlExtract.RowPairsAtMostOnePerRow | OLASIMAN_ORD/ord_scraper.py:203-221 | each row adds at most one pair |
| HtmlExtract.RowPass | OLASIMAN_ORD/ord_scraper.py:203-221 | the tabular pass leaves the tally of the rows' pairs |
| HtmlExtract.StripNonEmpty | OLASIMAN_ORD/ord_scraper.py:226 | stripping and dropping blank pieces leaves no more parts than pieces, each non-empty and stripped; which parts they are is stated by the next two lemmas |
| HtmlExtract.StripNonEmptyAppend | OLASIMAN_ORD/ord_scraper.py:226 | the parts of two runs of pieces are the parts of the first followed by those of the second |
| HtmlExtract.StripNonEmptyOne | OLASIMAN_ORD/ord_scraper.py:226 | one piece gives its stripped text, or nothing when that is blank; with the previous lemma this fixes the parts as `Strip(p)` for every non-blank piece `p`, in order |
| HtmlExtract.StripNonEmptyOfPieces | OLASIMAN_ORD/ord_scraper.py:226 | pieces that each strip to a non-blank part give exactly those parts, in order |
| HtmlExtract.SplitParts | OLASIMAN_ORD/ord_scraper.py:226 | a capture yields at most one more part than it has separators, each non-empty, stripped and free of ';' and ',' |
| HtmlExtract.StripKeepsNoSep | OLASIMAN_ORD/ord_scraper.py:226 | stripping separator-free pieces keeps them separator-free |
| HtmlExtract.SplitPartsOfJoin | OLASIMAN_ORD/ord_scraper.py:226 | clean parts joined with ';' or ',' split back into exactly those parts |
| HtmlExtract.SplitPartsOfPaddedJoin | OLASIMAN_ORD/ord_scraper.py:226 | the same round trip when every part carries any whitespace before and after it, as after `, `: the parts come back stripped, in order |
| HtmlExtract.SplitPartsOfCapture | OLASIMAN_ORD/ord_scraper.py:225-228 | the capture "K2CO3, Cs2CO3" yields exactly the parts "K2CO3" and "Cs2CO3" |
| HtmlExtract.BumpParts | OLASIMAN_ORD/ord_scraper.py:227-228 | the inner loop bumps once for every part of a capture |
| HtmlExtract.TextPass | OLASIMAN_ORD/ord_scraper.py:222-228 | the free-text pass bumps once for every part of every capture, on the table the row pass left |
| HtmlExtract.ExtractComponents | OLASIMAN_ORD/ord_scraper.py:200-229 | every count is how many rows yielded the pair plus how many captured parts did, and every stored count is positive |
| Records.SlotCategory | OLASIMAN_ORD/ord_scraper.py:304-306 | a key known to the map, in any case, gives the map's category; otherwise the key is its own category exactly when it is structural (`m<digits>` segments joined by `_`) |
| Records.StructuralKeyOfSegments | OLASIMAN_ORD/ord_scraper.py:305 | every key spelled as `m<digits>` segments joined by underscores is structural |
| Records.StructuralKeyIsJoin | OLASIMAN_ORD/ord_scraper.py:305 | conversely, a structural key is its `m<digits>` segments joined back with underscores, so the fullmatch holds exactly for such joins |
| Records.StructuralKeyShape | OLASIMAN_ORD/ord_scraper.py:305 | a structural key starts with `m` or `M` followed by a digit |
| Records.SlotKeyedEntries | OLASIMAN_ORD/ord_scraper.py:307-311 | under a slot category every identifier of a component is filed exactly once, under that category, with its own evidence record, whatever the role |
| Records.RoleCategories | OLASIMAN_ORD/ord_scraper.py:312-334 | the categories a role gives an identifier without a slot category, in the order they are appended; characterised by RoleCategoriesMembership and RoleCategoriesDistinct |
| Records.IdentEntries | OLASIMAN_ORD/ord_scraper.py:307-334 | the entries one identifier adds; characterised by IdentEntriesShape and SlotKeyedEntries, and appended by Aggregate.AddIdentifier |
| Records.ComponentEntries | OLASIMAN_ORD/ord_scraper.py:301-334 | the entries of a component, identifier by identifier; characterised by ComponentEntriesShape and SlotKeyedEntries |
| Records.SlotEntries | OLASIMAN_ORD/ord_scraper.py:297-334 | the entries of a slot, component by component, under the key's category; appended by Aggregate.AddSlot |
| Records.ReactionEntries | OLASIMAN_ORD/ord_scraper.py:296-334 | the entries of a decoded reaction, slot by slot; appended by Aggregate.AddReaction |
| Records.RoleCategoriesMembership | OLASIMAN_ORD/ord_scraper.py:312-334 | without a slot category a solvent is a Solvent, a catalyst a Metal and a Ligand each when its test passes, a reagent or reactant a Base, an amine and an aryl halide each when its test passes, and any other role nothing |
| Records.RoleCategoriesDistinct | OLASIMAN_ORD/ord_scraper.py:318-334 | an identifier is filed at most three times, never twice under one category |
| Records.IdentEntriesShape | OLASIMAN_ORD/ord_scraper.py:307-334 | every entry of one identifier carries its reaction id, key, role, type and value, under one of its selected categories |
| Records.ComponentEntriesShape | OLASIMAN_ORD/ord_scraper.py:297-334 | every entry of a component carries the reaction id, the slot key, the component's role and one of its identifiers, under a category selected for that value |
| Records.TextChoiceIsStructuredCategory | OLASIMAN_ORD/ord_scraper.py:186-190 | a Base or amine choice of the text classifier under a reagent or reactant label is among the categories the structured path files that value under, for a reagent or reactant role |
| Records.TextPicksOneRecordPicksUnion | OLASIMAN_ORD/ord_scraper.py:187-188 | a name with both a base keyword and an amine keyword is only a Base to the text classifier, but both a Base and an amine to the structured path |
| Records.TriethylamineCase | OLASIMAN_ORD/ord_scraper.py:326-331 | "triethylamine" under a reagent label is a Base only; under a reagent role it is a Base and an amine |
| Aggregation.ItemEntries | OLASIMAN_ORD/ord_scraper.py:287-295 | nothing for an item without a non-empty id or a decoded record, else its reaction's entries; appended by Aggregate.AddItem |
| Aggregation.Append | OLASIMAN_ORD/ord_scraper.py:310 | `raw[cat].append(ev)` adds `ev` at the end of that list only and makes `cat` a key |
| Aggregation.GroupSelect | OLASIMAN_ORD/ord_scraper.py:286-334 | each category's list is exactly the evidence filed under it, in filing order, and a category is a key exactly when something was filed under it |
| Aggregation.LockStep | OLASIMAN_ORD/ord_scraper.py:285-334 | every count is the number of items with that value in that category's list, and both tables have the same categories |
| Aggregation.Aggregate.constructor | OLASIMAN_ORD/ord_scraper.py:285-286 | both tables start empty with nothing filed |
| Aggregation.Aggregate.Accumulate | OLASIMAN_ORD/ord_scraper.py:310-311 | one filing appends the item and bumps the count, keeping both tables equal to those the log determines |
| Aggregation.Aggregate.AddIdentifier | OLASIMAN_ORD/ord_scraper.py:307-334 | one identifier adds exactly its entries: under the slot category if any, else under its role's categories |
| Aggregation.Aggregate.AddCatalyst | OLASIMAN_ORD/ord_scraper.py:318-324 | a catalyst identifier is filed as a Metal and as a Ligand, each when its test passes, in that order |
| Aggregation.Aggregate.AddReagent | OLASIMAN_ORD/ord_scraper.py:325-334 | a reagent or reactant identifier is filed as a Base, an amine and an aryl halide, each when its test passes, in that order |
| Aggregation.Aggregate.AddComponent | OLASIMAN_ORD/ord_scraper.py:301-334 | a component adds the entries of its identifiers, in order |
| Aggregation.Aggregate.AddSlot | OLASIMAN_ORD/ord_scraper.py:297-334 | a slot adds the entries of its components, in order, each under the category the key gives |
| Aggregation.Aggregate.AddReaction | OLASIMAN_ORD/ord_scraper.py:296-334 | a decoded reaction adds the entries of its slots, in order |
| Aggregation.Aggregate.AddItem | OLASIMAN_ORD/ord_scraper.py:288-295 | an item without a non-empty reaction id or a decoded record adds nothing; otherwise it adds its reaction's entries |
| Aggregation.ResultOfInLockStep | OLASIMAN_ORD/ord_scraper.py:338 | whatever was filed, the returned tables are in lock-step and every count is positive |
| Aggregation.AggregateItems | OLASIMAN_ORD/ord_scraper.py:285-338 | the aggregation loop returns the tables of its items' entries, in lock-step and with positive counts |
| Output.SmilesOnly | OLASIMAN_ORD/ord_scraper.py:369-373 | `smiles_only` alone: every category keeps its key and its SMILES items; computed by FilterRaw, characterised by FilteredRaw |
| Output.BaseOnly | OLASIMAN_ORD/ord_scraper.py:364-367 | `base_only`: the Base counts and the Base items, the items filtered under `smiles_only` too; characterised by FilteredCounts and FilteredRaw |
| Output.Filtered | OLASIMAN_ORD/ord_scraper.py:363-374 | what `main` stores for a dataset under the two flags; characterised by FilteredCounts, FilteredRaw and FilteredCountsBound |
| Output.SmilesItemsMembership | OLASIMAN_ORD/ord_scraper.py:372 | the SMILES filter keeps every copy of each SMILES item and no other item |
| Output.SmilesItemsSubsequence | OLASIMAN_ORD/ord_scraper.py:372 | the kept items keep their order |
| Output.SmilesItemsIdempotent | OLASIMAN_ORD/ord_scraper.py:372 | filtering twice is filtering once |
| Output.OccurrencesOfSubsequence | OLASIMAN_ORD/ord_scraper.py:365 | leaving items out never adds an occurrence of a value |
| Output.FilterRaw | OLASIMAN_ORD/ord_scraper.py:369-373 | the loop over the evidence table builds a table with the same keys, each list filtered to its SMILES items |
| Output.FilteredCounts | OLASIMAN_ORD/ord_scraper.py:364-374 | counts are never filtered: without `base_only` they are the dataset's own; with it, Base is the only category of both tables and its counts are the dataset's Base counts, none when there are none |
| Output.FilteredRaw | OLASIMAN_ORD/ord_scraper.py:364-374 | every stored list is the dataset's list for that category, reduced to its SMILES items under `smiles_only`; so it is a subsequence of it, and under `smiles_only` it holds exactly that list's SMILES items |
| Output.FilteredCountsBound | OLASIMAN_ORD/ord_scraper.py:364-374 | after filtering, a count is at least the number of kept items with its value |
| Output.SmilesOnlyBreaksLockStep | OLASIMAN_ORD/ord_scraper.py:369-374 | the bound is all that survives: a non-SMILES base keeps its count and loses its item |
| Datasets.FirstMatch | OLASIMAN_ORD/ord_scraper.py:355 | `re.search` finds no match exactly when the pattern matches nowhere; otherwise it finds the leftmost start where it matches |
| Datasets.DatasetIdIn | OLASIMAN_ORD/ord_scraper.py:355-357 | the id `re.search` finds in a URL, if any; characterised by DatasetIdLeftmost and DatasetIdShape |
| Datasets.DatasetIdLeftmost | OLASIMAN_ORD/ord_scraper.py:355-356 | no id exactly when the pattern matches nowhere; otherwise the id is the text matched at the leftmost match |
| Datasets.DatasetIdShape | OLASIMAN_ORD/ord_scraper.py:355-357 | a found id is `ord_dataset-` followed by one or more ASCII letters or digits, and it occurs in the URL |
| Datasets.MatchedTextShape | OLASIMAN_ORD/ord_scraper.py:355-357 | the text matched at a start is the prefix and the run of alphanumerics after it, taken from that position |
| Datasets.CollectIds | OLASIMAN_ORD/ord_scraper.py:353-357 | the loop over the URL arguments collects the ids found in them, in order |
| Datasets.IdsFromUrlsSound | OLASIMAN_ORD/ord_scraper.py:353-357 | every collected id was found in one of the URLs, and there are no more ids than URLs |
| Datasets.IdsFromUrlsComplete | OLASIMAN_ORD/ord_scraper.py:353-357 | every URL that holds an id contributes it |
| Datasets.TargetIds | OLASIMAN_ORD/ord_scraper.py:358 | with no explicit and no URL ids every listed dataset is a target; otherwise exactly the explicit and URL ids are |
| Datasets.Outcomes | OLASIMAN_ORD/ord_scraper.py:360-376 | there is one outcome per scrape |
| Datasets.OutcomeOfFetch | OLASIMAN_ORD/ord_scraper.py:361-376 | a scrape leaves a result exactly when it did not raise, and the result is its items' aggregate after the output filters |
| Datasets.Scrape | OLASIMAN_ORD/ord_scraper.py:361-376 | one dataset of the loop yields the filtered aggregate of its items, or nothing when its scrape raised |
| Datasets.Run | OLASIMAN_ORD/ord_scraper.py:359-376 | the loop of `main` builds the table the scrape outcomes determine, target by target |
| Datasets.Results | OLASIMAN_ORD/ord_scraper.py:359-376 | the output table after the first n targets; characterised by ResultsKeys and ResultsLastSuccessWins, and built by Run |
| Datasets.ResultsKeys | OLASIMAN_ORD/ord_scraper.py:359-376 | an id is in the output exactly when one of its scrapes succeeded |
| Datasets.ResultsLastSuccessWins | OLASIMAN_ORD/ord_scraper.py:367-374 | an id holds the result of its last successful scrape; a later failure keeps it |

## Left out

- The network is out of the model: listing datasets, submitting a query,
  polling `fetch_query_result` with its sleeps and timeout, and
  `get_reaction_summary_html`. Their results are inputs: the dataset list,
  one `Fetch` per target (its items, or a failure), and the parsed summary.
- File output, JSON, `argparse` and `print` are out of the model. Run returns
  the table that `main` writes.
- HTML parsing with BeautifulSoup (`find_all`, `get_text(strip=True)`, the
  first link of a row) is out of the model. A summary arrives as its rows
  (stripped cell texts and the optional link text) and as the captures of
  `{lab}\s*:\s*([^\n\r<]+)`. The `finditer` scan itself and its
  case-insensitive label matching are not modelled. The captures are inputs,
  grouped by label in the source's label order.
- base64 decoding, protobuf parsing and `_enum_name` are out of the model. A
  decoded record is an input `Reaction`, and roles and identifier types are
  their enumeration names as strings. An item whose payload is missing, fails
  to decode, or meets `HAS_ORD` false has no record. A role that is not an
  int (`role_name` None) matches no role branch, which is what any name other
  than the four gives.
- `try`/`except` is modelled only through these outcomes. A decode failure
  raises before anything is appended. A failing dataset is a `Failed` fetch
  and leaves the table unchanged.
- The protobuf map `rxn.inputs` has no defined iteration order. The model
  takes the order of the input sequence.
- `time.sleep` between items is out of the model.
- Lower-casing and `\d` are modelled on ASCII: `Lower` maps only `A`–`Z`,
  and `\d` is `0`–`9`. Unicode case mapping (for example of `İ`), which can
  change a string's length, is not modelled. `strip()` is not restricted to
  ASCII: it uses Python's full whitespace set.
- `if data:` in `main` is always true for the dictionary `aggregate_dataset`
  returns, so the model has no such branch.
- The Exam2 helpers (`string_utils.py`) are not part of this model. They are
  not called by the scraper.
