/** The static tables of the scraper: keyword lists per category, the role
    words a summary table row can carry, and the map from input-slot keys to
    categories. All keywords are lower-case and are matched as substrings of
    the lower-cased identifier. */
module Keywords {

  // Category names, spelled as they appear in the output.
  const BASE: string := "Base"
  const SOLVENT: string := "Solvent"
  const LIGAND: string := "Ligand"
  const METAL: string := "Metal"
  const AMINE: string := "amine"
  const ARYL_HALIDE: string := "aryl halide"

  const AMINE_KEYWORDS: seq<string> := [
    "amine",
    "aniline",
    "nh2",
    "primary amine",
    "secondary amine",
    "tertiary amine"
  ]

  const ARYL_HALIDE_KEYWORDS: seq<string> := [
    "aryl halide",
    "chlorobenz",
    "bromobenz",
    "iodobenz",
    "chloro",
    "bromo",
    "iodo",
    "halide"
  ]

  // "kom e" is kept exactly as the table spells it.
  const BASE_KEYWORDS: seq<string> := [
    "carbonate",
    "bicarbonate",
    "hydroxide",
    "tert-butoxide",
    "otbu",
    "triethylamine",
    "dipea",
    "hunig",
    "dbu",
    "dbn",
    "k3po4",
    "k2co3",
    "cs2co3",
    "naoh",
    "koh",
    "naome",
    "kom e",
    "lihmds",
    "nahmds",
    "sodium hydride"
  ]

  const METAL_KEYWORDS: seq<string> := [
    "palladium",
    "pd",
    "nickel",
    "ni",
    "copper",
    "cu",
    "iron",
    "fe",
    "ruthenium",
    "ru",
    "iridium",
    "ir"
  ]

  const LIGAND_KEYWORDS: seq<string> := [
    "phos",
    "xphos",
    "sphos",
    "johnphos",
    "binap",
    "dppe",
    "dppf",
    "dppp",
    "bipy",
    "phen",
    "bipyridine",
    "phosphine",
    "pcy3"
  ]

  /** The alternatives of the regex `(carbonate|hydroxide|hmds|otbu|tert-?butoxide)`,
      the optional hyphen spelled out as two words. */
  const BASE_PATTERN_WORDS: seq<string> := [
    "carbonate",
    "hydroxide",
    "hmds",
    "otbu",
    "tert-butoxide",
    "tertbutoxide"
  ]

  /** The lower-case role words a summary table cell can hold. */
  const ROLE_WORDS: set<string> := {"solvent", "reagent", "reactant", "ligand", "metal", "base"}

  predicate IsRoleWord(w: string) {
    w in ROLE_WORDS
  }

  /** `INPUT_KEY_CATEGORY_MAP`: lower-cased input-slot key -> category. */
  const INPUT_KEY_CATEGORY: map<string, string> := map[
    "base" := BASE,
    "solvent" := SOLVENT,
    "ligand" := LIGAND,
    "metal" := METAL,
    "catalyst" := METAL,
    "amine" := AMINE,
    "aryl halide" := ARYL_HALIDE,
    "carboxylic acid" := "carboxylic acid",
    "activation agent" := "activation agent",
    "additive" := "additive"
  ]
}
