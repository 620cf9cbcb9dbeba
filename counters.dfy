/** The `defaultdict(Counter)` tables of the scraper: category -> value ->
    number of occurrences, grown one `table[cat][value] += 1` at a time. */
module Counters {

  type Counts = map<string, map<string, nat>>

  /** `table[cat][v]` read through the defaults: 0 when either key is absent. */
  function CountOf(m: Counts, cat: string, v: string): nat {
    if cat in m && v in m[cat] then m[cat][v] else 0
  }

  /** Every count that is stored is at least one, as in a table that is only
      ever incremented. */
  ghost predicate Positive(m: Counts) {
    forall c, v :: c in m && v in m[c] ==> m[c][v] > 0
  }

  /** `table[cat][v] += 1` on a `defaultdict(Counter)`: the one count goes up
      by one, every other count stays, and `cat` becomes a key. */
  function Bump(m: Counts, cat: string, v: string): (r: Counts)
    ensures CountOf(r, cat, v) == CountOf(m, cat, v) + 1
    ensures forall c, w :: c != cat || w != v ==> CountOf(r, c, w) == CountOf(m, c, w)
    ensures r.Keys == m.Keys + {cat}
    ensures Positive(m) ==> Positive(r)
  {
    var row := if cat in m then m[cat] else map[];
    m[cat := row[v := CountOf(m, cat, v) + 1]]
  }

  /** The table obtained by bumping every (category, value) pair of `ps`, in order. */
  function Tally(ps: seq<(string, string)>): Counts
    decreases |ps|
  {
    if ps == [] then map[]
    else
      var last := ps[|ps| - 1];
      Bump(Tally(ps[..|ps| - 1]), last.0, last.1)
  }

  /** Bumping one more pair is one more `+= 1`. */
  lemma TallySnoc(ps: seq<(string, string)>, x: (string, string))
    ensures Tally(ps + [x]) == Bump(Tally(ps), x.0, x.1)
  {
    assert (ps + [x])[..|ps|] == ps;
  }

  /** Every count of the tally is the number of times its pair was bumped. */
  lemma {:induction false} TallyCounts(ps: seq<(string, string)>)
    ensures forall c, v :: CountOf(Tally(ps), c, v) == multiset(ps)[(c, v)]
    decreases |ps|
  {
    if ps != [] {
      var init := ps[..|ps| - 1];
      TallyCounts(init);
      assert ps == init + [ps[|ps| - 1]];
    }
  }

  /** The tally's categories are exactly those that occur in `ps`, and every
      stored count is positive. */
  lemma {:induction false} TallyKeys(ps: seq<(string, string)>)
    ensures Positive(Tally(ps))
    ensures forall c :: c in Tally(ps) <==> exists i :: 0 <= i < |ps| && ps[i].0 == c
    decreases |ps|
  {
    if ps != [] {
      var init := ps[..|ps| - 1];
      TallyKeys(init);
      forall c | c in Tally(ps)
        ensures exists i :: 0 <= i < |ps| && ps[i].0 == c
      {
        if c != ps[|ps| - 1].0 {
          var i :| 0 <= i < |init| && init[i].0 == c;
          assert ps[i] == init[i];
        }
      }
      forall c | exists i :: 0 <= i < |ps| && ps[i].0 == c
        ensures c in Tally(ps)
      {
        var i :| 0 <= i < |ps| && ps[i].0 == c;
        if i < |init| {
          assert init[i] == ps[i];
        }
      }
    }
  }

  /** Tallies of concatenated evidence add up count by count: nothing is
      deduplicated. */
  lemma TallyAppend(ps: seq<(string, string)>, qs: seq<(string, string)>)
    ensures forall c, v :: CountOf(Tally(ps + qs), c, v) == CountOf(Tally(ps), c, v) + CountOf(Tally(qs), c, v)
  {
    TallyCounts(ps);
    TallyCounts(qs);
    TallyCounts(ps + qs);
  }
}
