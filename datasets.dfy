/** The driver of the command line: which datasets to scrape, and the table
    of per-dataset results it writes out. */
module Datasets {
  import opened Wrappers
  import opened Strings
  import opened Aggregation
  import opened Output

  const ID_PREFIX: string := "ord_dataset-"

  predicate IsAlnum(c: char) {
    ('a' <= c <= 'z') || ('A' <= c <= 'Z') || ('0' <= c <= '9')
  }

  /** The length of the run of `[A-Za-z0-9]` characters starting at `j`. */
  function AlnumRun(s: string, j: nat): (n: nat)
    requires j <= |s|
    ensures j + n <= |s|
    ensures forall k :: j <= k < j + n ==> IsAlnum(s[k])
    ensures j + n == |s| || !IsAlnum(s[j + n])
    decreases |s| - j
  {
    if j < |s| && IsAlnum(s[j]) then 1 + AlnumRun(s, j + 1) else 0
  }

  /** `ord_dataset-[A-Za-z0-9]+` can match starting at `i`. */
  predicate MatchAt(u: string, i: nat) {
    At(u, i, ID_PREFIX) && i + |ID_PREFIX| < |u| && IsAlnum(u[i + |ID_PREFIX|])
  }

  /** The leftmost start, at or after `i`, where the pattern matches. */
  function FirstMatch(u: string, i: nat): (r: Option<nat>)
    requires i <= |u|
    ensures r.None? <==> forall k :: i <= k <= |u| ==> !MatchAt(u, k)
    ensures r.Some? ==> i <= r.value <= |u| && MatchAt(u, r.value) && forall k :: i <= k < r.value ==> !MatchAt(u, k)
    decreases |u| - i
  {
    if MatchAt(u, i) then Some(i)
    else if i == |u| then None
    else FirstMatch(u, i + 1)
  }

  /** `re.search(r"ord_dataset-[A-Za-z0-9]+", u).group(0)`: the leftmost
      match, extended over every alphanumeric character that follows. */
  function DatasetIdIn(u: string): Option<string> {
    match FirstMatch(u, 0)
    case None => None
    case Some(i) => Some(MatchedText(u, i))
  }

  /** No id exactly when the pattern matches nowhere; otherwise the id is the
      text matched at the leftmost start where it matches. */
  lemma DatasetIdLeftmost(u: string)
    ensures DatasetIdIn(u).None? <==> forall k :: 0 <= k <= |u| ==> !MatchAt(u, k)
    ensures DatasetIdIn(u).Some? ==>
      exists i: nat :: i <= |u| && MatchAt(u, i) && (forall k :: 0 <= k < i ==> !MatchAt(u, k))
                       && DatasetIdIn(u).value == MatchedText(u, i)
  {
  }

  /** The text matched at a start where the pattern matches. */
  function MatchedText(u: string, i: nat): string
    requires MatchAt(u, i)
  {
    u[i..i + |ID_PREFIX| + AlnumRun(u, i + |ID_PREFIX|)]
  }

  /** What is matched at `i` is the prefix followed by one or more
      alphanumerics, taken from `u` at `i`. */
  lemma MatchedTextShape(u: string, i: nat)
    requires MatchAt(u, i)
    ensures var id := MatchedText(u, i);
            |id| > |ID_PREFIX| && id[..|ID_PREFIX|] == ID_PREFIX
            && (forall k :: |ID_PREFIX| <= k < |id| ==> IsAlnum(id[k]))
            && At(u, i, id)
  {
    var p := |ID_PREFIX|;
    var n := AlnumRun(u, i + p);
    var id := u[i..i + p + n];
    assert id[..p] == u[i..i + p] by {
      assert forall k :: 0 <= k < p ==> id[k] == u[i + k];
    }
    forall k | p <= k < |id| ensures IsAlnum(id[k]) {
      assert id[k] == u[i + k];
    }
  }

  /** A found id is the prefix followed by one or more alphanumerics, and it
      occurs in the URL. */
  lemma DatasetIdShape(u: string)
    requires DatasetIdIn(u).Some?
    ensures var id := DatasetIdIn(u).value;
            |id| > |ID_PREFIX| && id[..|ID_PREFIX|] == ID_PREFIX
            && (forall k :: |ID_PREFIX| <= k < |id| ==> IsAlnum(id[k]))
            && Contains(u, id)
  {
    var i := FirstMatch(u, 0).value;
    MatchedTextShape(u, i);
    assert DatasetIdIn(u).value == MatchedText(u, i);
  }

  /** The ids found in the URLs, in order; URLs without one are skipped. */
  function IdsFromUrls(urls: seq<string>): seq<string>
    decreases |urls|
  {
    if urls == [] then []
    else
      var init := IdsFromUrls(urls[..|urls| - 1]);
      match DatasetIdIn(urls[|urls| - 1])
      case None => init
      case Some(id) => init + [id]
  }

  /** The loop over the URL arguments. */
  method CollectIds(urls: seq<string>) returns (ids: seq<string>)
    ensures ids == IdsFromUrls(urls)
  {
    ids := [];
    var n := 0;
    while n < |urls|
      invariant 0 <= n <= |urls|
      invariant ids == IdsFromUrls(urls[..n])
    {
      assert urls[..n + 1][..n] == urls[..n];
      var m := DatasetIdIn(urls[n]);
      if m.Some? {
        ids := ids + [m.value];
      }
      n := n + 1;
    }
    assert urls[..n] == urls;
  }

  /** Every collected id is an id found in one of the URLs, and there are
      no more ids than URLs ... */
  lemma {:induction false} IdsFromUrlsSound(urls: seq<string>)
    ensures forall id :: id in IdsFromUrls(urls) ==> exists j :: 0 <= j < |urls| && DatasetIdIn(urls[j]) == Some(id)
    ensures |IdsFromUrls(urls)| <= |urls|
    decreases |urls|
  {
    if urls != [] {
      var init := urls[..|urls| - 1];
      IdsFromUrlsSound(init);
      forall id | id in IdsFromUrls(urls)
        ensures exists j :: 0 <= j < |urls| && DatasetIdIn(urls[j]) == Some(id)
      {
        if id in IdsFromUrls(init) {
          var j :| 0 <= j < |init| && DatasetIdIn(init[j]) == Some(id);
          assert urls[j] == init[j];
        }
      }
    }
  }

  /** ... and every URL that holds an id contributes it. */
  lemma {:induction false} IdsFromUrlsComplete(urls: seq<string>, j: nat)
    requires j < |urls| && DatasetIdIn(urls[j]).Some?
    ensures DatasetIdIn(urls[j]).value in IdsFromUrls(urls)
    decreases |urls|
  {
    if j < |urls| - 1 {
      var init := urls[..|urls| - 1];
      assert init[j] == urls[j];
      IdsFromUrlsComplete(init, j);
    }
  }

  /** Explicit ids from `--datasets` and from the URLs, in that order; every
      listed dataset when there are none. */
  function TargetIds(explicit: seq<string>, fromUrls: seq<string>, all: seq<string>): (r: seq<string>)
    ensures explicit == [] && fromUrls == [] ==> r == all
    ensures explicit != [] || fromUrls != [] ==> forall id :: id in r <==> id in explicit || id in fromUrls
  {
    if explicit == [] && fromUrls == [] then all else explicit + fromUrls
  }

  /** What the scrape of one dataset came to: its items, or an exception
      that made `main` skip it. */
  datatype Fetch = Fetched(items: seq<Item>) | Failed

  /** What is stored for a dataset that was scraped. */
  function Stored(items: seq<Item>, baseOnly: bool, smilesOnly: bool): AggregateResult {
    Filtered(ResultOf(DatasetEntries(items, |items|)), baseOnly, smilesOnly)
  }

  /** What one scrape leaves for the table: the stored result, or nothing. */
  function Outcome(f: Fetch, baseOnly: bool, smilesOnly: bool): Option<AggregateResult> {
    match f
    case Failed => None
    case Fetched(items) => Some(Stored(items, baseOnly, smilesOnly))
  }

  /** The outcomes of the scrapes, in order. */
  function Outcomes(fetches: seq<Fetch>, baseOnly: bool, smilesOnly: bool): (outs: seq<Option<AggregateResult>>)
    ensures |outs| == |fetches|
    decreases |fetches|
  {
    if fetches == [] then []
    else Outcomes(fetches[..|fetches| - 1], baseOnly, smilesOnly) + [Outcome(fetches[|fetches| - 1], baseOnly, smilesOnly)]
  }

  lemma {:induction false} OutcomesAt(fetches: seq<Fetch>, baseOnly: bool, smilesOnly: bool, k: nat)
    requires k < |fetches|
    ensures Outcomes(fetches, baseOnly, smilesOnly)[k] == Outcome(fetches[k], baseOnly, smilesOnly)
    decreases |fetches|
  {
    var init := fetches[..|fetches| - 1];
    if k < |init| {
      OutcomesAt(init, baseOnly, smilesOnly, k);
      assert init[k] == fetches[k];
    }
  }

  /** The output table after the first `n` datasets: each successful one is
      stored under its id, a later success for the same id replacing the
      earlier one, and a failure leaving the table as it was. */
  function Results(ids: seq<string>, outs: seq<Option<AggregateResult>>, n: nat): map<string, AggregateResult>
    requires |ids| == |outs| && n <= |ids|
  {
    if n == 0 then map[]
    else
      var prev := Results(ids, outs, n - 1);
      match outs[n - 1]
      case None => prev
      case Some(data) => prev[ids[n - 1] := data]
  }

  /** One dataset of the loop of `main`: aggregate its items, then apply the
      output filters; a failed scrape leaves nothing. */
  method Scrape(f: Fetch, baseOnly: bool, smilesOnly: bool) returns (o: Option<AggregateResult>)
    ensures o == Outcome(f, baseOnly, smilesOnly)
  {
    if f.Failed? {
      return None;
    }
    var data := AggregateItems(f.items);
    if baseOnly {
      data := BaseOnly(data, smilesOnly);
    } else if smilesOnly {
      var filtered := FilterRaw(data.raw);
      data := data.(raw := filtered);
    }
    o := Some(data);
  }

  /** The loop of `main` over the target ids. */
  method Run(ids: seq<string>, fetches: seq<Fetch>, baseOnly: bool, smilesOnly: bool) returns (result: map<string, AggregateResult>)
    requires |ids| == |fetches|
    ensures result == Results(ids, Outcomes(fetches, baseOnly, smilesOnly), |ids|)
  {
    ghost var outs := Outcomes(fetches, baseOnly, smilesOnly);
    result := map[];
    var n := 0;
    while n < |ids|
      invariant 0 <= n <= |ids|
      invariant result == Results(ids, outs, n)
    {
      var o := Scrape(fetches[n], baseOnly, smilesOnly);
      OutcomesAt(fetches, baseOnly, smilesOnly, n);
      if o.Some? {
        result := result[ids[n] := o.value];
      }
      n := n + 1;
    }
  }

  /** An id is in the table exactly when one of its scrapes succeeded ... */
  lemma {:induction false} ResultsKeys(ids: seq<string>, outs: seq<Option<AggregateResult>>, n: nat, id: string)
    requires |ids| == |outs| && n <= |ids|
    ensures id in Results(ids, outs, n) <==> exists j :: 0 <= j < n && ids[j] == id && outs[j].Some?
  {
    if n > 0 {
      ResultsKeys(ids, outs, n - 1, id);
    }
  }

  /** ... and then it holds the result of the last success. */
  lemma {:induction false} ResultsLastSuccessWins(ids: seq<string>, outs: seq<Option<AggregateResult>>, n: nat, j: nat)
    requires |ids| == |outs| && j < n <= |ids|
    requires outs[j].Some?
    requires forall k :: j < k < n && ids[k] == ids[j] ==> outs[k].None?
    ensures ids[j] in Results(ids, outs, n)
    ensures Results(ids, outs, n)[ids[j]] == outs[j].value
  {
    if j < n - 1 {
      ResultsLastSuccessWins(ids, outs, n - 1, j);
    }
  }

  /** A scrape leaves a result exactly when it succeeded, and the result is
      the filtered aggregate of its items. */
  lemma OutcomeOfFetch(fetches: seq<Fetch>, baseOnly: bool, smilesOnly: bool, j: nat)
    requires j < |fetches|
    ensures var o := Outcomes(fetches, baseOnly, smilesOnly)[j];
            (o.Some? <==> fetches[j].Fetched?)
            && (o.Some? ==> o.value == Stored(fetches[j].items, baseOnly, smilesOnly))
  {
    OutcomesAt(fetches, baseOnly, smilesOnly, j);
  }
}
