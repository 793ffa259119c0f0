/** The screener's entry point (`main` in OptionsWheel/analyze_stocks.py):
    the price pre-filter, the deep analysis, then `list.sort` of both result
    lists by `DiffPct`. Reading the ticker file and printing the two tables
    are not modelled; the providers and the indicator maths are parameters. */
module Screen {
  import opened PriceFilter
  import opened Criteria
  import opened Analysis
  import opened Sorting

  /** The sort key `lambda x: x['DiffPct']`. */
  function DiffPctOf(r: Record): real
  {
    r.diffPct
  }

  /** `main`: the two phases, then the two in-place sorts by `DiffPct`. Each
      final list is a permutation of what the analysis produced, ascending in
      `DiffPct`, with records of equal `DiffPct` in candidate order. */
  method RunScreen(tickers: seq<string>, quotes: QuoteFetch, history: HistoryFetch, measure: Measure)
    returns (candidates: seq<Candidate>, finalResults: seq<Record>, nearMisses: seq<Record>)
    requires OneRsiPerBar(measure)
    ensures candidates == Screened(tickers, quotes)
    ensures forall c :: c in candidates ==> c.price < PriceLimit
    ensures finalResults == SortBy(Passes(candidates, history, measure), DiffPctOf)
    ensures nearMisses == SortBy(NearMisses(candidates, history, measure), DiffPctOf)
    ensures multiset(finalResults) == multiset(Passes(candidates, history, measure))
    ensures multiset(nearMisses) == multiset(NearMisses(candidates, history, measure))
    ensures SortedBy(finalResults, DiffPctOf) && SortedBy(nearMisses, DiffPctOf)
    ensures forall k :: WithKey(finalResults, DiffPctOf, k) == WithKey(Passes(candidates, history, measure), DiffPctOf, k)
    ensures forall k :: WithKey(nearMisses, DiffPctOf, k) == WithKey(NearMisses(candidates, history, measure), DiffPctOf, k)
    ensures forall r :: r in finalResults ==> r.failedCriterion.None?
    ensures forall r :: r in nearMisses ==> r.failedCriterion.Some? && r.failedCriterion.value in Names(Order)
  {
    candidates := BatchPriceFilter(tickers, quotes);
    ScreenedBelowLimit(Batches(tickers), quotes);
    finalResults, nearMisses := DeepAnalysis(candidates, history, measure);
    ghost var passes, nears := finalResults, nearMisses;
    finalResults := SortBy(finalResults, DiffPctOf);
    nearMisses := SortBy(nearMisses, DiffPctOf);
    forall k ensures WithKey(finalResults, DiffPctOf, k) == WithKey(passes, DiffPctOf, k) {
      SortByStable(passes, DiffPctOf, k);
    }
    forall k ensures WithKey(nearMisses, DiffPctOf, k) == WithKey(nears, DiffPctOf, k) {
      SortByStable(nears, DiffPctOf, k);
    }
    forall r | r in finalResults ensures r.failedCriterion.None? {
      assert r in multiset(passes);
    }
    forall r | r in nearMisses ensures r.failedCriterion.Some? && r.failedCriterion.value in Names(Order) {
      assert r in multiset(nears);
    }
  }
}
