/** Phase 1 of the screener: query spot prices in fixed-size batches and keep
    the tickers quoted strictly below the price ceiling
    (`batch_price_filter` in OptionsWheel/analyze_stocks.py). */
module PriceFilter {
  import opened Wrappers
  import opened Sequences

  /** `BATCH_SIZE`: how many symbols go into one quote request. */
  const BatchSize: nat := 50

  /** `PRICE_LIMIT`: the exclusive price ceiling. */
  const PriceLimit: real := 100.0

  /** One element of the quote provider's JSON array. */
  datatype Item = Item(symbol: string, shortName: Field<string>, regularMarketPrice: Field<real>)

  /** A candidate passed on to the deep analysis. `name` is `None` exactly
      when the provider sent `shortName: null` (Python's `dict.get` only falls
      back to its default when the key is missing). */
  datatype Candidate = Candidate(symbol: string, price: real, name: Option<string>)

  /** The quote provider, one call per batch; `None` is a failed request. */
  type QuoteFetch = seq<string> -> Option<seq<Item>>

  /** `item.get('regularMarketPrice')`: `None` for a missing key and for `null`. */
  function MarketPrice(item: Item): Option<real>
  {
    match item.regularMarketPrice
    case Present(p) => Some(p)
    case _ => None
  }

  /** `item.get('shortName', '')`. */
  function DisplayName(item: Item): Option<string>
  {
    match item.shortName
    case Missing => Some("")
    case Null => None
    case Present(n) => Some(n)
  }

  predicate IsCheap(item: Item)
  {
    MarketPrice(item).Some? && MarketPrice(item).value < PriceLimit
  }

  function ToCandidate(item: Item): Candidate
    requires MarketPrice(item).Some?
  {
    Candidate(item.symbol, MarketPrice(item).value, DisplayName(item))
  }

  /** The candidates one quote response contributes, in response order. */
  function KeepCheap(items: seq<Item>): (r: seq<Candidate>)
    ensures |r| <= |items|
    ensures forall i :: 0 <= i < |r| ==> r[i].price < PriceLimit
  {
    if items == [] then []
    else if IsCheap(items[0]) then [ToCandidate(items[0])] + KeepCheap(items[1..])
    else KeepCheap(items[1..])
  }

  /** A candidate is kept exactly when some item of the response has a price
      below the ceiling and converts to it. */
  lemma {:induction false} KeepCheapMembers(items: seq<Item>, c: Candidate)
    ensures c in KeepCheap(items) <==> exists it :: it in items && IsCheap(it) && c == ToCandidate(it)
  {
    if items != [] {
      KeepCheapMembers(items[1..], c);
      assert forall it :: it in items <==> it == items[0] || it in items[1..];
    }
  }

  /** Keeping the cheap items of a concatenation keeps each part's in turn:
      the response order survives the filter. */
  lemma {:induction false} KeepCheapAppend(a: seq<Item>, b: seq<Item>)
    ensures KeepCheap(a + b) == KeepCheap(a) + KeepCheap(b)
  {
    if a != [] {
      assert (a + b)[1..] == a[1..] + b;
      KeepCheapAppend(a[1..], b);
    } else {
      assert a + b == b;
    }
  }

  /** What one batch contributes: nothing when the fetch failed (`None`) or
      returned an empty list, the cheap items otherwise. */
  function FromResponse(data: Option<seq<Item>>): seq<Candidate>
  {
    if data.Some? && data.value != [] then KeepCheap(data.value) else []
  }

  /** The consecutive slices `tickers[i:i+BATCH_SIZE]` for `i` in
      `range(0, len(tickers), BATCH_SIZE)`. */
  function Batches(tickers: seq<string>): (r: seq<seq<string>>)
    ensures forall j :: 0 <= j < |r| ==> 0 < |r[j]| <= BatchSize
    decreases |tickers|
  {
    if tickers == [] then []
    else if |tickers| <= BatchSize then [tickers]
    else [tickers[..BatchSize]] + Batches(tickers[BatchSize..])
  }

  function Concat(bs: seq<seq<string>>): seq<string>
  {
    if bs == [] then [] else bs[0] + Concat(bs[1..])
  }

  /** Batching loses nothing and reorders nothing; every batch is non-empty
      and at most `BATCH_SIZE` long, and only the last may be shorter. */
  lemma {:induction false} BatchesPartition(tickers: seq<string>)
    ensures Concat(Batches(tickers)) == tickers
    ensures forall b :: b in Batches(tickers) ==> 0 < |b| <= BatchSize
    ensures forall j :: 0 <= j < |Batches(tickers)| - 1 ==> |Batches(tickers)[j]| == BatchSize
  {
    if tickers != [] && |tickers| > BatchSize {
      var rest := tickers[BatchSize..];
      BatchesPartition(rest);
      var bs, later := Batches(tickers), Batches(rest);
      assert bs == [tickers[..BatchSize]] + later;
      assert bs[1..] == later;
      assert tickers[..BatchSize] + rest == tickers;
      forall j | 0 <= j < |bs| - 1 ensures |bs[j]| == BatchSize {
        if j > 0 {
          assert bs[j] == later[j - 1];
        }
      }
    }
  }

  /** Batch `j` is exactly the Python slice `tickers[j*BATCH_SIZE:(j+1)*BATCH_SIZE]`
      (Python clamps the upper bound to the length), and there are
      `ceil(len / BATCH_SIZE)` of them. */
  lemma {:induction false} BatchIsSlice(tickers: seq<string>, j: nat)
    ensures |Batches(tickers)| == (|tickers| + BatchSize - 1) / BatchSize
    ensures j < |Batches(tickers)| ==>
      j * BatchSize < |tickers| &&
      Batches(tickers)[j] == tickers[j * BatchSize .. if (j + 1) * BatchSize <= |tickers| then (j + 1) * BatchSize else |tickers|]
  {
    if tickers != [] && |tickers| > BatchSize {
      var rest := tickers[BatchSize..];
      BatchIsSlice(rest, if j > 0 then j - 1 else 0);
      if 0 < j < |Batches(tickers)| {
        assert Batches(tickers)[j] == Batches(rest)[j - 1];
        assert (j - 1) * BatchSize + BatchSize == j * BatchSize;
      }
    }
  }

  /** The candidates of a sequence of batches, batch after batch. */
  function ScreenBatches(bs: seq<seq<string>>, fetch: QuoteFetch): seq<Candidate>
  {
    if bs == [] then [] else FromResponse(fetch(bs[0])) + ScreenBatches(bs[1..], fetch)
  }

  /** The pre-filter's output, as a function of the ticker list and the provider. */
  function Screened(tickers: seq<string>, fetch: QuoteFetch): seq<Candidate>
  {
    ScreenBatches(Batches(tickers), fetch)
  }

  /** Every candidate has a present price strictly below the ceiling. */
  lemma {:induction false} ScreenedBelowLimit(bs: seq<seq<string>>, fetch: QuoteFetch)
    ensures forall c :: c in ScreenBatches(bs, fetch) ==> c.price < PriceLimit
  {
    if bs != [] {
      ScreenedBelowLimit(bs[1..], fetch);
      forall c | c in FromResponse(fetch(bs[0])) ensures c.price < PriceLimit {
        KeepCheapMembers(fetch(bs[0]).value, c);
      }
    }
  }

  /** A candidate comes from a cheap item of the response to some batch, and
      every cheap item of a non-empty response becomes a candidate. */
  lemma {:induction false} ScreenedProvenance(bs: seq<seq<string>>, fetch: QuoteFetch, c: Candidate)
    ensures c in ScreenBatches(bs, fetch) <==>
      exists b :: b in bs && fetch(b).Some? &&
        exists it :: it in fetch(b).value && IsCheap(it) && c == ToCandidate(it)
  {
    if bs != [] {
      ScreenedProvenance(bs[1..], fetch, c);
      if fetch(bs[0]).Some? {
        KeepCheapMembers(fetch(bs[0]).value, c);
      }
      assert forall b :: b in bs <==> b == bs[0] || b in bs[1..];
    }
  }

  /** Screening a list of batches is batch order, then response order. */
  lemma {:induction false} ScreenBatchesAppend(a: seq<seq<string>>, b: seq<seq<string>>, fetch: QuoteFetch)
    ensures ScreenBatches(a + b, fetch) == ScreenBatches(a, fetch) + ScreenBatches(b, fetch)
  {
    if a != [] {
      assert (a + b)[1..] == a[1..] + b;
      ScreenBatchesAppend(a[1..], b, fetch);
    } else {
      assert a + b == b;
    }
  }

  function Rest(tickers: seq<string>, i: nat): seq<string>
  {
    if i < |tickers| then tickers[i..] else []
  }

  /** One turn of the batch loop: the rest of the output is this batch's
      contribution followed by that of the tickers after it. */
  lemma ScreenedStep(tickers: seq<string>, i: nat, hi: nat, fetch: QuoteFetch)
    requires i < |tickers|
    requires hi == if i + BatchSize <= |tickers| then i + BatchSize else |tickers|
    ensures Screened(Rest(tickers, i), fetch) ==
      FromResponse(fetch(tickers[i..hi])) + Screened(Rest(tickers, i + BatchSize), fetch)
  {
    var t := tickers[i..];
    if i + BatchSize < |tickers| {
      assert t[..BatchSize] == tickers[i..i + BatchSize];
      assert t[BatchSize..] == tickers[i + BatchSize..];
      assert Batches(t) == [t[..BatchSize]] + Batches(t[BatchSize..]);
    } else {
      assert tickers[i..|tickers|] == t;
      assert Rest(tickers, i + BatchSize) == [];
      assert Batches(t) == [t];
      assert ScreenBatches([t], fetch) == FromResponse(fetch(t)) + ScreenBatches([], fetch);
    }
  }

  /** One turn of the item loop: the next item adds its candidate when it is cheap. */
  lemma ItemStep(items: seq<Item>, k: nat)
    requires k < |items|
    ensures KeepCheap(items[..k + 1]) ==
      KeepCheap(items[..k]) + (if IsCheap(items[k]) then [ToCandidate(items[k])] else [])
  {
    var item := items[k];
    KeepCheapAppend(items[..k], [item]);
    assert items[..k + 1] == items[..k] + [item];
    assert KeepCheap([item]) == if IsCheap(item) then [ToCandidate(item)] else [];
  }

  /** `batch_price_filter`: the loop over batches and, inside it, over the
      items of each response, appending to `candidates`. */
  method BatchPriceFilter(tickers: seq<string>, fetch: QuoteFetch) returns (candidates: seq<Candidate>)
    ensures candidates == Screened(tickers, fetch)
  {
    candidates := [];
    var i: nat := 0;
    assert Rest(tickers, 0) == tickers;
    while i < |tickers|
      invariant candidates + Screened(Rest(tickers, i), fetch) == Screened(tickers, fetch)
      decreases |tickers| - i
    {
      var hi := if i + BatchSize <= |tickers| then i + BatchSize else |tickers|;
      var batch := tickers[i..hi];
      var data := fetch(batch);
      ghost var before := candidates;
      if data.Some? && data.value != [] {
        var items := data.value;
        var k := 0;
        while k < |items|
          invariant 0 <= k <= |items|
          invariant candidates == before + KeepCheap(items[..k])
        {
          var item := items[k];
          ItemStep(items, k);
          if MarketPrice(item).Some? && MarketPrice(item).value < PriceLimit {
            AppendAssoc(before, KeepCheap(items[..k]), [ToCandidate(item)]);
            candidates := candidates + [ToCandidate(item)];
          }
          k := k + 1;
        }
        assert items[..k] == items;
      }
      ghost var got := FromResponse(fetch(batch));
      assert candidates == before + got;
      ghost var later := Screened(Rest(tickers, i + BatchSize), fetch);
      ScreenedStep(tickers, i, hi, fetch);
      AppendAssoc(before, got, later);
      i := i + BatchSize;
    }
  }

  /** Three tickers quoted at 50, 150 and 99 fit in one batch; the one at 150
      is left out and the others keep their order. */
  lemma ThreeTickerScreen()
    ensures var fetch: QuoteFetch := _ => Some([
        Item("AAA", Present("Alpha"), Present(50.0)),
        Item("BBB", Present("Beta"), Present(150.0)),
        Item("CCC", Missing, Present(99.0))]);
      Screened(["AAA", "BBB", "CCC"], fetch) == [Candidate("AAA", 50.0, Some("Alpha")), Candidate("CCC", 99.0, Some(""))]
  {
    var items := [
        Item("AAA", Present("Alpha"), Present(50.0)),
        Item("BBB", Present("Beta"), Present(150.0)),
        Item("CCC", Missing, Present(99.0))];
    var fetch: QuoteFetch := _ => Some(items);
    var t := ["AAA", "BBB", "CCC"];
    assert Batches(t) == [t];
    assert items[1..][1..] == [items[2]];
    assert KeepCheap(items) == [Candidate("AAA", 50.0, Some("Alpha")), Candidate("CCC", 99.0, Some(""))];
  }
}
