/** Phase 2 and 3 of the screener: for each candidate, fetch its price
    history, discard it when the history is unusable, evaluate the four
    criteria and file it as a pass, a near miss or nothing
    (`deep_analysis` in OptionsWheel/analyze_stocks.py). The indicator maths
    is a parameter: `measure` turns the bars into a `Snapshot`. */
module Analysis {
  import opened Wrappers
  import opened Sequences
  import opened PriceFilter
  import opened Criteria

  /** A ticker needs at least this many quotes to be analysed. */
  const MinQuotes: nat := 60

  datatype Scalar = Num(n: real) | Text(s: string)

  /** One element of the `quotes` array; its keys become the frame's columns. */
  datatype Bar = Bar(fields: map<string, Scalar>)

  /** The historical provider's JSON object; `quotes` is `None` when the key is missing. */
  datatype Response = Response(quotes: Option<seq<Bar>>)

  /** The historical provider, by symbol; `None` is a failed request or an empty object. */
  type HistoryFetch = string -> Option<Response>

  /** The indicator maths over one ticker's bars (date normalisation and
      sorting, EMA, RSI, ADX, MACD, RVI, DiffPct and rounding). */
  type Measure = seq<Bar> -> Snapshot

  /** pandas keeps one RSI value per row of the frame. */
  ghost predicate OneRsiPerBar(measure: Measure)
  {
    forall bars :: |measure(bars).rsi| == |bars|
  }

  /** A result row; `failedCriterion` is the optional `'Failed Criterion'` key. */
  datatype Record = Record(
    symbol: string,
    name: Option<string>,
    price: real,
    ema50: real,
    adx: real,
    rsi: real,
    rvi: real,
    macd: real,
    signal: real,
    diffPct: real,
    failedCriterion: Option<string>)

  /** What happens to one candidate. */
  datatype Verdict = Discarded | Pass(record: Record) | NearMiss(record: Record) | Dropped

  /** `data.get('quotes', [])`. */
  function QuotesOf(resp: Response): seq<Bar>
  {
    if resp.quotes.Some? then resp.quotes.value else []
  }

  /** `pd.DataFrame(quotes).empty`: no rows, or no column because no bar has a key. */
  predicate FrameEmpty(bars: seq<Bar>)
  {
    bars == [] || forall i :: 0 <= i < |bars| ==> bars[i].fields == map[]
  }

  /** `res_data`, before any `'Failed Criterion'` is added: the candidate's
      symbol and name with the rounded figures. */
  function MakeRecord(c: Candidate, s: Snapshot): Record
  {
    var f := s.report;
    Record(c.symbol, c.name, f.price, f.ema50, f.adx, f.rsi, f.rvi, f.macd, f.signal, f.diffPct, None)
  }

  /** The body of the candidate loop. */
  function Classify(c: Candidate, data: Option<Response>, measure: Measure): (v: Verdict)
    requires OneRsiPerBar(measure)
    ensures v.Discarded? <==> data.None? || |QuotesOf(data.value)| < MinQuotes || FrameEmpty(QuotesOf(data.value))
    ensures v.Pass? ==> v.record.failedCriterion.None?
    ensures v.NearMiss? ==> v.record.failedCriterion.Some? && v.record.failedCriterion.value in Names(Order)
    ensures (v.Pass? || v.NearMiss?) ==> v.record.symbol == c.symbol && v.record.name == c.name
  {
    match data
    case None => Discarded
    case Some(resp) =>
      var quotes := QuotesOf(resp);
      if |quotes| < MinQuotes then Discarded
      else if FrameEmpty(quotes) then Discarded
      else
        var s := measure(quotes);
        var failed := Failed(s);
        var record := MakeRecord(c, s);
        if |failed| == 0 then Pass(record)
        else if |failed| == 1 then
          FailedNamesAreCriteria(s);
          NearMiss(record.(failedCriterion := Some(failed[0])))
        else Dropped
  }

  /** Which verdict a usable history gets, by the length of `failed`. */
  lemma ClassifyByFailedCount(c: Candidate, data: Option<Response>, measure: Measure, s: Snapshot)
    requires OneRsiPerBar(measure)
    requires data.Some? && |QuotesOf(data.value)| >= MinQuotes && !FrameEmpty(QuotesOf(data.value))
    requires s == measure(QuotesOf(data.value))
    ensures |s.rsi| > 0
    ensures Classify(c, data, measure).Pass? <==> |Failed(s)| == 0
    ensures Classify(c, data, measure).NearMiss? <==> |Failed(s)| == 1
    ensures Classify(c, data, measure).NearMiss? ==>
      Classify(c, data, measure).record.failedCriterion == Some(Failed(s)[0])
    ensures Classify(c, data, measure).Dropped? <==> |Failed(s)| >= 2
    ensures Classify(c, data, measure).Pass? || Classify(c, data, measure).NearMiss? ==>
      Classify(c, data, measure).record.(failedCriterion := None) == MakeRecord(c, s)
  {
  }

  /** The classification in terms of the criteria themselves: PASS when all
      four hold, NEAR when exactly one fails, nothing when two or more fail. */
  lemma ClassifyByCriteria(c: Candidate, data: Option<Response>, measure: Measure, s: Snapshot)
    requires OneRsiPerBar(measure)
    requires data.Some? && |QuotesOf(data.value)| >= MinQuotes && !FrameEmpty(QuotesOf(data.value))
    requires s == measure(QuotesOf(data.value))
    ensures |s.rsi| > 0
    ensures Classify(c, data, measure).Pass? <==> AllHold(s)
    ensures Classify(c, data, measure).NearMiss? <==> ExactlyOneFails(s)
    ensures Classify(c, data, measure).Dropped? <==> SeveralFail(s)
  {
    ClassifyByFailedCount(c, data, measure, s);
    FailedCount(s);
  }

  /** A near miss records the one criterion that failed: a criterion fails
      exactly when its name is the record's `Failed Criterion`. */
  lemma NearMissNamesFailure(c: Candidate, data: Option<Response>, measure: Measure, s: Snapshot, k: Criterion)
    requires OneRsiPerBar(measure)
    requires data.Some? && |QuotesOf(data.value)| >= MinQuotes && !FrameEmpty(QuotesOf(data.value))
    requires s == measure(QuotesOf(data.value))
    requires Classify(c, data, measure).NearMiss?
    ensures |s.rsi| > 0
    ensures !Holds(k, s) <==> Classify(c, data, measure).record.failedCriterion == Some(Name(k))
  {
    ClassifyByFailedCount(c, data, measure, s);
    FailedCount(s);
    var k0 :| !Holds(k0, s) && Failed(s) == [Name(k0)];
    NameInjective(k0, k);
    if !Holds(k, s) {
      FailedExactly(s, k);
    }
  }

  /** The verdict of one candidate, with its history fetched by symbol. */
  function Judge(c: Candidate, history: HistoryFetch, measure: Measure): Verdict
    requires OneRsiPerBar(measure)
  {
    Classify(c, history(c.symbol), measure)
  }

  /** What a verdict adds to `results`. */
  function PassRecord(v: Verdict): seq<Record>
  {
    if v.Pass? then [v.record] else []
  }

  /** What a verdict adds to `near_misses`. */
  function NearRecord(v: Verdict): seq<Record>
  {
    if v.NearMiss? then [v.record] else []
  }

  /** `results`: the PASS records, in candidate order. */
  function Passes(cands: seq<Candidate>, history: HistoryFetch, measure: Measure): (r: seq<Record>)
    requires OneRsiPerBar(measure)
    ensures |r| <= |cands|
    ensures forall i :: 0 <= i < |r| ==> r[i].failedCriterion.None?
  {
    if cands == [] then []
    else
      PassRecord(Judge(cands[0], history, measure)) + Passes(cands[1..], history, measure)
  }

  /** `near_misses`: the NEAR records, in candidate order. */
  function NearMisses(cands: seq<Candidate>, history: HistoryFetch, measure: Measure): (r: seq<Record>)
    requires OneRsiPerBar(measure)
    ensures |r| <= |cands|
    ensures forall i :: 0 <= i < |r| ==>
      r[i].failedCriterion.Some? && r[i].failedCriterion.value in Names(Order)
  {
    if cands == [] then []
    else
      NearRecord(Judge(cands[0], history, measure)) + NearMisses(cands[1..], history, measure)
  }

  /** `results` follows candidate order: the PASS records of a concatenation
      are those of its first part followed by those of its second. */
  lemma {:induction false} PassesAppend(a: seq<Candidate>, b: seq<Candidate>, history: HistoryFetch, measure: Measure)
    requires OneRsiPerBar(measure)
    ensures Passes(a + b, history, measure) == Passes(a, history, measure) + Passes(b, history, measure)
  {
    if a == [] {
      assert a + b == b;
    } else {
      var head := PassRecord(Judge(a[0], history, measure));
      assert (a + b)[0] == a[0] && (a + b)[1..] == a[1..] + b;
      PassesAppend(a[1..], b, history, measure);
      assert Passes(a + b, history, measure) == head + Passes(a[1..] + b, history, measure);
      assert Passes(a, history, measure) == head + Passes(a[1..], history, measure);
      AppendAssoc(head, Passes(a[1..], history, measure), Passes(b, history, measure));
    }
  }

  /** `near_misses` follows candidate order in the same way. */
  lemma {:induction false} NearMissesAppend(a: seq<Candidate>, b: seq<Candidate>, history: HistoryFetch, measure: Measure)
    requires OneRsiPerBar(measure)
    ensures NearMisses(a + b, history, measure) == NearMisses(a, history, measure) + NearMisses(b, history, measure)
  {
    if a == [] {
      assert a + b == b;
    } else {
      var head := NearRecord(Judge(a[0], history, measure));
      assert (a + b)[0] == a[0] && (a + b)[1..] == a[1..] + b;
      NearMissesAppend(a[1..], b, history, measure);
      assert NearMisses(a + b, history, measure) == head + NearMisses(a[1..] + b, history, measure);
      assert NearMisses(a, history, measure) == head + NearMisses(a[1..], history, measure);
      AppendAssoc(head, NearMisses(a[1..], history, measure), NearMisses(b, history, measure));
    }
  }

  /** A candidate that is discarded (failed fetch, fewer than 60 quotes, empty
      frame) or has two or more failures leaves no record in either list. */
  lemma NoRecordWithoutVerdict(a: seq<Candidate>, c: Candidate, b: seq<Candidate>, history: HistoryFetch, measure: Measure)
    requires OneRsiPerBar(measure)
    requires Judge(c, history, measure).Discarded? || Judge(c, history, measure).Dropped?
    ensures Passes(a + [c] + b, history, measure) == Passes(a + b, history, measure)
    ensures NearMisses(a + [c] + b, history, measure) == NearMisses(a + b, history, measure)
  {
    assert [c][1..] == [];
    assert Passes([c], history, measure) == PassRecord(Judge(c, history, measure)) + Passes([], history, measure);
    assert NearMisses([c], history, measure) == NearRecord(Judge(c, history, measure)) + NearMisses([], history, measure);
    assert a + [c] + b == a + ([c] + b);
    PassesAppend(a, [c] + b, history, measure);
    PassesAppend([c], b, history, measure);
    PassesAppend(a, b, history, measure);
    NearMissesAppend(a, [c] + b, history, measure);
    NearMissesAppend([c], b, history, measure);
    NearMissesAppend(a, b, history, measure);
    assert Passes([c] + b, history, measure) == Passes(b, history, measure);
    assert NearMisses([c] + b, history, measure) == NearMisses(b, history, measure);
  }

  /** Every record comes from a candidate whose verdict it is, and every
      candidate with a PASS or NEAR verdict contributes its record. */
  lemma {:induction false} RecordsFromCandidates(cands: seq<Candidate>, history: HistoryFetch, measure: Measure, r: Record)
    requires OneRsiPerBar(measure)
    ensures r in Passes(cands, history, measure) <==>
      exists c :: c in cands && Judge(c, history, measure) == Pass(r)
    ensures r in NearMisses(cands, history, measure) <==>
      exists c :: c in cands && Judge(c, history, measure) == NearMiss(r)
  {
    if cands != [] {
      RecordsFromCandidates(cands[1..], history, measure, r);
      assert forall c :: c in cands <==> c == cands[0] || c in cands[1..];
    }
  }

  /** One turn of the candidate loop extends both lists by what the
      candidate's verdict contributes. */
  lemma LoopStep(cands: seq<Candidate>, idx: nat, history: HistoryFetch, measure: Measure)
    requires OneRsiPerBar(measure)
    requires idx < |cands|
    ensures Passes(cands[..idx + 1], history, measure) ==
      Passes(cands[..idx], history, measure) + PassRecord(Judge(cands[idx], history, measure))
    ensures NearMisses(cands[..idx + 1], history, measure) ==
      NearMisses(cands[..idx], history, measure) + NearRecord(Judge(cands[idx], history, measure))
  {
    var c := cands[idx];
    assert cands[..idx + 1] == cands[..idx] + [c];
    PassesAppend(cands[..idx], [c], history, measure);
    NearMissesAppend(cands[..idx], [c], history, measure);
    assert [c][1..] == [];
    assert Passes([c], history, measure) == PassRecord(Judge(c, history, measure)) + Passes([], history, measure);
    assert NearMisses([c], history, measure) == NearRecord(Judge(c, history, measure)) + NearMisses([], history, measure);
  }

  /** `deep_analysis`: the loop over candidates appending to `results` and
      `near_misses`. */
  method DeepAnalysis(cands: seq<Candidate>, history: HistoryFetch, measure: Measure)
    returns (results: seq<Record>, nearMisses: seq<Record>)
    requires OneRsiPerBar(measure)
    ensures results == Passes(cands, history, measure)
    ensures nearMisses == NearMisses(cands, history, measure)
  {
    results := [];
    nearMisses := [];
    for idx := 0 to |cands|
      invariant results == Passes(cands[..idx], history, measure)
      invariant nearMisses == NearMisses(cands[..idx], history, measure)
    {
      var c := cands[idx];
      LoopStep(cands, idx, history, measure);
      var data := history(c.symbol);
      if data.None? {
        continue;
      }
      var quotes := QuotesOf(data.value);
      if |quotes| < MinQuotes {
        continue;
      }
      if FrameEmpty(quotes) {
        continue;
      }
      var s := measure(quotes);
      var failed := Failed(s);
      var record := MakeRecord(c, s);
      if |failed| == 0 {
        results := results + [record];
      } else if |failed| == 1 {
        nearMisses := nearMisses + [record.(failedCriterion := Some(failed[0]))];
      }
    }
    assert cands[..|cands|] == cands;
  }
}
