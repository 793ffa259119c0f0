/** The four bullish-pullback criteria of `deep_analysis`
    (OptionsWheel/analyze_stocks.py), evaluated against the latest figures of
    one ticker, and the split of their names into passed and failed. */
module Criteria {
  import opened Wrappers

  /** What the indicator maths leaves for one ticker. The criteria compare
      the unrounded last close, EMA(50) and ADX(14) and the whole RSI(14)
      series (its last value and the one three sessions before it); the
      record stores `report`, a separate set of figures. */
  datatype Snapshot = Snapshot(
    price: real,
    ema50: real,
    adx: real,
    rsi: seq<real>,
    report: Figures)

  /** The figures of a result row, each already passed through
      `round(..., 2)`: price, EMA(50), ADX, today's RSI, RVI, MACD and its
      signal line, and the ranking figure `DiffPct`. Rounding is not modelled,
      so nothing ties them to the unrounded values above. */
  datatype Figures = Figures(
    price: real,
    ema50: real,
    adx: real,
    rsi: real,
    rvi: real,
    macd: real,
    signal: real,
    diffPct: real)

  datatype Criterion = PriceAboveEma50 | AdxBelow30 | RsiInBand | RsiRising3d

  /** The display name of each criterion, used verbatim in the report. */
  function Name(c: Criterion): string
  {
    match c
    case PriceAboveEma50 => "Price > EMA50"
    case AdxBelow30 => "ADX < 30"
    case RsiInBand => "30 <= RSI <= 50"
    case RsiRising3d => "RSI Rising (3d)"
  }

  /** The criteria in the insertion order of the `conds` dictionary. */
  const Order: seq<Criterion> := [PriceAboveEma50, AdxBelow30, RsiInBand, RsiRising3d]

  function Names(cs: seq<Criterion>): (r: seq<string>)
    ensures |r| == |cs|
    ensures forall i :: 0 <= i < |cs| ==> r[i] == Name(cs[i])
  {
    if cs == [] then [] else [Name(cs[0])] + Names(cs[1..])
  }

  /** `rsi_series.iloc[-1]`. */
  function RsiToday(rsi: seq<real>): real
    requires |rsi| > 0
  {
    rsi[|rsi| - 1]
  }

  /** `rsi_series.iloc[-4] if len(rsi_series) >= 4 else None`. */
  function RsiThreeSessionsAgo(rsi: seq<real>): Option<real>
  {
    if |rsi| >= 4 then Some(rsi[|rsi| - 4]) else None
  }

  /** The value of one entry of `conds`. */
  predicate Holds(c: Criterion, s: Snapshot)
    requires |s.rsi| > 0
  {
    match c
    case PriceAboveEma50 => s.price > s.ema50
    case AdxBelow30 => s.adx < 30.0
    case RsiInBand => 30.0 <= RsiToday(s.rsi) <= 50.0
    case RsiRising3d =>
      var ago := RsiThreeSessionsAgo(s.rsi);
      ago.Some? && RsiToday(s.rsi) > ago.value
  }

  /** "RSI Rising (3d)" holds exactly when there are at least four RSI values
      and the last exceeds the one at index `len - 4`; a shorter series fails it. */
  lemma RsiRisingExactly(s: Snapshot)
    requires |s.rsi| > 0
    ensures Holds(RsiRising3d, s) <==> |s.rsi| >= 4 && s.rsi[|s.rsi| - 1] > s.rsi[|s.rsi| - 4]
    ensures |s.rsi| < 4 ==> !Holds(RsiRising3d, s)
  {
  }

  /** The names of the criteria of `cs` whose value is `outcome`, in order:
      the list comprehensions `passed` (outcome true) and `failed` (false). */
  function NamesWhere(cs: seq<Criterion>, s: Snapshot, outcome: bool): (r: seq<string>)
    requires |s.rsi| > 0
    ensures |r| <= |cs|
  {
    if cs == [] then []
    else if Holds(cs[0], s) == outcome then [Name(cs[0])] + NamesWhere(cs[1..], s, outcome)
    else NamesWhere(cs[1..], s, outcome)
  }

  /** A name is selected exactly when some criterion of `cs` carrying it has
      the wanted outcome. */
  lemma {:induction false} NamesWhereMembers(cs: seq<Criterion>, s: Snapshot, outcome: bool, n: string)
    requires |s.rsi| > 0
    ensures n in NamesWhere(cs, s, outcome) <==> exists c :: c in cs && Holds(c, s) == outcome && Name(c) == n
  {
    if cs != [] {
      NamesWhereMembers(cs[1..], s, outcome, n);
      assert forall c :: c in cs <==> c == cs[0] || c in cs[1..];
    }
  }

  function Passed(s: Snapshot): seq<string>
    requires |s.rsi| > 0
  {
    NamesWhere(Order, s, true)
  }

  function Failed(s: Snapshot): seq<string>
    requires |s.rsi| > 0
  {
    NamesWhere(Order, s, false)
  }

  /** `a` occurs in `b` in order, possibly with gaps. */
  predicate IsSubsequence(a: seq<string>, b: seq<string>)
    decreases |b|
  {
    if a == [] then true
    else if b == [] then false
    else if a[0] == b[0] then IsSubsequence(a[1..], b[1..])
    else IsSubsequence(a, b[1..])
  }

  /** Splitting any list of criteria by outcome loses no name, invents none
      and keeps the list's order on both sides. */
  lemma {:induction false} SplitPartitions(cs: seq<Criterion>, s: Snapshot)
    requires |s.rsi| > 0
    ensures multiset(NamesWhere(cs, s, true)) + multiset(NamesWhere(cs, s, false)) == multiset(Names(cs))
    ensures IsSubsequence(NamesWhere(cs, s, true), Names(cs))
    ensures IsSubsequence(NamesWhere(cs, s, false), Names(cs))
  {
    if cs != [] {
      SplitPartitions(cs[1..], s);
      assert Names(cs) == [Name(cs[0])] + Names(cs[1..]);
      assert Names(cs)[1..] == Names(cs[1..]);
      var pass := NamesWhere(cs[1..], s, true);
      var fail := NamesWhere(cs[1..], s, false);
      if Holds(cs[0], s) {
        assert NamesWhere(cs, s, true)[1..] == pass;
        SkipHead(fail, Names(cs));
      } else {
        assert NamesWhere(cs, s, false)[1..] == fail;
        SkipHead(pass, Names(cs));
      }
    }
  }

  /** A subsequence of the tail is a subsequence of the whole. */
  lemma {:induction false} SkipHead(a: seq<string>, b: seq<string>)
    requires b != [] && IsSubsequence(a, b[1..])
    ensures IsSubsequence(a, b)
    decreases |b|, 0
  {
    if a != [] && a[0] == b[0] {
      DropFirst(a, b[1..]);
    }
  }

  /** Dropping the first element of a subsequence keeps it one. */
  lemma {:induction false} DropFirst(a: seq<string>, c: seq<string>)
    requires a != [] && IsSubsequence(a, c)
    ensures IsSubsequence(a[1..], c)
    decreases |c|, 1
  {
    if a[0] == c[0] {
      SkipHead(a[1..], c);
    } else {
      DropFirst(a, c[1..]);
      SkipHead(a[1..], c);
    }
  }

  /** Distinct criteria have distinct display names. */
  lemma NameInjective(a: Criterion, b: Criterion)
    ensures Name(a) == Name(b) ==> a == b
  {
  }

  /** `passed` and `failed` partition the four criterion names: together they
      hold each name once and each keeps the fixed order. */
  lemma PassedFailedPartition(s: Snapshot)
    requires |s.rsi| > 0
    ensures multiset(Passed(s)) + multiset(Failed(s)) == multiset(Names(Order))
    ensures |Passed(s)| + |Failed(s)| == 4
    ensures IsSubsequence(Passed(s), Names(Order)) && IsSubsequence(Failed(s), Names(Order))
  {
    SplitPartitions(Order, s);
    assert |multiset(Passed(s))| + |multiset(Failed(s))| == |multiset(Names(Order))|;
  }

  /** Every failed name is the name of one of the four criteria. */
  lemma FailedNamesAreCriteria(s: Snapshot)
    requires |s.rsi| > 0
    ensures forall i :: 0 <= i < |Failed(s)| ==> Failed(s)[i] in Names(Order)
  {
    SplitPartitions(Order, s);
    forall i | 0 <= i < |Failed(s)| ensures Failed(s)[i] in Names(Order) {
      assert Failed(s)[i] in multiset(Failed(s));
      assert Failed(s)[i] in multiset(Names(Order));
    }
  }

  /** A criterion's name is in `failed` exactly when the criterion does not
      hold, and in `passed` exactly when it does. */
  lemma FailedExactly(s: Snapshot, c: Criterion)
    requires |s.rsi| > 0
    ensures Name(c) in Failed(s) <==> !Holds(c, s)
    ensures Name(c) in Passed(s) <==> Holds(c, s)
  {
    assert c in Order;
    NamesWhereMembers(Order, s, true, Name(c));
    NamesWhereMembers(Order, s, false, Name(c));
    forall c' | Name(c') == Name(c) ensures c' == c {
      NameInjective(c', c);
    }
  }

  /** Every criterion holds. */
  predicate AllHold(s: Snapshot)
    requires |s.rsi| > 0
  {
    forall k :: k in Order ==> Holds(k, s)
  }

  /** One criterion fails and every other one holds. */
  predicate ExactlyOneFails(s: Snapshot)
    requires |s.rsi| > 0
  {
    exists k :: k in Order && !Holds(k, s) && (forall k' :: k' in Order && k' != k ==> Holds(k', s))
  }

  /** Two different criteria fail. */
  predicate SeveralFail(s: Snapshot)
    requires |s.rsi| > 0
  {
    exists k1, k2 :: k1 in Order && k2 in Order && k1 != k2 && !Holds(k1, s) && !Holds(k2, s)
  }

  /** The name a criterion contributes to `failed`. */
  function Miss(k: Criterion, s: Snapshot): seq<string>
    requires |s.rsi| > 0
  {
    if Holds(k, s) then [] else [Name(k)]
  }

  /** `failed`, written out over the four criteria. */
  lemma FailedUnfold(s: Snapshot)
    requires |s.rsi| > 0
    ensures Failed(s) == Miss(PriceAboveEma50, s) + Miss(AdxBelow30, s) + Miss(RsiInBand, s) + Miss(RsiRising3d, s)
  {
    var o := Order;
    var o1, o2, o3 := o[1..], o[1..][1..], o[1..][1..][1..];
    assert o1 == [AdxBelow30, RsiInBand, RsiRising3d];
    assert o2 == [RsiInBand, RsiRising3d];
    assert o3 == [RsiRising3d] && o3[1..] == [];
    assert NamesWhere(o3, s, false) == Miss(RsiRising3d, s);
    assert NamesWhere(o2, s, false) == Miss(RsiInBand, s) + NamesWhere(o3, s, false);
    assert NamesWhere(o1, s, false) == Miss(AdxBelow30, s) + NamesWhere(o2, s, false);
    assert NamesWhere(o, s, false) == Miss(PriceAboveEma50, s) + NamesWhere(o1, s, false);
  }

  /** How many criteria fail, counted on the criteria. */
  lemma FailedCount(s: Snapshot)
    requires |s.rsi| > 0
    ensures |Failed(s)| == 0 <==> AllHold(s)
    ensures |Failed(s)| == 1 <==> ExactlyOneFails(s)
    ensures |Failed(s)| == 1 ==> exists k :: !Holds(k, s) && Failed(s) == [Name(k)]
    ensures |Failed(s)| >= 2 <==> SeveralFail(s)
  {
    FailedUnfold(s);
    var p, a, b, r := PriceAboveEma50, AdxBelow30, RsiInBand, RsiRising3d;
    forall k ensures k in Order {
      assert k == Order[0] || k == Order[1] || k == Order[2] || k == Order[3];
    }
    if |Failed(s)| == 1 {
      var k := if !Holds(p, s) then p else if !Holds(a, s) then a else if !Holds(b, s) then b else r;
      assert !Holds(k, s) && Failed(s) == [Name(k)];
      assert forall k' :: k' != k ==> Holds(k', s);
    }
    if |Failed(s)| >= 2 {
      var k1 := if !Holds(p, s) then p else if !Holds(a, s) then a else b;
      var k2 := if !Holds(r, s) then r else if !Holds(b, s) then b else a;
      assert k1 != k2 && !Holds(k1, s) && !Holds(k2, s);
    }
  }

  /** A ticker above its EMA(50), with RSI 40 rising from 35 three sessions
      earlier but ADX 35, fails "ADX < 30" and nothing else. */
  lemma AdxOnlyFailure()
    ensures var s := Snapshot(10.0, 9.0, 35.0, [35.0, 36.0, 38.0, 40.0], Figures(10.0, 9.0, 35.0, 40.0, 50.0, 0.1, 0.05, 11.11));
      Failed(s) == ["ADX < 30"] && Passed(s) == ["Price > EMA50", "30 <= RSI <= 50", "RSI Rising (3d)"]
  {
    var s := Snapshot(10.0, 9.0, 35.0, [35.0, 36.0, 38.0, 40.0], Figures(10.0, 9.0, 35.0, 40.0, 50.0, 0.1, 0.05, 11.11));
    FailedUnfold(s);
    assert Order[1..] == [AdxBelow30, RsiInBand, RsiRising3d];
    assert Order[1..][1..] == [RsiInBand, RsiRising3d];
    assert Order[1..][1..][1..] == [RsiRising3d];
  }
}
