/** The aggregates both front ends show: the page's average card values,
    the logger's statistics block, and the page's per-day chart series.
    Every average is `Math.round(sum / count)` over JavaScript numbers, so a
    NaN value anywhere in a list makes that list's average NaN. */
module Stats {
  import opened JsNumbers
  import opened Records
  import opened Classifier

  datatype Measure = Systolic | Diastolic

  function Value(r: Reading, m: Measure): Num {
    match m
    case Systolic => r.systolic
    case Diastolic => r.diastolic
  }

  /** `data.map(r => r.systolic)` or `data.map(r => r.diastolic)`. */
  function Values(data: seq<Reading>, m: Measure): (xs: seq<Num>)
    ensures |xs| == |data|
    ensures forall k :: 0 <= k < |data| ==> xs[k] == Value(data[k], m)
  {
    if |data| == 0 then [] else [Value(data[0], m)] + Values(data[1..], m)
  }

  /** A reading whose heart rate passes `filter(r => r.heartRate)`. */
  predicate HasRate(r: Reading) {
    r.heartRate.Some? && Truthy(r.heartRate.value)
  }

  /** `data.filter(r => r.heartRate).map(r => r.heartRate)`: null, 0 and NaN
      heart rates are left out, the others kept in list order. */
  function HeartRates(data: seq<Reading>): (xs: seq<Num>)
    ensures |xs| <= |data|
    ensures forall k :: 0 <= k < |xs| ==> Truthy(xs[k])
    ensures forall k :: 0 <= k < |data| && HasRate(data[k]) ==> data[k].heartRate.value in xs
  {
    if |data| == 0 then []
    else
      var rest := HeartRates(data[1..]);
      assert forall k :: 0 < k < |data| ==> data[k] == data[1..][k - 1];
      if HasRate(data[0]) then [data[0].heartRate.value] + rest else rest
  }

  /** The heart-rate list is built reading by reading. */
  lemma {:induction false} HeartRatesAppend(a: seq<Reading>, b: seq<Reading>)
    ensures HeartRates(a + b) == HeartRates(a) + HeartRates(b)
  {
    if |a| > 0 {
      var ab := a + b;
      assert ab[0] == a[0] && ab[1..] == a[1..] + b;
      HeartRatesAppend(a[1..], b);
      var tail := HeartRates(a[1..]) + HeartRates(b);
      assert HeartRates(ab) == if HasRate(a[0]) then [a[0].heartRate.value] + tail else tail;
      if HasRate(a[0]) {
        assert [a[0].heartRate.value] + tail
            == ([a[0].heartRate.value] + HeartRates(a[1..])) + HeartRates(b);
      }
    } else {
      assert a + b == b;
    }
  }

  /** One reading contributes its heart rate exactly when it is truthy. */
  lemma HeartRatesSingle(r: Reading)
    ensures HeartRates([r]) == if HasRate(r) then [r.heartRate.value] else []
  {
    assert [r][1..] == [];
  }

  /** The list of heart rates is empty exactly when no reading has a
      truthy heart rate. */
  lemma {:induction false} NoHeartRates(data: seq<Reading>)
    ensures HeartRates(data) == [] <==> forall k :: 0 <= k < |data| ==> !HasRate(data[k])
  {
    if |data| > 0 {
      NoHeartRates(data[1..]);
      assert forall k :: 0 < k < |data| ==> data[k] == data[1..][k - 1];
    }
  }

  /** The page's `avg`: 0 for an empty list, otherwise the rounded mean. */
  function PageAverage(xs: seq<Num>): (r: Num)
    ensures |xs| == 0 ==> r == Int(0)
    ensures |xs| > 0 ==> IsRoundedMean(r, xs)
    ensures AllInt(xs) ==> r.Int?
  {
    if |xs| == 0 then Int(0) else MeanNum(xs)
  }

  // ---------------------------------------------------------------------
  // The page's statistics cards

  datatype PageStats = PageStats(avgSys: Num, avgDia: Num, avgHR: Num, total: nat)

  function Average(s: PageStats, m: Measure): Num {
    match m
    case Systolic => s.avgSys
    case Diastolic => s.avgDia
  }

  /** calculateStats: no statistics for an empty list; otherwise the
      rounded means of systolic and diastolic, the rounded mean of the
      truthy heart rates (0 when there are none) and the count. */
  function CalculateStats(data: seq<Reading>): (s: Option<PageStats>)
    ensures s.None? <==> |data| == 0
    ensures s.Some? ==> s.value.total == |data|
    ensures s.Some? ==> IsRoundedMean(s.value.avgSys, Values(data, Systolic))
    ensures s.Some? ==> IsRoundedMean(s.value.avgDia, Values(data, Diastolic))
    ensures s.Some? ==> s.value.avgHR.Int?
    ensures s.Some? && HeartRates(data) != [] ==> IsRoundedMean(s.value.avgHR, HeartRates(data))
    ensures s.Some? && HeartRates(data) == [] ==> s.value.avgHR == Int(0)
  {
    if |data| == 0 then None
    else
      var hr := HeartRates(data);
      assert AllInt(hr);
      Some(PageStats(PageAverage(Values(data, Systolic)), PageAverage(Values(data, Diastolic)),
                     PageAverage(hr), |data|))
  }

  /** On integer values the page's average of a measure lies between the
      smallest and the largest value of that measure. */
  lemma PageAverageWithinRange(data: seq<Reading>, m: Measure)
    requires |data| > 0 && AllInt(Values(data, m))
    ensures var a := Average(CalculateStats(data).value, m);
      MinNum(Values(data, m)).n <= a.n <= MaxNum(Values(data, m)).n
  {
    MeanWithinRange(Values(data, m));
  }

  /** The page's heart-rate average lies between the smallest and the
      largest truthy heart rate. */
  lemma PageHeartRateWithinRange(data: seq<Reading>)
    requires HeartRates(data) != []
    ensures var hr := HeartRates(data);
      MinNum(hr).n <= CalculateStats(data).value.avgHR.n <= MaxNum(hr).n
  {
    MeanWithinRange(HeartRates(data));
  }

  /** Two readings, 118/76 with heart rate 60 and 122/81 with heart rate 65,
      average to 120/79 with heart rate 63: both halves round upwards. */
  lemma TwoReadingAverages(a: Reading, b: Reading)
    requires a.systolic == Int(118) && a.diastolic == Int(76) && a.heartRate == Some(Int(60))
    requires b.systolic == Int(122) && b.diastolic == Int(81) && b.heartRate == Some(Int(65))
    ensures CalculateStats([a, b]) == Some(PageStats(Int(120), Int(79), Int(63), 2))
  {
    var data := [a, b];
    assert data[1..] == [b];
    assert [b][1..] == [];
    assert Values(data, Systolic) == [Int(118), Int(122)];
    assert Values(data, Diastolic) == [Int(76), Int(81)];
    assert HeartRates(data) == [Int(60), Int(65)];
    assert SumNum([Int(118), Int(122)]) == Int(240);
    assert SumNum([Int(76), Int(81)]) == Int(157);
    assert SumNum([Int(60), Int(65)]) == Int(125);
    assert RoundDiv(240, 2) == 120 && RoundDiv(157, 2) == 79 && RoundDiv(125, 2) == 63;
  }

  // ---------------------------------------------------------------------
  // The logger's statistics block

  datatype Summary = Summary(
    total: nat,
    avgSys: Num,
    avgDia: Num,
    status: Category,
    avgHR: Option<Num>,
    maxSys: Num,
    maxDia: Num,
    minSys: Num,
    minDia: Num)

  /** showStats: nothing for an empty list; otherwise the rounded means, the
      category of the mean pair, the heart-rate mean only when some heart
      rate is truthy, and the highest and lowest systolic and diastolic,
      each taken on its own. */
  function LoggerStats(data: seq<Reading>): (s: Option<Summary>)
    ensures s.None? <==> |data| == 0
    ensures s.Some? ==> s.value.total == |data|
    ensures s.Some? ==> s.value.status == Classify(s.value.avgSys, s.value.avgDia)
    ensures s.Some? ==> (s.value.avgHR.None? <==> HeartRates(data) == [])
    ensures s.Some? && s.value.avgHR.Some? ==> IsRoundedMean(s.value.avgHR.value, HeartRates(data))
    ensures s.Some? ==> IsRoundedMean(s.value.avgSys, Values(data, Systolic))
    ensures s.Some? ==> IsRoundedMean(s.value.avgDia, Values(data, Diastolic))
    ensures s.Some? ==> IsMaximum(s.value.maxSys, Values(data, Systolic))
    ensures s.Some? ==> IsMaximum(s.value.maxDia, Values(data, Diastolic))
    ensures s.Some? ==> IsMinimum(s.value.minSys, Values(data, Systolic))
    ensures s.Some? ==> IsMinimum(s.value.minDia, Values(data, Diastolic))
  {
    if |data| == 0 then None
    else
      var sys, dia, hr := Values(data, Systolic), Values(data, Diastolic), HeartRates(data);
      var avgSys, avgDia := MeanNum(sys), MeanNum(dia);
      Some(Summary(|data|, avgSys, avgDia, Classify(avgSys, avgDia),
                   if |hr| > 0 then Some(MeanNum(hr)) else None,
                   MaxNum(sys), MaxNum(dia), MinNum(sys), MinNum(dia)))
  }

  function Highest(s: Summary, m: Measure): Num {
    match m
    case Systolic => s.maxSys
    case Diastolic => s.maxDia
  }

  function Lowest(s: Summary, m: Measure): Num {
    match m
    case Systolic => s.minSys
    case Diastolic => s.minDia
  }

  function Mean(s: Summary, m: Measure): Num {
    match m
    case Systolic => s.avgSys
    case Diastolic => s.avgDia
  }

  /** On integer values the logger's average of a measure lies between its
      lowest and highest value of that measure. */
  lemma LoggerAverageWithinRange(data: seq<Reading>, m: Measure)
    requires |data| > 0 && AllInt(Values(data, m))
    ensures var s := LoggerStats(data).value;
      && Lowest(s, m).Int? && Mean(s, m).Int? && Highest(s, m).Int?
      && Lowest(s, m).n <= Mean(s, m).n <= Highest(s, m).n
  {
    MeanWithinRange(Values(data, m));
  }

  /** On integer values the logger's lowest and highest value of a measure
      bound that measure on every reading. */
  lemma LoggerExtremesBound(data: seq<Reading>, m: Measure)
    requires |data| > 0 && AllInt(Values(data, m))
    ensures var s := LoggerStats(data).value;
      forall k :: 0 <= k < |data| ==>
        && Value(data[k], m).Int?
        && Lowest(s, m).n <= Value(data[k], m).n <= Highest(s, m).n
  {
    forall k | 0 <= k < |data|
      ensures Value(data[k], m).Int?
      ensures MinNum(Values(data, m)).n <= Value(data[k], m).n <= MaxNum(Values(data, m)).n
    {
      assert Values(data, m)[k] == Value(data[k], m);
    }
  }

  /** "Highest" pairs the largest systolic with the largest diastolic even
      when they come from different readings, so it can name a pair no
      reading has. */
  lemma HighestMayMixReadings(a: Reading, b: Reading)
    requires a.systolic.Int? && a.diastolic.Int? && b.systolic.Int? && b.diastolic.Int?
    requires a.systolic.n > b.systolic.n && b.diastolic.n > a.diastolic.n
    ensures var s := LoggerStats([a, b]).value;
      && s.maxSys == a.systolic && s.maxDia == b.diastolic
      && (a.systolic, a.diastolic) != (s.maxSys, s.maxDia)
      && (b.systolic, b.diastolic) != (s.maxSys, s.maxDia)
  {
    var data := [a, b];
    assert data[1..] == [b];
    assert Values(data, Systolic) == [a.systolic, b.systolic];
    assert Values(data, Diastolic) == [a.diastolic, b.diastolic];
    LargerOfTwo(a.systolic, b.systolic);
    LargerOfTwo(a.diastolic, b.diastolic);
  }

  lemma LargerOfTwo(x: Num, y: Num)
    requires x.Int? && y.Int?
    ensures MaxNum([x, y]) == if x.n >= y.n then x else y
  {
    assert [x, y][1..] == [y];
  }

  /** Where both show them, the page and the logger report the same
      averages and count; the logger omits the heart-rate average exactly
      where the page shows 0 for lack of heart rates. */
  lemma PageAndLoggerAgree(data: seq<Reading>)
    requires |data| > 0
    ensures var p, l := CalculateStats(data).value, LoggerStats(data).value;
      && p.avgSys == l.avgSys && p.avgDia == l.avgDia && p.total == l.total
      && (l.avgHR.Some? ==> l.avgHR.value == p.avgHR)
      && (l.avgHR.None? ==> p.avgHR == Int(0))
  {
  }

  // ---------------------------------------------------------------------
  // The page's chart

  /** The values of one measure over the readings dated `day`, in list
      order: the bucket `last14[day]` collects. */
  function DayValues(data: seq<Reading>, day: string, m: Measure): (xs: seq<Num>)
    ensures |xs| <= |data|
    ensures |xs| == 0 <==> forall k :: 0 <= k < |data| ==> data[k].date != day
    ensures forall k :: 0 <= k < |data| && data[k].date == day ==> Value(data[k], m) in xs
  {
    if |data| == 0 then []
    else
      var rest := DayValues(data[1..], day, m);
      assert forall k :: 0 < k < |data| ==> data[k] == data[1..][k - 1];
      if data[0].date == day then [Value(data[0], m)] + rest else rest
  }

  lemma {:induction false} DayValuesAppend(a: seq<Reading>, b: seq<Reading>, day: string, m: Measure)
    ensures DayValues(a + b, day, m) == DayValues(a, day, m) + DayValues(b, day, m)
  {
    if |a| > 0 {
      var ab := a + b;
      assert ab[0] == a[0] && ab[1..] == a[1..] + b;
      DayValuesAppend(a[1..], b, day, m);
      var tail := DayValues(a[1..], day, m) + DayValues(b, day, m);
      assert DayValues(ab, day, m) == if a[0].date == day then [Value(a[0], m)] + tail else tail;
      if a[0].date == day {
        assert [Value(a[0], m)] + tail == ([Value(a[0], m)] + DayValues(a[1..], day, m)) + DayValues(b, day, m);
      }
    } else {
      assert a + b == b;
    }
  }

  /** One reading adds its value to its own day's bucket and to no other. */
  lemma DayValuesSingle(r: Reading, day: string, m: Measure)
    ensures DayValues([r], day, m) == if r.date == day then [Value(r, m)] else []
  {
    assert [r][1..] == [];
  }

  /** The chart's `avg`: null for an empty bucket. */
  function ChartAverage(xs: seq<Num>): (r: Option<Num>)
    ensures r.None? <==> |xs| == 0
  {
    if |xs| == 0 then None else Some(MeanNum(xs))
  }

  /** One chart series over the day keys, oldest first: an entry per key,
      null when no reading has that date, otherwise the rounded mean of the
      day's values. */
  function Series(data: seq<Reading>, days: seq<string>, m: Measure): (s: seq<Option<Num>>)
    ensures |s| == |days|
    ensures forall i :: 0 <= i < |days| ==>
      (s[i].None? <==> forall k :: 0 <= k < |data| ==> data[k].date != days[i])
    ensures forall i :: 0 <= i < |days| && s[i].Some? ==>
      s[i].value == MeanNum(DayValues(data, days[i], m))
  {
    if |days| == 0 then []
    else [ChartAverage(DayValues(data, days[0], m))] + Series(data, days[1..], m)
  }

  /** A reading of another day adds nothing to a day's values. */
  lemma DayValuesSkip(a: seq<Reading>, r: Reading, b: seq<Reading>, day: string, m: Measure)
    requires r.date != day
    ensures DayValues(a + [r] + b, day, m) == DayValues(a + b, day, m)
  {
    assert DayValues([r], day, m) == [] by { assert [r][1..] == []; }
    DayValuesAppend(a, [r], day, m);
    assert DayValues(a + [r], day, m) == DayValues(a, day, m);
    DayValuesAppend(a + [r], b, day, m);
    DayValuesAppend(a, b, day, m);
  }

  /** The names every JavaScript object inherits from Object.prototype.
      Looking one of them up in the chart's day buckets finds a function
      rather than nothing. */
  predicate InheritedKey(s: string) {
    s in ["constructor", "__proto__", "hasOwnProperty", "isPrototypeOf",
          "propertyIsEnumerable", "toLocaleString", "toString", "valueOf",
          "__defineGetter__", "__defineSetter__", "__lookupGetter__", "__lookupSetter__"]
  }

  /** A reading dated outside the chart's days changes no series, wherever
      it stands in the list. A date naming an inherited member is excluded:
      the chart's lookup finds that member and then fails. */
  lemma {:induction false} SeriesIgnoresOtherDays(a: seq<Reading>, r: Reading, b: seq<Reading>,
                                                  days: seq<string>, m: Measure)
    requires r.date !in days && !InheritedKey(r.date)
    ensures Series(a + [r] + b, days, m) == Series(a + b, days, m)
  {
    if |days| > 0 {
      DayValuesSkip(a, r, b, days[0], m);
      assert r.date !in days[1..] by { assert forall d :: d in days[1..] ==> d in days; }
      SeriesIgnoresOtherDays(a, r, b, days[1..], m);
    }
  }

  /** A chart point over integer values lies between the day's smallest
      and largest value. */
  lemma SeriesPointWithinRange(data: seq<Reading>, days: seq<string>, m: Measure, i: nat)
    requires i < |days|
    requires exists k :: 0 <= k < |data| && data[k].date == days[i]
    requires AllInt(DayValues(data, days[i], m))
    ensures var xs := DayValues(data, days[i], m);
      && Series(data, days, m)[i].Some?
      && MinNum(xs).n <= Series(data, days, m)[i].value.n <= MaxNum(xs).n
  {
    MeanWithinRange(DayValues(data, days[i], m));
  }
}
