/** Totals and percentages over all queries (mongolib, stats.go, aggregateCounters, calcTotalCounters
    and countersToStats).  Floats are reals, or not a number. */
module StatsTotals {
  import opened Options
  import opened Stats

  datatype Float = Num(value: real) | NaN

  function Plus(a: Float, b: Float): Float {
    if a.Num? && b.Num? then Num(a.value + b.value) else NaN
  }

  predicate Positive(a: Float) { a.Num? && 0.0 < a.value }

  function SumOf(samples: seq<real>): real {
    if samples == [] then 0.0 else SumOf(samples[..|samples| - 1]) + samples[|samples| - 1]
  }

  /** The library's sum; what it answers beside its error for no samples is a parameter: 0, or not a number. */
  function LibrarySum(samples: seq<real>, ofNone: Float): Float {
    if samples == [] then ofNone else Num(SumOf(samples))
  }

  /** The total of calcStats, which does not ask the library when there are no samples. */
  function TotalOf(info: Info, metric: Metric): real {
    SumOf(Samples(info.series, metric))
  }

  datatype Totals = Totals(
    count: nat,
    returned: Float,
    queryTime: Float,
    bytes: Float,
    docsExamined: Float,
    keysExamined: Float,
    databaseMicros: Float,
    bytesRead: Float,
    readMicros: Float)

  function Total(tc: Totals, metric: Metric): Float {
    match metric
    case Returned => tc.returned
    case QueryTime => tc.queryTime
    case Bytes => tc.bytes
    case DocsExamined => tc.docsExamined
    case KeysExamined => tc.keysExamined
    case DatabaseMicros => tc.databaseMicros
    case BytesRead => tc.bytesRead
    case ReadMicros => tc.readMicros
  }

  /** The samples of all queries in one. */
  function AllSamples(queries: seq<Info>, metric: Metric): seq<real> {
    if queries == [] then []
    else AllSamples(queries[..|queries| - 1], metric) + Samples(queries[|queries| - 1].series, metric)
  }

  function AllCounts(queries: seq<Info>): nat {
    if queries == [] then 0 else AllCounts(queries[..|queries| - 1]) + queries[|queries| - 1].count
  }

  function SumOfSums(queries: seq<Info>, metric: Metric, ofNone: Float): Float {
    if queries == [] then Num(0.0)
    else Plus(SumOfSums(queries[..|queries| - 1], metric, ofNone),
              LibrarySum(Samples(queries[|queries| - 1].series, metric), ofNone))
  }

  function Appended(a: Series, b: Series): Series {
    Series(a.nReturned + b.nReturned, a.queryTime + b.queryTime, a.responseLength + b.responseLength,
           a.docsExamined + b.docsExamined, a.keysExamined + b.keysExamined, a.databaseMicros + b.databaseMicros,
           a.bytesRead + b.bytesRead, a.readMicros + b.readMicros)
  }

  method AggregateCounters(queries: seq<Info>) returns (count: nat, series: Series)
    ensures count == AllCounts(queries)
    ensures forall metric :: Samples(series, metric) == AllSamples(queries, metric)
  {
    count, series := 0, NO_SAMPLES;
    for i := 0 to |queries|
      invariant count == AllCounts(queries[..i])
      invariant forall metric :: Samples(series, metric) == AllSamples(queries[..i], metric)
    {
      assert queries[..i + 1][..i] == queries[..i];
      count := count + queries[i].count;
      ghost var before := series;
      series := Appended(series, queries[i].series);
      assert forall metric :: Samples(series, metric) == Samples(before, metric) + Samples(queries[i].series, metric);
    }
    assert queries[..|queries|] == queries;
  }

  function Added(tc: Totals, info: Info, ofNone: Float): Totals {
    Totals(
      tc.count + info.count,
      Plus(tc.returned, LibrarySum(info.series.nReturned, ofNone)),
      Plus(tc.queryTime, LibrarySum(info.series.queryTime, ofNone)),
      Plus(tc.bytes, LibrarySum(info.series.responseLength, ofNone)),
      Plus(tc.docsExamined, LibrarySum(info.series.docsExamined, ofNone)),
      Plus(tc.keysExamined, LibrarySum(info.series.keysExamined, ofNone)),
      Plus(tc.databaseMicros, LibrarySum(info.series.databaseMicros, ofNone)),
      Plus(tc.bytesRead, LibrarySum(info.series.bytesRead, ofNone)),
      Plus(tc.readMicros, LibrarySum(info.series.readMicros, ofNone)))
  }

  const NOTHING := Totals(0, Num(0.0), Num(0.0), Num(0.0), Num(0.0), Num(0.0), Num(0.0), Num(0.0), Num(0.0))

  /** The totals of a list of queries, metric by metric. */
  function TotalsOf(queries: seq<Info>, ofNone: Float): (tc: Totals)
    ensures tc.count == AllCounts(queries)
    ensures forall metric :: Total(tc, metric) == SumOfSums(queries, metric, ofNone)
  {
    if queries == [] then NOTHING else Added(TotalsOf(queries[..|queries| - 1], ofNone), queries[|queries| - 1], ofNone)
  }

  method CalcTotalCounters(queries: seq<Info>, ofNone: Float) returns (tc: Totals)
    ensures tc == TotalsOf(queries, ofNone)
  {
    tc := NOTHING;
    for i := 0 to |queries|
      invariant tc == TotalsOf(queries[..i], ofNone)
    {
      assert queries[..i + 1][..i] == queries[..i];
      tc := Added(tc, queries[i], ofNone);
    }
    assert queries[..|queries|] == queries;
  }

  lemma {:induction false} SumOfBoth(a: seq<real>, b: seq<real>)
    ensures SumOf(a + b) == SumOf(a) + SumOf(b)
  {
    if b == [] {
      assert a + b == a;
    } else {
      SumOfBoth(a, b[..|b| - 1]);
      assert (a + b)[..|a + b| - 1] == a + b[..|b| - 1];
    }
  }

  predicate AllSampled(queries: seq<Info>, metric: Metric) {
    forall i :: 0 <= i < |queries| ==> Samples(queries[i].series, metric) != []
  }

  lemma AllSampledStep(queries: seq<Info>, metric: Metric)
    requires queries != []
    ensures AllSampled(queries, metric) <==>
      AllSampled(queries[..|queries| - 1], metric) && Samples(queries[|queries| - 1].series, metric) != []
  {
    var n := |queries| - 1;
    if AllSampled(queries[..n], metric) && Samples(queries[n].series, metric) != [] {
      forall i | 0 <= i < |queries| ensures Samples(queries[i].series, metric) != [] {
        assert i < n ==> queries[i] == queries[..n][i];
      }
    }
  }

  lemma SumStep(a: seq<real>, b: seq<real>, ofNone: Float)
    requires ofNone == NaN || ofNone == Num(0.0)
    ensures Plus(Num(SumOf(a)), LibrarySum(b, ofNone)) == if b == [] && ofNone == NaN then NaN else Num(SumOf(a + b))
  {
    SumOfBoth(a, b);
  }

  /** The sum of the sums is the sum of the aggregated samples, exactly if the library sums nothing to 0 or
      every query has a sample; if not, it is not a number. */
  lemma {:induction false} TotalsAgree(queries: seq<Info>, metric: Metric, ofNone: Float)
    requires ofNone == NaN || ofNone == Num(0.0)
    ensures SumOfSums(queries, metric, ofNone) ==
      if ofNone == Num(0.0) || AllSampled(queries, metric) then Num(SumOf(AllSamples(queries, metric))) else NaN
  {
    if queries == [] {
    } else {
      var front, last := queries[..|queries| - 1], queries[|queries| - 1];
      TotalsAgree(front, metric, ofNone);
      AllSampledStep(queries, metric);
      SumStep(AllSamples(front, metric), Samples(last.series, metric), ofNone);
    }
  }

  // ---- percentages

  /** A part of a whole, in percent. */
  function Share(part: real, whole: real): real
    requires 0.0 < whole
  {
    part * 100.0 / whole
  }

  lemma SharesAdd(sum: real, a: real, b: real, whole: real, pctA: real, pctB: real)
    requires 0.0 < whole && sum == a + b && pctA == Share(a, whole) && pctB == Share(b, whole)
    ensures Share(sum, whole) == pctA + pctB
  {
  }

  lemma ShareOfAll(whole: real)
    requires 0.0 < whole
    ensures Share(whole, whole) == 100.0
  {
  }

  function Pct(info: Info, metric: Metric, tc: Totals): real {
    var total := Total(tc, metric);
    if Positive(total) then Share(TotalOf(info, metric), total.value) else 0.0
  }

  datatype QueryStats = QueryStats(count: nat, pct: map<Metric, real>, total: map<Metric, real>, ratio: real)

  const METRICS := {Returned, QueryTime, Bytes, DocsExamined, KeysExamined, DatabaseMicros, BytesRead, ReadMicros}

  function CountersToStats(info: Info, tc: Totals): QueryStats {
    QueryStats(
      info.count,
      map metric | metric in METRICS :: Pct(info, metric, tc),
      map metric | metric in METRICS :: TotalOf(info, metric),
      if 0.0 < TotalOf(info, Returned) then TotalOf(info, DocsExamined) / TotalOf(info, Returned) else 0.0)
  }

  method CalcQueriesStats(queries: seq<Info>, ofNone: Float) returns (qs: seq<QueryStats>)
    ensures |qs| == |queries|
    ensures forall i :: 0 <= i < |queries| ==> qs[i] == CountersToStats(queries[i], TotalsOf(queries, ofNone))
  {
    qs := [];
    var totals := CalcTotalCounters(queries, ofNone);
    for i := 0 to |queries|
      invariant |qs| == i && forall j :: 0 <= j < i ==> qs[j] == CountersToStats(queries[j], totals)
    {
      qs := qs + [CountersToStats(queries[i], totals)];
    }
  }

  function SumOfPcts(queries: seq<Info>, metric: Metric, tc: Totals): real {
    if queries == [] then 0.0
    else SumOfPcts(queries[..|queries| - 1], metric, tc) + Pct(queries[|queries| - 1], metric, tc)
  }

  lemma SumOfAllNext(queries: seq<Info>, metric: Metric)
    requires queries != []
    ensures SumOf(AllSamples(queries, metric))
         == SumOf(AllSamples(queries[..|queries| - 1], metric)) + TotalOf(queries[|queries| - 1], metric)
  {
    SumOfBoth(AllSamples(queries[..|queries| - 1], metric), Samples(queries[|queries| - 1].series, metric));
  }

  lemma {:induction false} PctsOfTotal(queries: seq<Info>, metric: Metric, tc: Totals)
    requires Positive(Total(tc, metric))
    ensures SumOfPcts(queries, metric, tc) == Share(SumOf(AllSamples(queries, metric)), Total(tc, metric).value)
  {
    if queries == [] {
    } else {
      var front, last := queries[..|queries| - 1], queries[|queries| - 1];
      PctsOfTotal(front, metric, tc);
      SumOfAllNext(queries, metric);
      SharesAdd(SumOf(AllSamples(queries, metric)), SumOf(AllSamples(front, metric)), TotalOf(last, metric),
                Total(tc, metric).value,
                SumOfPcts(front, metric, tc), Pct(last, metric, tc));
    }
  }

  lemma {:induction false} NoPcts(queries: seq<Info>, metric: Metric, tc: Totals)
    requires !Positive(Total(tc, metric))
    ensures SumOfPcts(queries, metric, tc) == 0.0
  {
    if queries == [] {
    } else {
      NoPcts(queries[..|queries| - 1], metric, tc);
    }
  }

  /** Where the total of a metric is positive, the percentages of the queries add up to 100; otherwise all
      of them are 0. */
  lemma PctsAddUp(queries: seq<Info>, metric: Metric, ofNone: Float)
    requires ofNone == NaN || ofNone == Num(0.0)
    ensures var tc := TotalsOf(queries, ofNone);
            SumOfPcts(queries, metric, tc) == if Positive(Total(tc, metric)) then 100.0 else 0.0
  {
    var tc := TotalsOf(queries, ofNone);
    if Positive(Total(tc, metric)) {
      TotalsAgree(queries, metric, ofNone);
      PctsOfTotal(queries, metric, tc);
      ShareOfAll(Total(tc, metric).value);
    } else {
      NoPcts(queries, metric, tc);
    }
  }

  // ---- the counts of all queries

  function CountOfKeys(f: Fingerprinter, docs: seq<Profile>, keys: seq<GroupKey>): nat {
    if keys == [] then 0 else CountOfKeys(f, docs, keys[..|keys| - 1]) + |OfKey(f, docs, keys[|keys| - 1])|
  }

  function CountIn(f: Fingerprinter, doc: Profile, keys: seq<GroupKey>): nat {
    match f(doc)
    case None => 0
    case Some(key) => multiset(keys)[key]
  }

  lemma CountInMore(f: Fingerprinter, doc: Profile, keys: seq<GroupKey>, key: GroupKey)
    ensures CountIn(f, doc, keys + [key]) == CountIn(f, doc, keys) + if f(doc) == Some(key) then 1 else 0
  {
  }

  lemma {:induction false} OneMoreDocument(f: Fingerprinter, docs: seq<Profile>, keys: seq<GroupKey>)
    requires docs != []
    ensures CountOfKeys(f, docs, keys) == CountOfKeys(f, docs[..|docs| - 1], keys)
      + CountIn(f, docs[|docs| - 1], keys)
  {
    if keys == [] {
    } else {
      OneMoreDocument(f, docs, keys[..|keys| - 1]);
      CountInMore(f, docs[|docs| - 1], keys[..|keys| - 1], keys[|keys| - 1]);
      assert keys == keys[..|keys| - 1] + [keys[|keys| - 1]];
    }
  }

  lemma {:induction false} NoDocuments(f: Fingerprinter, keys: seq<GroupKey>)
    ensures CountOfKeys(f, [], keys) == 0
  {
    if keys == [] {
    } else {
      NoDocuments(f, keys[..|keys| - 1]);
    }
  }

  /** Under a list of all their keys, each once, every document counts once. */
  lemma {:induction false} EveryDocumentCounts(f: Fingerprinter, docs: seq<Profile>, keys: seq<GroupKey>)
    requires forall i :: 0 <= i < |docs| ==> f(docs[i]).Some? && multiset(keys)[f(docs[i]).value] == 1
    ensures CountOfKeys(f, docs, keys) == |docs|
  {
    if docs == [] {
      NoDocuments(f, keys);
    } else {
      EveryDocumentCounts(f, docs[..|docs| - 1], keys);
      OneMoreDocument(f, docs, keys);
    }
  }

  lemma {:induction false} OfItsKey(f: Fingerprinter, docs: seq<Profile>, i: nat, key: GroupKey)
    requires i < |docs| && f(docs[i]) == Some(key)
    ensures OfKey(f, docs, key) != []
  {
    if i == |docs| - 1 {
    } else {
      OfItsKey(f, docs[..|docs| - 1], i, key);
    }
  }

  lemma {:induction false} CountsByKey(f: Fingerprinter, docs: seq<Profile>, m: map<GroupKey, Info>, queries: seq<Info>)
    requires IsGrouped(f, docs, m)
    requires forall i :: 0 <= i < |queries| ==> queries[i].key in m && queries[i] == m[queries[i].key]
    ensures AllCounts(queries) == CountOfKeys(f, docs, KeysOf(queries))
  {
    if queries == [] {
    } else {
      var front, last := queries[..|queries| - 1], queries[|queries| - 1];
      CountsByKey(f, docs, m, front);
      assert Counts(f, docs, m, last.key);
      assert KeysOf(queries)[..|queries| - 1] == KeysOf(front);
    }
  }

  /** The counts that Queries reports add up to the number of documents that were added. */
  lemma CountsAddUp(f: Fingerprinter, docs: seq<Profile>, m: map<GroupKey, Info>, queries: seq<Info>)
    requires IsGrouped(f, docs, m) && Reports(queries, m)
    ensures AllCounts(queries) == |docs|
  {
    CountsByKey(f, docs, m, queries);
    forall i | 0 <= i < |docs| ensures multiset(KeysOf(queries))[f(docs[i]).value] == 1 {
      OfItsKey(f, docs, i, f(docs[i]).value);
      assert Counts(f, docs, m, f(docs[i]).value);
    }
    EveryDocumentCounts(f, docs, KeysOf(queries));
  }
}
