/** Where the fields of an entry, and of its statistics, come from (mongolib, stats.go, Add and countersToStats). */
module StatsFields {
  import opened KeyList
  import opened Sorting
  import opened Stats
  import opened StatsTotals

  /** The positive numbers of a list, as floats. */
  function Positives(numbers: seq<int>): seq<real> {
    if numbers == [] then [] else
      var last := numbers[|numbers| - 1];
      Positives(numbers[..|numbers| - 1]) + if 0 < last then [last as real] else []
  }

  function SumOfInts(numbers: seq<int>): int {
    if numbers == [] then 0 else SumOfInts(numbers[..|numbers| - 1]) + numbers[|numbers| - 1]
  }

  /** The numbers that are positive. */
  function PositiveInts(numbers: seq<int>): seq<int> {
    if numbers == [] then [] else
      var last := numbers[|numbers| - 1];
      PositiveInts(numbers[..|numbers| - 1]) + if 0 < last then [last] else []
  }

  function Column(docs: seq<Profile>, field: Profile -> int): (numbers: seq<int>)
    ensures |numbers| == |docs|
  {
    seq(|docs|, i requires 0 <= i < |docs| => field(docs[i]))
  }

  lemma ColumnFront(docs: seq<Profile>, field: Profile -> int)
    requires docs != []
    ensures Column(docs, field)[..|docs| - 1] == Column(docs[..|docs| - 1], field)
    ensures Column(docs, field)[|docs| - 1] == field(docs[|docs| - 1])
  {
  }

  lemma {:induction false} AlwaysSampled(docs: seq<Profile>, metric: Metric)
    requires forall doc :: Sampled(doc, metric)
    ensures |SamplesOf(docs, metric)| == |docs|
    ensures forall i :: 0 <= i < |docs| ==> SamplesOf(docs, metric)[i] == Measured(docs[i], metric) as real
  {
    if docs == [] {
    } else {
      AlwaysSampled(docs[..|docs| - 1], metric);
    }
  }

  lemma {:induction false} SampledIfPositive(docs: seq<Profile>, metric: Metric, field: Profile -> int)
    requires forall doc :: Measured(doc, metric) == field(doc) && (Sampled(doc, metric) <==> 0 < field(doc))
    ensures SamplesOf(docs, metric) == Positives(Column(docs, field))
  {
    if docs == [] {
    } else {
      SampledIfPositive(docs[..|docs| - 1], metric, field);
      ColumnFront(docs, field);
    }
  }

  /** Of every document come a number of documents returned, a time and a size; the other numbers come from the
      documents in which they are positive. */
  lemma SeriesByField(info: Info, docs: seq<Profile>)
    requires IsBatch(info, docs)
    ensures |info.series.nReturned| == |info.series.queryTime| == |info.series.responseLength| == |docs|
    ensures forall i :: 0 <= i < |docs| ==>
              && info.series.nReturned[i] == docs[i].nreturned as real
              && info.series.queryTime[i] == docs[i].millis as real
              && info.series.responseLength[i] == docs[i].responseLength as real
    ensures info.series.docsExamined == Positives(Column(docs, (doc: Profile) => doc.docsExamined))
    ensures info.series.keysExamined == Positives(Column(docs, (doc: Profile) => doc.keysExamined))
    ensures info.series.databaseMicros == Positives(Column(docs, (doc: Profile) => doc.databaseMicros))
    ensures info.series.bytesRead == Positives(Column(docs, (doc: Profile) => doc.bytesRead))
    ensures info.series.readMicros == Positives(Column(docs, (doc: Profile) => doc.readMicros))
  {
    AlwaysSampled(docs, Returned);
    AlwaysSampled(docs, QueryTime);
    AlwaysSampled(docs, Bytes);
    assert Samples(info.series, Returned) == SamplesOf(docs, Returned);
    assert Samples(info.series, QueryTime) == SamplesOf(docs, QueryTime);
    assert Samples(info.series, Bytes) == SamplesOf(docs, Bytes);
    SampledIfPositive(docs, DocsExamined, (doc: Profile) => doc.docsExamined);
    SampledIfPositive(docs, KeysExamined, (doc: Profile) => doc.keysExamined);
    SampledIfPositive(docs, DatabaseMicros, (doc: Profile) => doc.databaseMicros);
    SampledIfPositive(docs, BytesRead, (doc: Profile) => doc.bytesRead);
    SampledIfPositive(docs, ReadMicros, (doc: Profile) => doc.readMicros);
    assert Samples(info.series, DocsExamined) == SamplesOf(docs, DocsExamined);
    assert Samples(info.series, KeysExamined) == SamplesOf(docs, KeysExamined);
    assert Samples(info.series, DatabaseMicros) == SamplesOf(docs, DatabaseMicros);
    assert Samples(info.series, BytesRead) == SamplesOf(docs, BytesRead);
    assert Samples(info.series, ReadMicros) == SamplesOf(docs, ReadMicros);
  }

  /** How often there was something, and how much in all. */
  predicate Tallies(tally: Tally, numbers: seq<int>) {
    tally.count == |PositiveInts(numbers)| && tally.sum == SumOfInts(PositiveInts(numbers))
  }

  lemma {:induction false} TalliedIfPositive(docs: seq<Profile>, lock: Lock, field: Profile -> int)
    requires forall doc :: Acquired(doc, lock) == field(doc)
    ensures Tallies(TallyOf(docs, lock), Column(docs, field))
  {
    if docs == [] {
    } else {
      TalliedIfPositive(docs[..|docs| - 1], lock, field);
      ColumnFront(docs, field);
      var before, n := PositiveInts(Column(docs[..|docs| - 1], field)), field(docs[|docs| - 1]);
      assert (before + [n])[..|before|] == before && before + [] == before;
      assert PositiveInts(Column(docs, field)) == before + if 0 < n then [n] else [];
    }
  }

  /** Each lock is counted where it was taken, and summed up. */
  lemma LocksByField(info: Info, docs: seq<Profile>)
    requires IsBatch(info, docs)
    ensures Tallies(info.locks.globalRead, Column(docs, (doc: Profile) => doc.globalRead))
    ensures Tallies(info.locks.globalWrite, Column(docs, (doc: Profile) => doc.globalWrite))
    ensures Tallies(info.locks.databaseRead, Column(docs, (doc: Profile) => doc.databaseRead))
    ensures Tallies(info.locks.databaseWait, Column(docs, (doc: Profile) => doc.databaseWait))
    ensures Tallies(info.locks.collectionRead, Column(docs, (doc: Profile) => doc.collectionRead))
  {
    TalliedIfPositive(docs, GlobalRead, (doc: Profile) => doc.globalRead);
    TalliedIfPositive(docs, GlobalWrite, (doc: Profile) => doc.globalWrite);
    TalliedIfPositive(docs, DatabaseRead, (doc: Profile) => doc.databaseRead);
    TalliedIfPositive(docs, DatabaseWait, (doc: Profile) => doc.databaseWait);
    TalliedIfPositive(docs, CollectionRead, (doc: Profile) => doc.collectionRead);
    assert Taken(info.locks, GlobalRead) == TallyOf(docs, GlobalRead);
    assert Taken(info.locks, GlobalWrite) == TallyOf(docs, GlobalWrite);
    assert Taken(info.locks, DatabaseRead) == TallyOf(docs, DatabaseRead);
    assert Taken(info.locks, DatabaseWait) == TallyOf(docs, DatabaseWait);
    assert Taken(info.locks, CollectionRead) == TallyOf(docs, CollectionRead);
  }

  lemma {:induction false} FirstWordOf(word: string, rest: string)
    requires ' ' !in word
    ensures FirstWord(word) == word && FirstWord(word + " " + rest) == word
  {
    if word == "" {
    } else {
      FirstWordOf(word[1..], rest);
      assert (word + " " + rest)[1..] == word[1..] + " " + rest;
      assert [word[0]] + word[1..] == word;
    }
  }

  lemma TwoWords(word: string, rest: string)
    ensures word + " " + rest != "COLLSCAN"
  {
    assert (word + " " + rest)[|word|] == ' ';
    assert ' ' !in "COLLSCAN";
  }

  /** The plan is the first word of the first document's; every document is counted as a scan of the collection
      if this plan is "COLLSCAN", and all but the first if it is "COLLSCAN" followed by something. */
  lemma PlanByField(info: Info, docs: seq<Profile>, word: string, rest: string)
    requires IsBatch(info, docs) && ' ' !in word
    requires docs[0].planSummary == word || docs[0].planSummary == word + " " + rest
    ensures info.planSummary == word && info.example == docs[0].example && info.count == |docs|
    ensures info.collScanCount ==
              if word != "COLLSCAN" then 0 else if docs[0].planSummary == word then |docs| else |docs| - 1
  {
    FirstWordOf(word, rest);
    TwoWords(word, rest);
  }

  // ---- the statistics of a query

  lemma Quotient(a: real, b: real)
    requires b != 0.0
    ensures a / b * b == a
  {
  }

  lemma StatsOfMetric(info: Info, metric: Metric, tc: Totals)
    ensures var qs := CountersToStats(info, tc);
            metric in qs.pct && metric in qs.total
            && qs.pct[metric] == Pct(info, metric, tc) && qs.total[metric] == TotalOf(info, metric)
  {
    assert metric in METRICS;
  }

  /** The totals are the sums of the samples. */
  lemma TotalsByField(info: Info, tc: Totals)
    ensures var qs, series := CountersToStats(info, tc), info.series;
            && qs.count == info.count
            && qs.total.Keys == METRICS
            && qs.total[Returned] == SumOf(series.nReturned)
            && qs.total[QueryTime] == SumOf(series.queryTime)
            && qs.total[Bytes] == SumOf(series.responseLength)
            && qs.total[DocsExamined] == SumOf(series.docsExamined)
            && qs.total[KeysExamined] == SumOf(series.keysExamined)
            && qs.total[DatabaseMicros] == SumOf(series.databaseMicros)
            && qs.total[BytesRead] == SumOf(series.bytesRead)
            && qs.total[ReadMicros] == SumOf(series.readMicros)
  {
    forall metric
      ensures metric in CountersToStats(info, tc).total
      ensures CountersToStats(info, tc).total[metric] == SumOf(Samples(info.series, metric))
    {
      StatsOfMetric(info, metric, tc);
    }
  }

  /** `ratio` is `a` for each `b`, or 0 if there is no `b`. */
  predicate IsRatio(ratio: real, a: real, b: real) {
    if 0.0 < b then ratio * b == a else ratio == 0.0
  }

  lemma RatioOf(a: real, b: real)
    ensures IsRatio(if 0.0 < b then a / b else 0.0, a, b)
  {
    if 0.0 < b {
      Quotient(a, b);
    }
  }

  /** The ratio is how many documents were examined for each that was returned, 0 if none was. */
  lemma RatioByField(info: Info, tc: Totals)
    ensures IsRatio(CountersToStats(info, tc).ratio, SumOf(info.series.docsExamined), SumOf(info.series.nReturned))
  {
    RatioOf(SumOf(info.series.docsExamined), SumOf(info.series.nReturned));
  }

  /** `pct` of `whole` is `part`. */
  predicate IsPct(pct: real, part: real, whole: real) {
    pct * whole == part * 100.0
  }

  lemma PctOfWhole(info: Info, metric: Metric, tc: Totals, all: real)
    requires Total(tc, metric) == Num(all) && 0.0 < all
    ensures IsPct(Pct(info, metric, tc), TotalOf(info, metric), all)
  {
    Quotient(TotalOf(info, metric) * 100.0, all);
  }

  lemma NoPct(info: Info, metric: Metric, tc: Totals)
    requires !Positive(Total(tc, metric))
    ensures Pct(info, metric, tc) == 0.0
  {
  }

  /** The percentage of a metric is the part that the query has in the samples of all queries, where these are
      known and sum up to something positive. */
  lemma PctByField(queries: seq<Info>, info: Info, metric: Metric, ofNone: Float)
    requires ofNone == NaN || ofNone == Num(0.0)
    ensures var all, qs := SumOf(AllSamples(queries, metric)), CountersToStats(info, TotalsOf(queries, ofNone));
            metric in qs.pct && metric in qs.total
            && if 0.0 < all && (ofNone == Num(0.0) || AllSampled(queries, metric))
               then IsPct(qs.pct[metric], qs.total[metric], all)
               else qs.pct[metric] == 0.0
  {
    var all, tc := SumOf(AllSamples(queries, metric)), TotalsOf(queries, ofNone);
    TotalsAgree(queries, metric, ofNone);
    StatsOfMetric(info, metric, tc);
    if 0.0 < all && (ofNone == Num(0.0) || AllSampled(queries, metric)) {
      PctOfWhole(info, metric, tc, all);
    } else {
      NoPct(info, metric, tc);
    }
  }

  // ---- the order of the report

  lemma BehindOne(c: char, a: string, b: string, x: string, y: string)
    requires x == [c] + a && y == [c] + b
    ensures Before(x, y) <==> Before(a, b)
  {
    assert x[1..] == a && y[1..] == b;
  }

  lemma StartsWithFirst(prefix: string, a: string)
    requires prefix != ""
    ensures prefix + a == [prefix[0]] + (prefix[1..] + a)
  {
  }

  lemma {:induction false} BehindPrefix(prefix: string, a: string, b: string)
    ensures Before(prefix + a, prefix + b) <==> Before(a, b)
  {
    if prefix == "" {
      assert prefix + a == a && prefix + b == b;
    } else {
      BehindPrefix(prefix[1..], a, b);
      StartsWithFirst(prefix, a);
      StartsWithFirst(prefix, b);
      BehindOne(prefix[0], prefix[1..] + a, prefix[1..] + b, prefix + a, prefix + b);
    }
  }

  /** Queries of one operation are reported in the order of their namespaces, and those of one namespace in the
      order of their fingerprints. */
  lemma ReportedInOrder(queries: seq<Info>, i: nat, j: nat)
    requires InOrder(KeyLess, KeysOf(queries)) && i < j < |queries|
    ensures var a, b := queries[i].key, queries[j].key;
            && !Before(b.operation + b.namespace + b.fingerprint, a.operation + a.namespace + a.fingerprint)
            && (a.operation == b.operation ==> !Before(b.namespace + b.fingerprint, a.namespace + a.fingerprint))
            && (a.operation == b.operation && a.namespace == b.namespace ==> !Before(b.fingerprint, a.fingerprint))
  {
    var a, b := KeysOf(queries)[i], KeysOf(queries)[j];
    assert !KeyLess(b, a);
    if a.operation == b.operation {
      assert KeyString(a) == a.operation + (a.namespace + a.fingerprint);
      assert KeyString(b) == a.operation + (b.namespace + b.fingerprint);
      BehindPrefix(a.operation, b.namespace + b.fingerprint, a.namespace + a.fingerprint);
      BehindPrefix(a.namespace, b.fingerprint, a.fingerprint);
    }
  }
}
