/** Counters grouped by fingerprint (mongolib, stats.go, Stats).  The md5 identifier and the example
    query are not modelled beyond being those of the first document. */
module Stats {
  import opened Options
  import opened KeyList
  import opened Sorting

  /** What profiling says of one operation.  Times count from Go's zero time, which is 0. */
  datatype Profile = Profile(
    example: int,
    planSummary: string,
    ts: nat,
    nreturned: int,
    millis: int,
    responseLength: int,
    docsExamined: int,
    keysExamined: int,
    databaseMicros: int,
    bytesRead: int,
    readMicros: int,
    globalRead: int,
    globalWrite: int,
    databaseRead: int,
    databaseWait: int,
    collectionRead: int)

  datatype GroupKey = GroupKey(operation: string, namespace: string, fingerprint: string)

  function KeyString(key: GroupKey): string {
    key.operation + key.namespace + key.fingerprint
  }

  /** How many times a lock was taken at all, and how often in total. */
  datatype Tally = Tally(count: nat, sum: int)

  datatype Series = Series(
    nReturned: seq<real>,
    queryTime: seq<real>,
    responseLength: seq<real>,
    docsExamined: seq<real>,
    keysExamined: seq<real>,
    databaseMicros: seq<real>,
    bytesRead: seq<real>,
    readMicros: seq<real>)

  datatype Locks = Locks(
    globalRead: Tally,
    globalWrite: Tally,
    databaseRead: Tally,
    databaseWait: Tally,
    collectionRead: Tally)

  datatype Info = Info(
    key: GroupKey,
    example: int,
    planSummary: string,
    collScanCount: nat,
    count: nat,
    firstSeen: nat,
    lastSeen: nat,
    series: Series,
    locks: Locks)

  datatype Metric = Returned | QueryTime | Bytes | DocsExamined | KeysExamined | DatabaseMicros | BytesRead | ReadMicros

  datatype Lock = GlobalRead | GlobalWrite | DatabaseRead | DatabaseWait | CollectionRead

  function Samples(series: Series, metric: Metric): seq<real> {
    match metric
    case Returned => series.nReturned
    case QueryTime => series.queryTime
    case Bytes => series.responseLength
    case DocsExamined => series.docsExamined
    case KeysExamined => series.keysExamined
    case DatabaseMicros => series.databaseMicros
    case BytesRead => series.bytesRead
    case ReadMicros => series.readMicros
  }

  function Measured(doc: Profile, metric: Metric): int {
    match metric
    case Returned => doc.nreturned
    case QueryTime => doc.millis
    case Bytes => doc.responseLength
    case DocsExamined => doc.docsExamined
    case KeysExamined => doc.keysExamined
    case DatabaseMicros => doc.databaseMicros
    case BytesRead => doc.bytesRead
    case ReadMicros => doc.readMicros
  }

  function Taken(locks: Locks, lock: Lock): Tally {
    match lock
    case GlobalRead => locks.globalRead
    case GlobalWrite => locks.globalWrite
    case DatabaseRead => locks.databaseRead
    case DatabaseWait => locks.databaseWait
    case CollectionRead => locks.collectionRead
  }

  function Acquired(doc: Profile, lock: Lock): int {
    match lock
    case GlobalRead => doc.globalRead
    case GlobalWrite => doc.globalWrite
    case DatabaseRead => doc.databaseRead
    case DatabaseWait => doc.databaseWait
    case CollectionRead => doc.collectionRead
  }

  // ---- the counters of a batch of documents

  /** Returned, QueryTime and Bytes are sampled from every document, the others where they are positive. */
  predicate Sampled(doc: Profile, metric: Metric) {
    metric.Returned? || metric.QueryTime? || metric.Bytes? || 0 < Measured(doc, metric)
  }

  function SamplesOf(docs: seq<Profile>, metric: Metric): seq<real> {
    if docs == [] then []
    else
      var last := docs[|docs| - 1];
      SamplesOf(docs[..|docs| - 1], metric) + if Sampled(last, metric) then [Measured(last, metric) as real] else []
  }

  function TallyOf(docs: seq<Profile>, lock: Lock): Tally {
    if docs == [] then Tally(0, 0)
    else
      var before := TallyOf(docs[..|docs| - 1], lock);
      var n := Acquired(docs[|docs| - 1], lock);
      if 0 < n then Tally(before.count + 1, before.sum + n) else before
  }

  function Earliest(docs: seq<Profile>): nat
    requires docs != []
  {
    if |docs| == 1 then docs[0].ts
    else var before := Earliest(docs[..|docs| - 1]); var ts := docs[|docs| - 1].ts; if ts < before then ts else before
  }

  function Latest(docs: seq<Profile>): nat
    requires docs != []
  {
    if |docs| == 1 then docs[0].ts
    else var before := Latest(docs[..|docs| - 1]); var ts := docs[|docs| - 1].ts; if before < ts then ts else before
  }

  /** An unknown time is forgotten as soon as a document follows: what counts are the documents after it. */
  function FirstSeenOf(docs: seq<Profile>): nat {
    if docs == [] then 0
    else
      var before := FirstSeenOf(docs[..|docs| - 1]);
      var ts := docs[|docs| - 1].ts;
      if before == 0 || ts < before then ts else before
  }

  function FirstWord(s: string): string {
    if s == "" || s[0] == ' ' then "" else [s[0]] + FirstWord(s[1..])
  }

  const PLAN_SUMMARY_COLL_SCAN := "COLLSCAN"

  /** The plan of the first document decides for all; it is shortened to its first word after it was
      first compared. */
  function CollScansOf(docs: seq<Profile>): nat
    requires docs != []
  {
    (if docs[0].planSummary == PLAN_SUMMARY_COLL_SCAN then 1 else 0)
    + if FirstWord(docs[0].planSummary) == PLAN_SUMMARY_COLL_SCAN then |docs| - 1 else 0
  }

  /** What a group-by over the whole batch says. */
  ghost predicate IsBatch(info: Info, docs: seq<Profile>) {
    && docs != []
    && info.count == |docs|
    && info.example == docs[0].example
    && info.planSummary == FirstWord(docs[0].planSummary)
    && info.collScanCount == CollScansOf(docs)
    && info.firstSeen == FirstSeenOf(docs)
    && info.lastSeen == Latest(docs)
    && (forall metric :: Samples(info.series, metric) == SamplesOf(docs, metric))
    && (forall lock :: Taken(info.locks, lock) == TallyOf(docs, lock))
  }

  lemma {:induction false} EarliestIsLeast(docs: seq<Profile>)
    requires docs != []
    ensures forall i :: 0 <= i < |docs| ==> Earliest(docs) <= docs[i].ts
    ensures exists i :: 0 <= i < |docs| && Earliest(docs) == docs[i].ts
  {
    var n := |docs| - 1;
    if 0 < n {
      EarliestIsLeast(docs[..n]);
      var i :| 0 <= i < n && Earliest(docs[..n]) == docs[..n][i].ts;
      assert docs[i].ts == Earliest(docs[..n]);
      assert forall j :: 0 <= j < n ==> docs[j] == docs[..n][j];
      assert Earliest(docs) == docs[i].ts || Earliest(docs) == docs[n].ts;
    } else {
      assert Earliest(docs) == docs[0].ts;
    }
  }

  lemma {:induction false} LastZero(docs: seq<Profile>)
    requires docs != []
    ensures FirstSeenOf(docs) == 0 <==> docs[|docs| - 1].ts == 0
  {
    if |docs| == 1 {
    } else {
      LastZero(docs[..|docs| - 1]);
    }
  }

  /** With known times, the first time seen is the least one; with unknown times it still is, exactly
      while the last document has one or none has. */
  lemma {:induction false} FirstSeenIsEarliest(docs: seq<Profile>)
    requires docs != []
    ensures FirstSeenOf(docs) == Earliest(docs) <==>
      docs[|docs| - 1].ts == 0 || forall i :: 0 <= i < |docs| ==> docs[i].ts != 0
  {
    var n := |docs| - 1;
    EarliestIsLeast(docs);
    if n == 0 {
      assert FirstSeenOf(docs[..0]) == 0;
    } else {
      var front := docs[..n];
      FirstSeenIsEarliest(front);
      EarliestIsLeast(front);
      LastZero(front);
    }
  }

  lemma {:induction false} LatestIsGreatest(docs: seq<Profile>)
    requires docs != []
    ensures forall i :: 0 <= i < |docs| ==> docs[i].ts <= Latest(docs)
    ensures exists i :: 0 <= i < |docs| && Latest(docs) == docs[i].ts
  {
    var n := |docs| - 1;
    if 0 < n {
      LatestIsGreatest(docs[..n]);
      var i :| 0 <= i < n && Latest(docs[..n]) == docs[..n][i].ts;
      assert docs[i].ts == Latest(docs[..n]);
      assert forall j :: 0 <= j < n ==> docs[j] == docs[..n][j];
      assert Latest(docs) == docs[i].ts || Latest(docs) == docs[n].ts;
    } else {
      assert Latest(docs) == docs[0].ts;
    }
  }

  // ---- one document more

  function Bump(tally: Tally, n: int): Tally {
    if 0 < n then Tally(tally.count + 1, tally.sum + n) else tally
  }

  function Sample(samples: seq<real>, n: int): seq<real> {
    if 0 < n then samples + [n as real] else samples
  }

  method AppendSamples(series: Series, doc: Profile) returns (r: Series)
    ensures forall metric ::
      Samples(r, metric)
      == Samples(series, metric) + if Sampled(doc, metric) then [Measured(doc, metric) as real] else []
  {
    r := Series(series.nReturned + [doc.nreturned as real],
                series.queryTime + [doc.millis as real],
                series.responseLength + [doc.responseLength as real],
                Sample(series.docsExamined, doc.docsExamined),
                Sample(series.keysExamined, doc.keysExamined),
                Sample(series.databaseMicros, doc.databaseMicros),
                Sample(series.bytesRead, doc.bytesRead),
                Sample(series.readMicros, doc.readMicros));
  }

  method CountLocks(locks: Locks, doc: Profile) returns (r: Locks)
    ensures forall lock :: Taken(r, lock) == Bump(Taken(locks, lock), Acquired(doc, lock))
  {
    r := Locks(Bump(locks.globalRead, doc.globalRead),
               Bump(locks.globalWrite, doc.globalWrite),
               Bump(locks.databaseRead, doc.databaseRead),
               Bump(locks.databaseWait, doc.databaseWait),
               Bump(locks.collectionRead, doc.collectionRead));
  }

  const NO_SAMPLES := Series([], [], [], [], [], [], [], [])
  const NO_LOCKS := Locks(Tally(0, 0), Tally(0, 0), Tally(0, 0), Tally(0, 0), Tally(0, 0))

  /** The entry that Add makes for the first document of its key. */
  function NewInfo(key: GroupKey, doc: Profile): Info {
    Info(key, doc.example, doc.planSummary, 0, 0, 0, 0, NO_SAMPLES, NO_LOCKS)
  }

  /** What Add does to the entry of the document's key. */
  method Count(info: Info, doc: Profile) returns (r: Info)
    ensures r.key == info.key && r.example == info.example
    ensures r.count == info.count + 1
    ensures r.planSummary == FirstWord(info.planSummary)
    ensures r.collScanCount == info.collScanCount + if info.planSummary == PLAN_SUMMARY_COLL_SCAN then 1 else 0
    ensures r.firstSeen == if info.firstSeen == 0 || doc.ts < info.firstSeen then doc.ts else info.firstSeen
    ensures r.lastSeen == if info.lastSeen < doc.ts then doc.ts else info.lastSeen
    ensures forall metric ::
      Samples(r.series, metric)
      == Samples(info.series, metric) + if Sampled(doc, metric) then [Measured(doc, metric) as real] else []
    ensures forall lock :: Taken(r.locks, lock) == Bump(Taken(info.locks, lock), Acquired(doc, lock))
  {
    r := info.(count := info.count + 1);
    if r.planSummary == PLAN_SUMMARY_COLL_SCAN {
      r := r.(collScanCount := r.collScanCount + 1);
    }
    r := r.(planSummary := FirstWord(r.planSummary));
    if r.firstSeen == 0 || doc.ts < r.firstSeen {
      r := r.(firstSeen := doc.ts);
    }
    if r.lastSeen == 0 || r.lastSeen < doc.ts {
      r := r.(lastSeen := doc.ts);
    }
    var series := AppendSamples(r.series, doc);
    var locks := CountLocks(r.locks, doc);
    r := r.(series := series, locks := locks);
  }

  // ---- documents by key

  type Fingerprinter = Profile -> Option<GroupKey>

  function OfKey(f: Fingerprinter, docs: seq<Profile>, key: GroupKey): seq<Profile> {
    if docs == [] then []
    else
      var last := docs[|docs| - 1];
      OfKey(f, docs[..|docs| - 1], key) + if f(last) == Some(key) then [last] else []
  }

  /** The entry of the key counts the documents of the key; there is none if there are no such documents. */
  ghost predicate Counts(f: Fingerprinter, docs: seq<Profile>, m: map<GroupKey, Info>, key: GroupKey) {
    && (key in m <==> OfKey(f, docs, key) != [])
    && (key in m ==> m[key].key == key && IsBatch(m[key], OfKey(f, docs, key)))
  }

  ghost predicate IsGrouped(f: Fingerprinter, docs: seq<Profile>, m: map<GroupKey, Info>) {
    && (forall i :: 0 <= i < |docs| ==> f(docs[i]).Some?)
    && (forall key :: Counts(f, docs, m, key))
  }

  lemma FirstOfBatch(key: GroupKey, doc: Profile, r: Info)
    requires r.example == doc.example && r.count == 1 && r.planSummary == FirstWord(doc.planSummary)
    requires r.collScanCount == if doc.planSummary == PLAN_SUMMARY_COLL_SCAN then 1 else 0
    requires r.firstSeen == doc.ts && r.lastSeen == doc.ts
    requires forall metric ::
               Samples(r.series, metric) == [] + if Sampled(doc, metric) then [Measured(doc, metric) as real] else []
    requires forall lock :: Taken(r.locks, lock) == Bump(Tally(0, 0), Acquired(doc, lock))
    ensures IsBatch(r, [doc])
  {
    assert [doc][..0] == [];
    forall metric ensures Samples(r.series, metric) == SamplesOf([doc], metric) {
      assert SamplesOf([], metric) == [];
    }
    forall lock ensures Taken(r.locks, lock) == TallyOf([doc], lock) {
      assert TallyOf([], lock) == Tally(0, 0);
    }
    assert FirstSeenOf([]) == 0;
  }

  lemma {:induction false} FirstWordOfFirstWord(s: string)
    ensures FirstWord(FirstWord(s)) == FirstWord(s)
  {
    if s == "" || s[0] == ' ' {
    } else {
      FirstWordOfFirstWord(s[1..]);
      assert FirstWord(s)[1..] == FirstWord(s[1..]);
    }
  }

  lemma NewIsBatch(key: GroupKey, doc: Profile, r: Info)
    requires r.example == doc.example && r.count == 1 && r.planSummary == FirstWord(doc.planSummary)
    requires r.collScanCount == if doc.planSummary == PLAN_SUMMARY_COLL_SCAN then 1 else 0
    requires r.firstSeen == doc.ts && r.lastSeen == doc.ts
    requires forall metric ::
      Samples(r.series, metric)
      == Samples(NO_SAMPLES, metric) + if Sampled(doc, metric) then [Measured(doc, metric) as real] else []
    requires forall lock :: Taken(r.locks, lock) == Bump(Taken(NO_LOCKS, lock), Acquired(doc, lock))
    ensures IsBatch(r, [doc])
  {
    assert forall metric :: Samples(NO_SAMPLES, metric) == [];
    assert forall lock :: Taken(NO_LOCKS, lock) == Tally(0, 0);
    FirstOfBatch(key, doc, r);
  }

  lemma NextOfBatch(info: Info, docs: seq<Profile>, doc: Profile, r: Info)
    requires IsBatch(info, docs)
    requires r.example == info.example && r.count == info.count + 1 && r.planSummary == FirstWord(info.planSummary)
    requires r.collScanCount == info.collScanCount + if info.planSummary == PLAN_SUMMARY_COLL_SCAN then 1 else 0
    requires r.firstSeen == if info.firstSeen == 0 || doc.ts < info.firstSeen then doc.ts else info.firstSeen
    requires r.lastSeen == if info.lastSeen < doc.ts then doc.ts else info.lastSeen
    requires forall metric ::
      Samples(r.series, metric)
      == Samples(info.series, metric) + if Sampled(doc, metric) then [Measured(doc, metric) as real] else []
    requires forall lock :: Taken(r.locks, lock) == Bump(Taken(info.locks, lock), Acquired(doc, lock))
    ensures IsBatch(r, docs + [doc])
  {
    var all := docs + [doc];
    assert all[..|all| - 1] == docs && all[|all| - 1] == doc;
    FirstWordOfFirstWord(docs[0].planSummary);
    forall metric ensures Samples(r.series, metric) == SamplesOf(all, metric) {
      assert Samples(info.series, metric) == SamplesOf(docs, metric);
    }
    forall lock ensures Taken(r.locks, lock) == TallyOf(all, lock) {
      assert Taken(info.locks, lock) == TallyOf(docs, lock);
    }
  }

  lemma OfKeyAfter(f: Fingerprinter, docs: seq<Profile>, doc: Profile, key: GroupKey)
    ensures OfKey(f, docs + [doc], key) == OfKey(f, docs, key) + if f(doc) == Some(key) then [doc] else []
  {
    var all := docs + [doc];
    assert all[..|all| - 1] == docs && all[|all| - 1] == doc;
  }

  lemma CountsAfter(f: Fingerprinter, docs: seq<Profile>, m: map<GroupKey, Info>, doc: Profile, key: GroupKey,
                    r: Info, other: GroupKey)
    requires Counts(f, docs, m, other) && f(doc) == Some(key)
    requires r.key == key && IsBatch(r, OfKey(f, docs, key) + [doc])
    ensures Counts(f, docs + [doc], m[key := r], other)
  {
    OfKeyAfter(f, docs, doc, other);
    if other != key {
      assert OfKey(f, docs, other) + [] == OfKey(f, docs, other);
    }
  }

  /** Entering the counted entry keeps the map the group-by of all documents. */
  lemma GroupedAfter(f: Fingerprinter, docs: seq<Profile>, m: map<GroupKey, Info>, doc: Profile, key: GroupKey, r: Info)
    requires IsGrouped(f, docs, m) && f(doc) == Some(key)
    requires r.key == key && IsBatch(r, OfKey(f, docs, key) + [doc])
    ensures IsGrouped(f, docs + [doc], m[key := r])
  {
    var docs', m' := docs + [doc], m[key := r];
    forall other ensures Counts(f, docs', m', other) {
      CountsAfter(f, docs, m, doc, key, r, other);
    }
  }

  // ---- keys in order

  predicate KeyLess(a: GroupKey, b: GroupKey) { Before(KeyString(a), KeyString(b)) }

  lemma KeyLessOrders()
    ensures Orders(KeyLess)
  {
    BeforeIsOrder();
  }

  /** Each of the keys once. */
  ghost predicate Lists(keys: seq<GroupKey>, all: set<GroupKey>) {
    multiset(keys) == multiset(all)
  }

  lemma ListedIsThere(keys: seq<GroupKey>, all: set<GroupKey>)
    requires Lists(keys, all)
    ensures forall i :: 0 <= i < |keys| ==> keys[i] in all
  {
    forall i | 0 <= i < |keys| ensures keys[i] in all {
      assert keys[i] in multiset(keys);
    }
  }

  lemma ListOneMore(keys: seq<GroupKey>, all: set<GroupKey>, key: GroupKey)
    requires Lists(keys, all) && key !in all
    ensures Lists(keys + [key], all + {key})
  {
    assert multiset(all + {key}) == multiset(all) + multiset{key};
  }

  /** Walks the map in any order. */
  method CollectKeys(m: map<GroupKey, Info>) returns (keys: seq<GroupKey>)
    ensures Lists(keys, m.Keys)
  {
    keys := [];
    var rest := m.Keys;
    ghost var done: set<GroupKey> := {};
    while rest != {}
      invariant done + rest == m.Keys && done !! rest
      invariant Lists(keys, done)
      decreases |rest|
    {
      var key :| key in rest;
      ListOneMore(keys, done, key);
      keys, rest, done := keys + [key], rest - {key}, done + {key};
    }
  }

  method Entries(m: map<GroupKey, Info>, keys: seq<GroupKey>) returns (queries: seq<Info>)
    requires forall i :: 0 <= i < |keys| ==> keys[i] in m
    ensures |queries| == |keys| && forall i :: 0 <= i < |keys| ==> queries[i] == m[keys[i]]
  {
    queries := [];
    for i := 0 to |keys|
      invariant |queries| == i && forall j :: 0 <= j < i ==> queries[j] == m[keys[j]]
    {
      queries := queries + [m[keys[i]]];
    }
  }

  function KeysOf(queries: seq<Info>): (keys: seq<GroupKey>)
    ensures |keys| == |queries|
  {
    seq(|queries|, i requires 0 <= i < |queries| => queries[i].key)
  }

  /** The list has every entry of the map once and nothing else. */
  ghost predicate Reports(queries: seq<Info>, m: map<GroupKey, Info>) {
    && Lists(KeysOf(queries), m.Keys)
    && forall i :: 0 <= i < |queries| ==> queries[i].key in m && queries[i] == m[queries[i].key]
  }

  lemma EntriesHaveKeys(f: Fingerprinter, docs: seq<Profile>, m: map<GroupKey, Info>, keys: seq<GroupKey>,
                        queries: seq<Info>)
    requires IsGrouped(f, docs, m) && |queries| == |keys|
    requires forall i :: 0 <= i < |keys| ==> keys[i] in m && queries[i] == m[keys[i]]
    ensures KeysOf(queries) == keys
  {
    forall i | 0 <= i < |keys| ensures queries[i].key == keys[i] {
      assert Counts(f, docs, m, keys[i]);
    }
  }

  datatype AddError = FingerprintError | MarshalError

  class Stats {
    const fingerprint: Fingerprinter
    /** Can the example query be encoded? */
    const marshals: Profile -> bool
    var queryInfoAndCounters: map<GroupKey, Info>
    /** The documents that were added successfully. */
    ghost var added: seq<Profile>

    ghost predicate Valid()
      reads this
    {
      IsGrouped(fingerprint, added, queryInfoAndCounters)
    }

    constructor (fingerprint: Fingerprinter, marshals: Profile -> bool)
      ensures Valid() && added == [] && this.fingerprint == fingerprint && this.marshals == marshals
    {
      this.fingerprint, this.marshals := fingerprint, marshals;
      queryInfoAndCounters, added := map[], [];
    }

    method Reset()
      modifies this
      ensures Valid() && added == []
    {
      queryInfoAndCounters, added := map[], [];
    }

    /** A document is refused when it has no fingerprint, or is the first of its key and cannot be encoded. */
    method Add(doc: Profile) returns (error: Option<AddError>)
      requires Valid()
      modifies this
      ensures Valid()
      ensures error == (if fingerprint(doc).None? then Some(FingerprintError)
                        else if fingerprint(doc).value !in old(queryInfoAndCounters) && !marshals(doc)
                          then Some(MarshalError)
                        else None)
      ensures added == if error.None? then old(added) + [doc] else old(added)
    {
      var fp := fingerprint(doc);
      if fp.None? {
        return Some(FingerprintError);
      }
      var key := fp.value;
      assert Counts(fingerprint, added, queryInfoAndCounters, key);
      var r: Info;
      if key !in queryInfoAndCounters {
        if !marshals(doc) {
          return Some(MarshalError);
        }
        r := Count(NewInfo(key, doc), doc);
        NewIsBatch(key, doc, r);
        assert OfKey(fingerprint, added, key) + [doc] == [doc];
      } else {
        r := Count(queryInfoAndCounters[key], doc);
        NextOfBatch(queryInfoAndCounters[key], OfKey(fingerprint, added, key), doc, r);
      }
      GroupedAfter(fingerprint, added, queryInfoAndCounters, doc, key, r);
      queryInfoAndCounters := queryInfoAndCounters[key := r];
      added := added + [doc];
      return None;
    }

    /** Every entry once, in the order of its key; keys that read alike may come in any order. */
    method Queries() returns (queries: seq<Info>)
      requires Valid()
      ensures Reports(queries, queryInfoAndCounters) && InOrder(KeyLess, KeysOf(queries))
    {
      var m := queryInfoAndCounters;
      var unsorted := CollectKeys(m);
      var sorted := SortBy(KeyLess, unsorted);
      KeyLessOrders();
      SortByOrders(KeyLess, unsorted);
      ListedIsThere(sorted, m.Keys);
      queries := Entries(m, sorted);
      EntriesHaveKeys(fingerprint, added, m, sorted, queries);
    }
  }
}
