/** The translation store: what is known about hashes, IPs and names, and since when
    (translate/translate.go). */
module Translate {
  import opened Options
  import opened Sorting
  import opened TranslationData

  const EMPTY_DB := Db(map[], map[], map[], map[])

  /** One thing learnt from a log. */
  datatype Op =
    | HashToIP(hash: string, ip: string, ts: int)
    | HashToNodeName(hash: string, name: string, ts: int)
    | IPToNodeName(ip: string, name: string, ts: int)
    | IPToMethod(ip: string, method_: string, ts: int)

  function Min(a: int, b: int): int { if b < a then b else a }

  /** The text before the first dot. */
  function BeforeDot(s: string): string {
    if s == "" || s[0] == '.' then "" else [s[0]] + BeforeDot(s[1..])
  }

  function ShortNodeName(isIPv4: string -> bool, s: string): string {
    if |s| < 10 || isIPv4(s) then s else BeforeDot(s)
  }

  /** A value that the list ends with is kept, at the earlier of the two times. */
  function Upserted(units: seq<Unit>, unit: Unit): seq<Unit> {
    var n := |units|;
    if n == 0 || units[n - 1].value != unit.value then units + [unit]
    else units[n - 1 := units[n - 1].(timestamp := Min(units[n - 1].timestamp, unit.timestamp))]
  }

  function Upsert(m: map<string, seq<Unit>>, key: string, unit: Unit): map<string, seq<Unit>> {
    m[key := Upserted(Units(m, key), unit)]
  }

  function Apply(isIPv4: string -> bool, db: Db, op: Op): Db {
    match op
    case HashToIP(hash, ip, ts) =>
      if hash in db.hashToIP then
        db.(hashToIP := db.hashToIP[hash := db.hashToIP[hash].(timestamp := Min(db.hashToIP[hash].timestamp, ts))])
      else
        db.(hashToIP := db.hashToIP[hash := Unit(ip, ts)])
    case HashToNodeName(hash, name, ts) =>
      db.(hashToNodeNames := Upsert(db.hashToNodeNames, hash, Unit(ShortNodeName(isIPv4, name), ts)))
    case IPToNodeName(ip, name, ts) =>
      db.(ipToNodeNames := Upsert(db.ipToNodeNames, ip, Unit(ShortNodeName(isIPv4, name), ts)))
    case IPToMethod(ip, m, ts) =>
      db.(ipToMethods := Upsert(db.ipToMethods, ip, Unit(m, ts)))
  }

  function Run(isIPv4: string -> bool, ops: seq<Op>): Db {
    if ops == [] then EMPTY_DB else Apply(isIPv4, Run(isIPv4, ops[..|ops| - 1]), ops[|ops| - 1])
  }

  function Scan(cur: Unit, units: seq<Unit>, ts: int): Unit
    decreases units
  {
    if units == [] then cur
    else Scan(if cur.timestamp < units[0].timestamp <= ts then units[0] else cur, units[1..], ts)
  }

  /** The unit found by the lookup: it starts with the first, and takes each later one that is newer
      than the one so far and not newer than the query. */
  function MostAppropriate(units: seq<Unit>, ts: int): Unit {
    if units == [] then Unit("", 0) else Scan(units[0], units[1..], ts)
  }

  function NameOfHash(db: Db, hash: string, date: int): string {
    MostAppropriate(Units(db.hashToNodeNames, hash), date).value
  }

  predicate IsHashOf(db: Db, ip: string, u: Unit) {
    u.value in db.hashToIP && db.hashToIP[u.value] == Unit(ip, u.timestamp)
  }

  predicate Earlier(a: Unit, b: Unit) {
    a.timestamp < b.timestamp
  }

  predicate DistinctValues(units: seq<Unit>) {
    forall i, j :: 0 <= i < j < |units| ==> units[i].value != units[j].value
  }

  /** The hashes of an IP, each once, oldest first. */
  ghost predicate IsListing(db: Db, ip: string, units: seq<Unit>) {
    InOrder(Earlier, units) && DistinctValues(units) && forall u :: u in units <==> IsHashOf(db, ip, u)
  }

  lemma {:induction false} CountedOnce(units: seq<Unit>, u: Unit)
    requires DistinctValues(units)
    ensures multiset(units)[u] <= 1
  {
    if units == [] {
    } else {
      var front, last := units[..|units| - 1], units[|units| - 1];
      assert units == front + [last];
      CountedOnce(front, u);
      assert forall k :: 0 <= k < |front| ==> front[k] == units[k];
    }
  }

  lemma CountedTwice(units: seq<Unit>, i: nat, j: nat)
    requires i < j < |units| && units[i] == units[j]
    ensures multiset(units)[units[i]] >= 2
  {
    assert units == units[..j] + [units[j]] + units[j + 1..];
    assert units[i] in units[..j];
  }

  lemma PermutedDistinct(units: seq<Unit>, permuted: seq<Unit>)
    requires DistinctValues(units) && multiset(permuted) == multiset(units)
    ensures DistinctValues(permuted) && forall u :: u in permuted <==> u in units
  {
    forall u
      ensures u in permuted <==> u in units
    {
      assert u in multiset(permuted) <==> u in multiset(units);
    }
    forall i, j | 0 <= i < j < |permuted|
      ensures permuted[i].value != permuted[j].value
    {
      assert permuted[i] in units && permuted[j] in units;
      if permuted[i] == permuted[j] {
        CountedTwice(permuted, i, j);
        CountedOnce(units, permuted[i]);
      }
    }
  }

  /** Sorting the hashes of an IP lists them. */
  lemma SortedListing(db: Db, ip: string, units: seq<Unit>)
    requires DistinctValues(units) && forall u :: u in units <==> IsHashOf(db, ip, u)
    ensures IsListing(db, ip, SortBy(Earlier, units))
  {
    SortByOrders(Earlier, units);
    PermutedDistinct(units, SortBy(Earlier, units));
  }

  function NameOfIP(db: Db, ip: string, date: int): string {
    MostAppropriate(Units(db.ipToNodeNames, ip), date).value
  }

  /** `u` is the latest hash of the IP at the date, or the earliest of all if it had none yet. */
  ghost predicate IsAsOf(db: Db, ip: string, date: int, u: Unit) {
    && (forall other :: IsHashOf(db, ip, other) && other.timestamp <= date ==> other.timestamp <= u.timestamp)
    && (u.timestamp <= date || forall other :: IsHashOf(db, ip, other) ==> u.timestamp <= other.timestamp)
  }

  /** The name of the first named hash in the order of time. */
  ghost predicate IsFirstNamed(db: Db, ip: string, date: int, u: Unit) {
    && IsHashOf(db, ip, u) && NameOfHash(db, u.value, date) != ""
    && forall other :: IsHashOf(db, ip, other) && other.timestamp < u.timestamp ==>
      NameOfHash(db, other.value, date) == ""
  }

  lemma FirstNamed(db: Db, ip: string, date: int, units: seq<Unit>, k: nat)
    requires IsListing(db, ip, units) && k < |units| && NameOfHash(db, units[k].value, date) != ""
    requires forall j :: 0 <= j < k ==> NameOfHash(db, units[j].value, date) == ""
    ensures IsFirstNamed(db, ip, date, units[k])
  {
    assert units[k] in units;
    forall other | IsHashOf(db, ip, other) && other.timestamp < units[k].timestamp
      ensures NameOfHash(db, other.value, date) == ""
    {
      var j :| 0 <= j < |units| && units[j] == other;
      assert k < j ==> !Earlier(units[j], units[k]);
    }
  }

  lemma NoneNamed(db: Db, ip: string, date: int, units: seq<Unit>)
    requires IsListing(db, ip, units) && forall j :: 0 <= j < |units| ==> NameOfHash(db, units[j].value, date) == ""
    ensures forall u :: IsHashOf(db, ip, u) ==> NameOfHash(db, u.value, date) == ""
  {
    forall u | IsHashOf(db, ip, u)
      ensures NameOfHash(db, u.value, date) == ""
    {
      var j :| 0 <= j < |units| && units[j] == u;
    }
  }

  /** What SimplestInfoFromIP may return; it is not determined when hashes were seen at one time. */
  ghost predicate IsSimplestFromIP(db: Db, ip: string, date: int, assumeIPStable: bool, info: string) {
    if NameOfIP(db, ip, date) != "" then info == NameOfIP(db, ip, date)
    else if assumeIPStable then
      || (exists u :: IsFirstNamed(db, ip, date, u) && info == NameOfHash(db, u.value, date))
      || (info == ip && forall u :: IsHashOf(db, ip, u) ==> NameOfHash(db, u.value, date) == "")
    else
      || (info == ip && forall u :: !IsHashOf(db, ip, u))
      || (exists u :: IsHashOf(db, ip, u) && IsAsOf(db, ip, date, u)
            && info == if u.value != "" && NameOfHash(db, u.value, date) != "" then NameOfHash(db, u.value, date)
              else ip)
  }

  /** What SimplestInfoFromHash may return: the name of the hash, or else what its IP gives. */
  ghost predicate IsSimplestFromHash(db: Db, hash: string, date: int, assumeIPStable: bool, info: string) {
    if NameOfHash(db, hash, date) != "" then info == NameOfHash(db, hash, date)
    else if hash in db.hashToIP && db.hashToIP[hash].value != "" then
      IsSimplestFromIP(db, db.hashToIP[hash].value, date, assumeIPStable, info)
    else info == hash
  }

  method MostAppropriateValueFromTS(units: seq<Unit>, ts: int) returns (cur: Unit)
    ensures cur == MostAppropriate(units, ts)
  {
    if |units| == 0 {
      return Unit("", 0);
    }
    cur := units[0];
    for i := 1 to |units|
      invariant MostAppropriate(units, ts) == Scan(cur, units[i..], ts)
    {
      var unit := units[i];
      if unit.timestamp > cur.timestamp && (unit.timestamp < ts || unit.timestamp == ts) {
        cur := unit;
      }
    }
  }

  lemma {:induction false} ScanFinds(cur: Unit, units: seq<Unit>, ts: int)
    ensures var found := Scan(cur, units, ts);
            && (found == cur || (found in units && cur.timestamp < found.timestamp <= ts))
            && forall u :: u in units && u.timestamp <= ts ==>
              u.timestamp <= found.timestamp || u.timestamp <= cur.timestamp
    ensures cur.timestamp <= Scan(cur, units, ts).timestamp
    decreases units
  {
    if units == [] {
    } else {
      ScanFinds(if cur.timestamp < units[0].timestamp <= ts then units[0] else cur, units[1..], ts);
    }
  }

  /** The time found is the latest of the first entry's and of those up to the query. */
  lemma AsOf(units: seq<Unit>, ts: int)
    requires units != []
    ensures var found := MostAppropriate(units, ts);
            && found in units
            && units[0].timestamp <= found.timestamp
            && (found == units[0] || found.timestamp <= ts)
            && forall u :: u in units && u.timestamp <= ts ==> u.timestamp <= found.timestamp
  {
    ScanFinds(units[0], units[1..], ts);
  }

  class TranslationsDB {
    const isIPv4: string -> bool
    var db: Db

    constructor (isIPv4: string -> bool)
      ensures db == Run(isIPv4, []) && this.isIPv4 == isIPv4
    {
      this.isIPv4, db := isIPv4, EMPTY_DB;
    }

    method AddHashToIP(hash: string, ip: string, ts: int)
      modifies this
      ensures db == Apply(isIPv4, old(db), HashToIP(hash, ip, ts))
    {
      if hash in db.hashToIP {
        var latestValue := db.hashToIP[hash];
        if ts < latestValue.timestamp {
          latestValue := latestValue.(timestamp := ts);
        }
        db := db.(hashToIP := db.hashToIP[hash := latestValue]);
      } else {
        db := db.(hashToIP := db.hashToIP[hash := Unit(ip, ts)]);
      }
    }

    static method UpsertToMap(m: map<string, seq<Unit>>, key: string, tu: Unit) returns (m': map<string, seq<Unit>>)
      ensures m' == Upsert(m, key, tu)
    {
      if key !in m || |m[key]| == 0 || m[key][|m[key]| - 1].value != tu.value {
        return m[key := Units(m, key) + [tu]];
      }
      var latestValue := m[key][|m[key]| - 1];
      if tu.timestamp < latestValue.timestamp {
        latestValue := latestValue.(timestamp := tu.timestamp);
      }
      m' := m[key := m[key][|m[key]| - 1 := latestValue]];
    }

    method AddHashToNodeName(hash: string, name: string, ts: int)
      modifies this
      ensures db == Apply(isIPv4, old(db), HashToNodeName(hash, name, ts))
    {
      var m := UpsertToMap(db.hashToNodeNames, hash, Unit(ShortNodeName(isIPv4, name), ts));
      db := db.(hashToNodeNames := m);
    }

    method AddIPToNodeName(ip: string, name: string, ts: int)
      modifies this
      ensures db == Apply(isIPv4, old(db), IPToNodeName(ip, name, ts))
    {
      var m := UpsertToMap(db.ipToNodeNames, ip, Unit(ShortNodeName(isIPv4, name), ts));
      db := db.(ipToNodeNames := m);
    }

    method AddIPToMethod(ip: string, method_: string, ts: int)
      modifies this
      ensures db == Apply(isIPv4, old(db), IPToMethod(ip, method_, ts))
    {
      var m := UpsertToMap(db.ipToMethods, ip, Unit(method_, ts));
      db := db.(ipToMethods := m);
    }

    /** The hashes of an IP, oldest first; hashes of the same time in any order. */
    method GetHashSliceFromIP(ip: string) returns (units: seq<Unit>)
      ensures IsListing(db, ip, units)
    {
      units := [];
      var todo, done := db.hashToIP.Keys, {};
      while todo != {}
        invariant todo + done == db.hashToIP.Keys && todo !! done
        invariant DistinctValues(units)
        invariant forall u :: u in units <==> u.value in done && IsHashOf(db, ip, u)
      {
        var hash :| hash in todo;
        var unit := db.hashToIP[hash];
        if unit.value == ip {
          units := units + [Unit(hash, unit.timestamp)];
        }
        todo, done := todo - {hash}, done + {hash};
      }
      SortedListing(db, ip, units);
      units := SortBy(Earlier, units);
    }

    method GetNodeNameFromIP(ip: string, ts: int) returns (name: string)
      ensures name == MostAppropriate(Units(db.ipToNodeNames, ip), ts).value
    {
      var unit := MostAppropriateValueFromTS(Units(db.ipToNodeNames, ip), ts);
      name := unit.value;
    }

    method GetNodeNameFromHash(hash: string, ts: int) returns (name: string)
      ensures name == MostAppropriate(Units(db.hashToNodeNames, hash), ts).value
    {
      var unit := MostAppropriateValueFromTS(Units(db.hashToNodeNames, hash), ts);
      name := unit.value;
    }

    /** The hash that the IP has at the date, "" if it has none. */
    method GetHashFromIP(ip: string, ts: int) returns (hash: string)
      ensures || (hash == "" && forall u :: !IsHashOf(db, ip, u))
              || (exists u :: IsHashOf(db, ip, u) && IsAsOf(db, ip, ts, u) && hash == u.value)
    {
      var units := GetHashSliceFromIP(ip);
      var unit := MostAppropriateValueFromTS(units, ts);
      hash := unit.value;
      if units != [] {
        AsOf(units, ts);
        assert IsHashOf(db, ip, unit) && IsAsOf(db, ip, ts, unit);
      }
    }

    /** The easiest name to read for an IP: its own name, or else that of a hash, or else the IP. */
    method SimplestInfoFromIP(ip: string, date: int, assumeIPStable: bool) returns (info: string)
      ensures IsSimplestFromIP(db, ip, date, assumeIPStable, info)
    {
      var nodename := GetNodeNameFromIP(ip, date);
      if nodename != "" {
        return nodename;
      }
      if assumeIPStable {
        var units := GetHashSliceFromIP(ip);
        for k := 0 to |units|
          invariant forall j :: 0 <= j < k ==> NameOfHash(db, units[j].value, date) == ""
        {
          nodename := GetNodeNameFromHash(units[k].value, date);
          if nodename != "" {
            FirstNamed(db, ip, date, units, k);
            return nodename;
          }
        }
        NoneNamed(db, ip, date, units);
      } else {
        var hash := GetHashFromIP(ip, date);
        if hash != "" {
          nodename := GetNodeNameFromHash(hash, date);
          if nodename != "" {
            return nodename;
          }
        }
      }
      return ip;
    }

    method SimplestInfoFromHash(hash: string, date: int, assumeIPStable: bool) returns (info: string)
      ensures IsSimplestFromHash(db, hash, date, assumeIPStable, info)
    {
      var nodename := GetNodeNameFromHash(hash, date);
      if nodename != "" {
        return nodename;
      }
      if hash in db.hashToIP && db.hashToIP[hash].value != "" {
        info := SimplestInfoFromIP(db.hashToIP[hash].value, date, assumeIPStable);
        return;
      }
      return hash;
    }
  }

  /** A later query never finds older information. */
  lemma LookupIsMonotone(units: seq<Unit>, ts: int, ts': int)
    requires units != [] && ts <= ts'
    ensures MostAppropriate(units, ts).timestamp <= MostAppropriate(units, ts').timestamp
  {
    AsOf(units, ts);
    AsOf(units, ts');
  }

  /** The position of the last entry up to the query, or the first entry if there is none. */
  function LastUpTo(units: seq<Unit>, ts: int): (k: nat)
    requires units != []
    ensures k < |units|
  {
    var n := |units| - 1;
    if n == 0 || units[n].timestamp <= ts then n else LastUpTo(units[..n], ts)
  }

  lemma {:induction false} LastUpToIsLast(units: seq<Unit>, ts: int)
    requires units != []
    ensures var k := LastUpTo(units, ts);
            && (k == 0 || units[k].timestamp <= ts)
            && forall j :: k < j < |units| ==> ts < units[j].timestamp
  {
    var n := |units| - 1;
    if n == 0 || units[n].timestamp <= ts {
    } else {
      LastUpToIsLast(units[..n], ts);
    }
  }

  /** On a list in strict time order the lookup is the plain scan for the last entry. */
  lemma LookupIsLastEntry(units: seq<Unit>, ts: int)
    requires units != [] && forall i, j :: 0 <= i < j < |units| ==> units[i].timestamp < units[j].timestamp
    ensures MostAppropriate(units, ts) == units[LastUpTo(units, ts)]
  {
    AsOf(units, ts);
    LastUpToIsLast(units, ts);
    var found := MostAppropriate(units, ts);
    var i :| 0 <= i < |units| && units[i] == found;
  }

  /** What was recorded about the IP of a hash. */
  function IPRecords(ops: seq<Op>, hash: string): (records: seq<Unit>) {
    if ops == [] then [] else
      IPRecords(ops[..|ops| - 1], hash) +
      match ops[|ops| - 1]
      case HashToIP(h, ip, ts) => if h == hash then [Unit(ip, ts)] else []
      case _ => []
  }

  function Earliest(units: seq<Unit>): int
    requires units != []
  {
    if |units| == 1 then units[0].timestamp else Min(Earliest(units[..|units| - 1]), units[|units| - 1].timestamp)
  }

  lemma {:induction false} EarliestIsLeast(units: seq<Unit>)
    requires units != []
    ensures forall u :: u in units ==> Earliest(units) <= u.timestamp
    ensures exists u :: u in units && u.timestamp == Earliest(units)
  {
    if |units| == 1 {
      assert units[0] in units;
    } else {
      EarliestIsLeast(units[..|units| - 1]);
      var u :| u in units[..|units| - 1] && u.timestamp == Earliest(units[..|units| - 1]);
      assert u in units && units[|units| - 1] in units;
    }
  }

  /** Over every run a hash keeps the first IP recorded for it, with the earliest time. */
  lemma {:induction false} HashKeepsFirstIP(isIPv4: string -> bool, ops: seq<Op>, hash: string)
    ensures var records, db := IPRecords(ops, hash), Run(isIPv4, ops);
            && (hash in db.hashToIP <==> records != [])
            && (records != [] ==> db.hashToIP[hash] == Unit(records[0].value, Earliest(records)))
  {
    if ops == [] {
    } else {
      var front := ops[..|ops| - 1];
      HashKeepsFirstIP(isIPv4, front, hash);
      var records := IPRecords(ops, hash);
      assert |records| > 0 ==> records[..|records| - 1] == IPRecords(front, hash) || records == IPRecords(front, hash);
    }
  }

  /** The three maps that hold lists. */
  datatype ListMap = HashNames | IPNames | IPMethods

  function Select(db: Db, which: ListMap): map<string, seq<Unit>> {
    match which
    case HashNames => db.hashToNodeNames
    case IPNames => db.ipToNodeNames
    case IPMethods => db.ipToMethods
  }

  /** What the step records for `key` in one of the maps, names already shortened. */
  function ListRecord(isIPv4: string -> bool, op: Op, which: ListMap, key: string): (records: seq<Unit>)
    ensures |records| <= 1
  {
    match (which, op)
    case (HashNames, HashToNodeName(h, name, ts)) =>
      (if h == key then [Unit(ShortNodeName(isIPv4, name), ts)] else [])
    case (IPNames, IPToNodeName(ip, name, ts)) => (if ip == key then [Unit(ShortNodeName(isIPv4, name), ts)] else [])
    case (IPMethods, IPToMethod(ip, m, ts)) => (if ip == key then [Unit(m, ts)] else [])
    case _ => []
  }

  function ListRecords(isIPv4: string -> bool, ops: seq<Op>, which: ListMap, key: string): (records: seq<Unit>) {
    if ops == [] then []
    else ListRecords(isIPv4, ops[..|ops| - 1], which, key) + ListRecord(isIPv4, ops[|ops| - 1], which, key)
  }

  /** Records, each value of which differs from the one before, with the earliest time of each. */
  function Runs(records: seq<Unit>): seq<Unit> {
    if records == [] then [] else Upserted(Runs(records[..|records| - 1]), records[|records| - 1])
  }

  lemma StepUpserts(isIPv4: string -> bool, db: Db, op: Op, which: ListMap, key: string)
    ensures var before, more := Units(Select(db, which), key), ListRecord(isIPv4, op, which, key);
            Units(Select(Apply(isIPv4, db, op), which), key)
            == if more == [] then before else Upserted(before, more[0])
  {
  }

  lemma RunsOfMore(records: seq<Unit>, more: seq<Unit>)
    requires |more| <= 1
    ensures Runs(records + more) == if more == [] then Runs(records) else Upserted(Runs(records), more[0])
  {
    if more == [] {
      assert records + more == records;
    } else {
      assert (records + more)[..|records|] == records;
    }
  }

  /** Over every run a list holds the runs of equal values that were recorded for its key. */
  lemma {:induction false} ListHoldsRuns(isIPv4: string -> bool, ops: seq<Op>, which: ListMap, key: string)
    ensures Units(Select(Run(isIPv4, ops), which), key) == Runs(ListRecords(isIPv4, ops, which, key))
  {
    if ops == [] {
    } else {
      var front, op := ops[..|ops| - 1], ops[|ops| - 1];
      ListHoldsRuns(isIPv4, front, which, key);
      StepUpserts(isIPv4, Run(isIPv4, front), op, which, key);
      RunsOfMore(ListRecords(isIPv4, front, which, key), ListRecord(isIPv4, op, which, key));
    }
  }

  /** The list of values without repetitions of the value before. */
  function Destuttered(records: seq<Unit>): seq<string> {
    if records == [] then [] else
      var front, last := Destuttered(records[..|records| - 1]), records[|records| - 1].value;
      if front != [] && front[|front| - 1] == last then front else front + [last]
  }

  /** One more record, which continues the last segment or starts a new one. */
  function WithRecord(segments: seq<seq<Unit>>, record: Unit): seq<seq<Unit>> {
    var n := |segments|;
    if n != 0 && segments[n - 1] != [] && segments[n - 1][0].value == record.value
    then segments[..n - 1] + [segments[n - 1] + [record]]
    else segments + [[record]]
  }

  /** The records, cut into runs of equal values. */
  function Segments(records: seq<Unit>): seq<seq<Unit>> {
    if records == [] then [] else WithRecord(Segments(records[..|records| - 1]), records[|records| - 1])
  }

  function Joined(segments: seq<seq<Unit>>): seq<Unit> {
    if segments == [] then [] else Joined(segments[..|segments| - 1]) + segments[|segments| - 1]
  }

  predicate IsSegment(segment: seq<Unit>) {
    segment != [] && forall i :: 0 <= i < |segment| ==> segment[i].value == segment[0].value
  }

  /** Non-empty runs of equal values, no two of which could be one. */
  predicate AreSegments(segments: seq<seq<Unit>>) {
    segments == [] ||
    var front, last := segments[..|segments| - 1], segments[|segments| - 1];
    && AreSegments(front)
    && IsSegment(last)
    && (front != [] && front[|front| - 1] != [] ==> front[|front| - 1][0].value != last[0].value)
  }

  /** The segments make up the records. */
  predicate Cuts(segments: seq<seq<Unit>>, records: seq<Unit>) {
    AreSegments(segments) && Joined(segments) == records
  }

  lemma RecordIsSegmented(front: seq<seq<Unit>>, records: seq<Unit>, record: Unit)
    requires Cuts(front, records)
    ensures Cuts(WithRecord(front, record), records + [record])
  {
    var segments, n := WithRecord(front, record), |front|;
    if n != 0 && front[n - 1][0].value == record.value {
      assert segments[..n - 1] == front[..n - 1];
      assert Joined(front[..n - 1]) + (front[n - 1] + [record]) == (Joined(front[..n - 1]) + front[n - 1]) + [record];
    } else {
      assert segments[..n] == front;
    }
  }

  lemma {:induction false} RecordsAreSegmented(records: seq<Unit>)
    ensures Cuts(Segments(records), records)
  {
    if records == [] {
    } else {
      var front, last := records[..|records| - 1], records[|records| - 1];
      RecordsAreSegmented(front);
      RecordIsSegmented(Segments(front), front, last);
      assert front + [last] == records;
    }
  }

  /** Each unit has the value and the earliest time of its segment. */
  ghost predicate AreEarliest(units: seq<Unit>, segments: seq<seq<Unit>>) {
    && |units| == |segments|
    && forall i :: 0 <= i < |units| ==>
      segments[i] != [] && units[i] == Unit(segments[i][0].value, Earliest(segments[i]))
  }

  lemma UpsertedIsEarliest(units: seq<Unit>, segments: seq<seq<Unit>>, record: Unit)
    requires AreEarliest(units, segments)
    ensures AreEarliest(Upserted(units, record), WithRecord(segments, record))
  {
    var n := |segments|;
    if n != 0 && segments[n - 1][0].value == record.value {
      assert (segments[n - 1] + [record])[..|segments[n - 1]|] == segments[n - 1];
      assert Earliest(segments[n - 1] + [record]) == Min(Earliest(segments[n - 1]), record.timestamp);
    }
  }

  /** A list has one entry for each run of equal values that was recorded: the value, and the earliest
      time of the run. */
  lemma {:induction false} RunsHaveEarliestTimes(records: seq<Unit>)
    ensures AreEarliest(Runs(records), Segments(records))
    ensures Cuts(Segments(records), records)
  {
    RecordsAreSegmented(records);
    if records == [] {
    } else {
      var front, last := records[..|records| - 1], records[|records| - 1];
      RunsHaveEarliestTimes(front);
      UpsertedIsEarliest(Runs(front), Segments(front), last);
    }
  }

  /** A list shows the values in the order in which they were recorded, none twice in a row; every
      time of it is a recorded one, and the last entry is as early as the last record. */
  lemma {:induction false} RunsAreDestuttered(records: seq<Unit>)
    ensures var units := Runs(records);
            && |units| == |Destuttered(records)|
            && (forall i :: 0 <= i < |units| ==> units[i].value == Destuttered(records)[i])
            && (forall i :: 0 < i < |units| ==> units[i - 1].value != units[i].value)
            && (forall i :: 0 <= i < |units| ==> exists u :: u in records && u.timestamp == units[i].timestamp)
            && (records != [] ==>
                  && units != []
                  && units[|units| - 1].value == records[|records| - 1].value
                  && units[|units| - 1].timestamp <= records[|records| - 1].timestamp)
  {
    if records == [] {
    } else {
      var front := records[..|records| - 1];
      RunsAreDestuttered(front);
      var units := Runs(records);
      forall i | 0 <= i < |units|
        ensures exists u :: u in records && u.timestamp == units[i].timestamp
      {
        assert records[|records| - 1] in records;
        if i < |Runs(front)| && units[i].timestamp == Runs(front)[i].timestamp {
          var u :| u in front && u.timestamp == Runs(front)[i].timestamp;
          assert u in records;
        }
      }
    }
  }

  lemma {:induction false} CutAtDot(host: string, domain: string)
    requires '.' !in host
    ensures BeforeDot(host) == host && BeforeDot(host + "." + domain) == host
  {
    if host == "" {
    } else {
      CutAtDot(host[1..], domain);
      assert (host + "." + domain)[1..] == host[1..] + "." + domain;
      assert [host[0]] + host[1..] == host;
    }
  }

  /** Of a node name of ten characters or more what follows the first dot is left out, unless it is an IP. */
  lemma ShortName(isIPv4: string -> bool, name: string, host: string, domain: string)
    requires '.' !in host && (name == host || name == host + "." + domain)
    ensures ShortNodeName(isIPv4, name) == if |name| < 10 || isIPv4(name) then name else host
  {
    CutAtDot(host, domain);
  }
}
