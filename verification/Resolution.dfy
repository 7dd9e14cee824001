/** When a name is found for a hash or an IP, and whether it stays found (translate/translate.go,
    SimplestInfoFromIP and SimplestInfoFromHash). */
module Resolution {
  import opened Options
  import opened Sorting
  import opened TranslationData
  import opened Translate

  /** No name comes out empty. */
  predicate NamesKnown(db: Db) {
    && (forall h, i :: h in db.hashToNodeNames && 0 <= i < |db.hashToNodeNames[h]| ==>
      db.hashToNodeNames[h][i].value != "")
    && (forall ip, i :: ip in db.ipToNodeNames && 0 <= i < |db.ipToNodeNames[ip]| ==>
      db.ipToNodeNames[ip][i].value != "")
  }

  predicate NamesSomething(isIPv4: string -> bool, op: Op) {
    (op.HashToNodeName? || op.IPToNodeName?) ==> ShortNodeName(isIPv4, op.name) != ""
  }

  lemma NamesStayKnown(isIPv4: string -> bool, db: Db, op: Op)
    requires NamesKnown(db) && NamesSomething(isIPv4, op)
    ensures NamesKnown(Apply(isIPv4, db, op))
  {
  }

  lemma KnownNameIsFound(db: Db, key: string, date: int)
    requires NamesKnown(db)
    ensures NameOfHash(db, key, date) != "" <==> Units(db.hashToNodeNames, key) != []
    ensures NameOfIP(db, key, date) != "" <==> Units(db.ipToNodeNames, key) != []
  {
    if Units(db.hashToNodeNames, key) != [] {
      AsOf(Units(db.hashToNodeNames, key), date);
    }
    if Units(db.ipToNodeNames, key) != [] {
      AsOf(Units(db.ipToNodeNames, key), date);
    }
  }

  /** The IP has a name of its own or a hash that has one. */
  ghost predicate Resolvable(db: Db, ip: string, date: int) {
    NameOfIP(db, ip, date) != "" || exists u :: IsHashOf(db, ip, u) && NameOfHash(db, u.value, date) != ""
  }

  /** With stable IPs the lookup gives a name exactly if the IP is resolvable. */
  lemma StableLookupResolves(db: Db, ip: string, date: int, info: string)
    requires IsSimplestFromIP(db, ip, date, true, info)
    ensures Resolvable(db, ip, date) ==>
              info != "" && (|| info == NameOfIP(db, ip, date)
                             || exists u :: IsHashOf(db, ip, u) && info == NameOfHash(db, u.value, date))
    ensures !Resolvable(db, ip, date) ==> info == ip
  {
  }

  lemma NothingIsForgotten(isIPv4: string -> bool, db: Db, op: Op, key: string)
    ensures var db' := Apply(isIPv4, db, op);
            && (Units(db.hashToNodeNames, key) != [] ==> Units(db'.hashToNodeNames, key) != [])
            && (Units(db.ipToNodeNames, key) != [] ==> Units(db'.ipToNodeNames, key) != [])
            && (key in db.hashToIP ==> key in db'.hashToIP && db'.hashToIP[key].value == db.hashToIP[key].value)
  {
  }

  /** An IP that was resolved once stays resolved, at every date, whatever is learnt next. */
  lemma StaysResolved(isIPv4: string -> bool, db: Db, op: Op, ip: string, date: int, later: int)
    requires NamesKnown(db) && NamesSomething(isIPv4, op) && Resolvable(db, ip, date)
    ensures Resolvable(Apply(isIPv4, db, op), ip, later)
  {
    var db' := Apply(isIPv4, db, op);
    NamesStayKnown(isIPv4, db, op);
    if NameOfIP(db, ip, date) != "" {
      KnownNameIsFound(db, ip, date);
      NothingIsForgotten(isIPv4, db, op, ip);
      KnownNameIsFound(db', ip, later);
    } else {
      var u :| IsHashOf(db, ip, u) && NameOfHash(db, u.value, date) != "";
      KnownNameIsFound(db, u.value, date);
      NothingIsForgotten(isIPv4, db, op, u.value);
      KnownNameIsFound(db', u.value, later);
      assert IsHashOf(db', ip, Unit(u.value, db'.hashToIP[u.value].timestamp));
    }
  }

  /** The hash has a name of its own, or its IP is resolvable. */
  ghost predicate HashResolvable(db: Db, hash: string, date: int) {
    || NameOfHash(db, hash, date) != ""
    || (hash in db.hashToIP && db.hashToIP[hash].value != "" && Resolvable(db, db.hashToIP[hash].value, date))
  }

  /** With stable IPs the lookup of a hash gives a name exactly if the hash is resolvable. */
  lemma StableHashLookupResolves(db: Db, hash: string, date: int, info: string)
    requires IsSimplestFromHash(db, hash, date, true, info)
    ensures HashResolvable(db, hash, date) ==>
              info != "" && (info == NameOfHash(db, hash, date)
                             || info == NameOfIP(db, db.hashToIP[hash].value, date)
                             || exists u :: IsHashOf(db, db.hashToIP[hash].value, u)
                                            && info == NameOfHash(db, u.value, date))
    ensures !HashResolvable(db, hash, date) ==>
              info == if hash in db.hashToIP && db.hashToIP[hash].value != "" then db.hashToIP[hash].value else hash
  {
    if NameOfHash(db, hash, date) == "" && hash in db.hashToIP && db.hashToIP[hash].value != "" {
      StableLookupResolves(db, db.hashToIP[hash].value, date, info);
    }
  }

  /** A hash that was resolved once stays resolved, at every date, whatever is learnt next. */
  lemma HashStaysResolved(isIPv4: string -> bool, db: Db, op: Op, hash: string, date: int, later: int)
    requires NamesKnown(db) && NamesSomething(isIPv4, op) && HashResolvable(db, hash, date)
    ensures HashResolvable(Apply(isIPv4, db, op), hash, later)
  {
    NothingIsForgotten(isIPv4, db, op, hash);
    if NameOfHash(db, hash, date) != "" {
      NamesStayKnown(isIPv4, db, op);
      KnownNameIsFound(db, hash, date);
      KnownNameIsFound(Apply(isIPv4, db, op), hash, later);
    } else {
      StaysResolved(isIPv4, db, op, db.hashToIP[hash].value, date, later);
    }
  }

  ghost predicate AllNameSomething(isIPv4: string -> bool, ops: seq<Op>) {
    forall i :: 0 <= i < |ops| ==> NamesSomething(isIPv4, ops[i])
  }

  lemma {:induction false} RunKnowsNames(isIPv4: string -> bool, ops: seq<Op>)
    requires AllNameSomething(isIPv4, ops)
    ensures NamesKnown(Run(isIPv4, ops))
  {
    if ops == [] {
    } else {
      RunKnowsNames(isIPv4, ops[..|ops| - 1]);
      NamesStayKnown(isIPv4, Run(isIPv4, ops[..|ops| - 1]), ops[|ops| - 1]);
    }
  }

  /** While every name is known, resolving does not depend on the date. */
  lemma DateDoesNotMatter(db: Db, key: string, date: int, later: int)
    requires NamesKnown(db)
    ensures Resolvable(db, key, date) ==> Resolvable(db, key, later)
    ensures HashResolvable(db, key, date) ==> HashResolvable(db, key, later)
  {
    forall k ensures (NameOfHash(db, k, date) != "") == (NameOfHash(db, k, later) != "")
      ensures (NameOfIP(db, k, date) != "") == (NameOfIP(db, k, later) != "")
    {
      KnownNameIsFound(db, k, date);
      KnownNameIsFound(db, k, later);
    }
  }

  /** Over every run, what was resolved at some point stays resolved, at every date, however the run goes on. */
  lemma {:induction false} RunsStayResolved(isIPv4: string -> bool, ops: seq<Op>, more: seq<Op>, key: string,
                                            date: int, later: int)
    requires AllNameSomething(isIPv4, ops) && AllNameSomething(isIPv4, more)
    ensures Resolvable(Run(isIPv4, ops), key, date) ==> Resolvable(Run(isIPv4, ops + more), key, later)
    ensures HashResolvable(Run(isIPv4, ops), key, date) ==> HashResolvable(Run(isIPv4, ops + more), key, later)
    decreases |more|
  {
    RunKnowsNames(isIPv4, ops);
    if more == [] {
      assert ops + more == ops;
      DateDoesNotMatter(Run(isIPv4, ops), key, date, later);
    } else {
      var front, op := more[..|more| - 1], more[|more| - 1];
      var all := ops + more;
      assert all[..|all| - 1] == ops + front && all[|all| - 1] == op;
      RunsStayResolved(isIPv4, ops, front, key, date, later);
      RunKnowsNames(isIPv4, ops + front);
      var db := Run(isIPv4, ops + front);
      if Resolvable(db, key, later) {
        StaysResolved(isIPv4, db, op, key, later, later);
      }
      if HashResolvable(db, key, later) {
        HashStaysResolved(isIPv4, db, op, key, later, later);
      }
    }
  }

  /** The IP, and the hash of this IP, whose only name an empty name recorded by `op` can hide. */
  function HiddenIP(op: Op): string { if op.IPToNodeName? then op.ip else "ip" }

  function HiddenHash(op: Op): string { if op.HashToNodeName? then op.hash else "hash" }

  /** A store in which the empty name recorded by `op` hides the only name. */
  lemma EmptyNameHides(isIPv4: string -> bool, op: Op) returns (db: Db)
    requires !NamesSomething(isIPv4, op)
    ensures NamesKnown(db) && HiddenHash(op) in db.hashToIP && db.hashToIP[HiddenHash(op)].value == HiddenIP(op)
    ensures Resolvable(db, HiddenIP(op), op.ts) && !Resolvable(Apply(isIPv4, db, op), HiddenIP(op), op.ts)
    ensures NameOfHash(Apply(isIPv4, db, op), HiddenHash(op), op.ts) == ""
  {
    var named := [Unit("n", op.ts - 1)];
    var hidden := named + [Unit("", op.ts)];
    assert Upserted(named, Unit("", op.ts)) == hidden;
    assert MostAppropriate(named, op.ts) == named[0];
    assert hidden[1..] == [Unit("", op.ts)] && hidden[1..][1..] == [];
    assert Scan(hidden[0], hidden[1..], op.ts) == Scan(hidden[1], [], op.ts);
    assert MostAppropriate(hidden, op.ts) == Unit("", op.ts);
    var owned := map[HiddenHash(op) := Unit(HiddenIP(op), 0)];
    if op.IPToNodeName? {
      db := Db(owned, map[], map[op.ip := named], map[]);
      assert NameOfIP(db, op.ip, op.ts) == "n";
      assert Apply(isIPv4, db, op) == Db(owned, map[], map[op.ip := hidden], map[]);
    } else {
      db := Db(owned, map[op.hash := named], map[], map[]);
      assert IsHashOf(db, "ip", Unit(op.hash, 0)) && NameOfHash(db, op.hash, op.ts) == "n";
      assert Apply(isIPv4, db, op) == Db(owned, map[op.hash := hidden], map[], map[]);
    }
  }

  /** With stable IPs, a step leaves every IP resolved that was, in every store, exactly if it records no
      empty name. */
  lemma StaysResolvedExactly(isIPv4: string -> bool, op: Op)
    ensures NamesSomething(isIPv4, op) <==>
      forall db, ip, date, later :: NamesKnown(db) && Resolvable(db, ip, date) ==>
        Resolvable(Apply(isIPv4, db, op), ip, later)
  {
    if NamesSomething(isIPv4, op) {
      forall db, ip, date, later | NamesKnown(db) && Resolvable(db, ip, date)
        ensures Resolvable(Apply(isIPv4, db, op), ip, later)
      {
        StaysResolved(isIPv4, db, op, ip, date, later);
      }
    } else {
      var db := EmptyNameHides(isIPv4, op);
      assert !Resolvable(Apply(isIPv4, db, op), HiddenIP(op), op.ts);
    }
  }

  /** An empty name recorded for the empty IP changes nothing for hashes. */
  lemma EmptyIPDoesNotMatter(isIPv4: string -> bool, db: Db, op: Op, hash: string, date: int, later: int)
    requires op.IPToNodeName? && op.ip == "" && NamesKnown(db) && HashResolvable(db, hash, date)
    ensures HashResolvable(Apply(isIPv4, db, op), hash, later)
  {
    DateDoesNotMatter(db, hash, date, later);
    var db' := Apply(isIPv4, db, op);
    if NameOfHash(db, hash, later) == "" {
      var ip := db.hashToIP[hash].value;
      assert NameOfIP(db', ip, later) == NameOfIP(db, ip, later);
      if u :| IsHashOf(db, ip, u) && NameOfHash(db, u.value, later) != "" {
        assert IsHashOf(db', ip, u) && NameOfHash(db', u.value, later) != "";
      }
    }
  }

  /** With stable IPs, a step leaves every hash resolved that was, in every store, exactly if it records no
      empty name, unless this is for the empty IP. */
  lemma HashesStayResolvedExactly(isIPv4: string -> bool, op: Op)
    ensures NamesSomething(isIPv4, op) || (op.IPToNodeName? && op.ip == "") <==>
      forall db, hash, date, later :: NamesKnown(db) && HashResolvable(db, hash, date) ==>
        HashResolvable(Apply(isIPv4, db, op), hash, later)
  {
    if NamesSomething(isIPv4, op) || (op.IPToNodeName? && op.ip == "") {
      forall db, hash, date, later | NamesKnown(db) && HashResolvable(db, hash, date)
        ensures HashResolvable(Apply(isIPv4, db, op), hash, later)
      {
        if NamesSomething(isIPv4, op) {
          HashStaysResolved(isIPv4, db, op, hash, date, later);
        } else {
          EmptyIPDoesNotMatter(isIPv4, db, op, hash, date, later);
        }
      }
    } else {
      var db := EmptyNameHides(isIPv4, op);
      assert HashResolvable(db, HiddenHash(op), op.ts);
      assert !HashResolvable(Apply(isIPv4, db, op), HiddenHash(op), op.ts);
    }
  }

  // ---- IPs that may be reused

  /** The IP has a hash, and all its hashes have names. */
  ghost predicate AllHashesNamed(db: Db, ip: string) {
    && (exists u :: IsHashOf(db, ip, u))
    && (forall u :: IsHashOf(db, ip, u) ==> u.value != "" && Units(db.hashToNodeNames, u.value) != [])
  }

  /** The name that the lookup finds with the hashes of the IP in this order, "" if it finds none. */
  function PickedName(db: Db, units: seq<Unit>, date: int): string {
    var hash := MostAppropriate(units, date).value;
    if hash == "" then "" else NameOfHash(db, hash, date)
  }

  lemma PickedIsAsOf(db: Db, ip: string, units: seq<Unit>, date: int)
    requires IsListing(db, ip, units) && units != []
    ensures var u := MostAppropriate(units, date); IsHashOf(db, ip, u) && IsAsOf(db, ip, date, u)
  {
    AsOf(units, date);
  }

  lemma {:induction false} HashesOf(db: Db, ip: string, hashes: set<string>) returns (units: seq<Unit>)
    requires hashes <= db.hashToIP.Keys
    ensures DistinctValues(units)
    ensures forall u :: u in units <==> u.value in hashes && IsHashOf(db, ip, u)
    decreases |hashes|
  {
    if hashes == {} {
      units := [];
    } else {
      var hash :| hash in hashes;
      units := HashesOf(db, ip, hashes - {hash});
      if db.hashToIP[hash].value == ip {
        units := units + [Unit(hash, db.hashToIP[hash].timestamp)];
      }
    }
  }

  /** Sorting puts the unit at the head before those of its time. */
  lemma {:induction false} InsertedFirst(units: seq<Unit>, unit: Unit)
    requires InOrder(Earlier, units)
    ensures var longer := Insert(Earlier, unit, units);
            exists k :: 0 <= k < |longer| && longer[k] == unit && forall j :: 0 <= j < k ==> Earlier(longer[j], unit)
  {
    if units == [] || !Earlier(units[0], unit) {
      assert Insert(Earlier, unit, units)[0] == unit;
    } else {
      InsertedFirst(units[1..], unit);
      var rest := Insert(Earlier, unit, units[1..]);
      var k :| 0 <= k < |rest| && rest[k] == unit && forall j :: 0 <= j < k ==> Earlier(rest[j], unit);
      assert Insert(Earlier, unit, units) == [units[0]] + rest;
      assert Insert(Earlier, unit, units)[k + 1] == unit;
    }
  }

  lemma {:induction false} ScanTakesFirst(cur: Unit, units: seq<Unit>, date: int, u: Unit, k: nat)
    requires k <= |units| && u == if k == 0 then cur else units[k - 1]
    requires 0 < k ==> cur.timestamp < u.timestamp
    requires forall j :: 0 <= j < k - 1 ==> units[j].timestamp < u.timestamp
    requires Scan(cur, units, date).timestamp == u.timestamp
    ensures Scan(cur, units, date) == u
    decreases |units|
  {
    if units == [] {
    } else {
      var next := if cur.timestamp < units[0].timestamp <= date then units[0] else cur;
      ScanFinds(next, units[1..], date);
      if k == 0 {
        ScanTakesFirst(next, units[1..], date, u, 0);
      } else if k == 1 {
        ScanFinds(cur, units, date);
        ScanTakesFirst(next, units[1..], date, u, 0);
      } else {
        ScanTakesFirst(next, units[1..], date, u, k - 1);
      }
    }
  }

  /** Of the units with the time found, the lookup takes the first. */
  lemma PickedFirst(units: seq<Unit>, date: int, u: Unit)
    requires exists k :: 0 <= k < |units| && units[k] == u && forall j :: 0 <= j < k ==> Earlier(units[j], u)
    requires units != [] && MostAppropriate(units, date).timestamp == u.timestamp
    ensures MostAppropriate(units, date) == u
  {
    var k :| 0 <= k < |units| && units[k] == u && forall j :: 0 <= j < k ==> Earlier(units[j], u);
    ScanTakesFirst(units[0], units[1..], date, u, k);
  }

  /** Every hash that is the latest one at the date is picked in some order of the map. */
  lemma ListingThatPicks(db: Db, ip: string, date: int, u: Unit) returns (units: seq<Unit>)
    requires IsHashOf(db, ip, u) && IsAsOf(db, ip, date, u)
    ensures IsListing(db, ip, units) && MostAppropriate(units, date) == u
  {
    var rest := HashesOf(db, ip, db.hashToIP.Keys - {u.value});
    forall other | other in rest ensures other.value != u.value {
      assert IsHashOf(db, ip, other);
    }
    units := SortBy(Earlier, [u] + rest);
    SortedListing(db, ip, [u] + rest);
    SortByOrders(Earlier, rest);
    InsertedFirst(SortBy(Earlier, rest), u);
    assert ([u] + rest)[1..] == rest;
    AsOf(units, date);
    PickedFirst(units, date, u);
  }

  /** What the lookup may return is exactly what it returns for some order of the hashes. */
  lemma UnstableLookup(db: Db, ip: string, date: int, info: string)
    requires NameOfIP(db, ip, date) == ""
    ensures IsSimplestFromIP(db, ip, date, false, info) <==>
      exists units :: IsListing(db, ip, units)
                      && info == if PickedName(db, units, date) != "" then PickedName(db, units, date) else ip
  {
    if IsSimplestFromIP(db, ip, date, false, info) {
      if u :| IsHashOf(db, ip, u) && IsAsOf(db, ip, date, u)
              && info == if u.value != "" && NameOfHash(db, u.value, date) != "" then NameOfHash(db, u.value, date)
                else ip {
        var units := ListingThatPicks(db, ip, date, u);
      } else {
        assert IsListing(db, ip, []);
      }
    }
    if units :| IsListing(db, ip, units)
                && info == if PickedName(db, units, date) != "" then PickedName(db, units, date) else ip {
      if units != [] {
        PickedIsAsOf(db, ip, units, date);
      }
    }
  }

  /** With IPs that may be reused, an IP without a name of its own is named at every date, in whatever
      order the map is walked, exactly if it has a hash and all its hashes have names. */
  lemma UnstableAlwaysFinds(db: Db, ip: string)
    requires NamesKnown(db)
    ensures (forall units, date :: IsListing(db, ip, units) ==> PickedName(db, units, date) != "") <==>
      AllHashesNamed(db, ip)
  {
    if exists u :: IsHashOf(db, ip, u) && (u.value == "" || Units(db.hashToNodeNames, u.value) == []) {
      var u :| IsHashOf(db, ip, u) && (u.value == "" || Units(db.hashToNodeNames, u.value) == []);
      var units := ListingThatPicks(db, ip, u.timestamp, u);
      assert PickedName(db, units, u.timestamp) == "";
    } else if exists u :: IsHashOf(db, ip, u) {
      forall units, date | IsListing(db, ip, units) ensures PickedName(db, units, date) != "" {
        var u :| IsHashOf(db, ip, u);
        assert u in units;
        PickedIsAsOf(db, ip, units, date);
        KnownNameIsFound(db, MostAppropriate(units, date).value, date);
      }
    } else {
      assert IsListing(db, ip, []);
      assert PickedName(db, [], 0) == "";
    }
  }

  /** The name that the lookup finds for the IP with its hashes in this order, "" if it finds none. */
  function FoundName(db: Db, ip: string, units: seq<Unit>, date: int): string {
    if NameOfIP(db, ip, date) != "" then NameOfIP(db, ip, date) else PickedName(db, units, date)
  }

  predicate HasOwnName(db: Db, ip: string) {
    Units(db.ipToNodeNames, ip) != []
  }

  ghost predicate AlwaysNamed(db: Db, ip: string) {
    HasOwnName(db, ip) || AllHashesNamed(db, ip)
  }

  /** With IPs that may be reused, the IP is named at every date and in every order of the map. */
  lemma AlwaysNamedIsFound(db: Db, ip: string)
    requires NamesKnown(db)
    ensures AlwaysNamed(db, ip) <==>
      forall units, date :: IsListing(db, ip, units) ==> FoundName(db, ip, units, date) != ""
  {
    UnstableAlwaysFinds(db, ip);
    forall date
      ensures NameOfIP(db, ip, date) != "" <==> HasOwnName(db, ip)
    {
      KnownNameIsFound(db, ip, date);
    }
    if !AlwaysNamed(db, ip) {
      var units, date :| IsListing(db, ip, units) && PickedName(db, units, date) == "";
      assert FoundName(db, ip, units, date) == "";
    }
  }

  /** The step records a new hash without a name for an IP without a name of its own. */
  predicate HidesName(db: Db, op: Op, ip: string) {
    && op.HashToIP? && op.ip == ip && op.hash !in db.hashToIP
    && (op.hash == "" || Units(db.hashToNodeNames, op.hash) == [])
    && !HasOwnName(db, ip)
  }

  /** With IPs that may be reused, an IP that is always named stays so exactly if the step does not record such
      a hash for it. */
  lemma StaysNamedExactly(isIPv4: string -> bool, db: Db, op: Op, ip: string)
    requires AlwaysNamed(db, ip)
    ensures AlwaysNamed(Apply(isIPv4, db, op), ip) <==> !HidesName(db, op, ip)
  {
    var db' := Apply(isIPv4, db, op);
    NothingIsForgotten(isIPv4, db, op, ip);
    if HidesName(db, op, ip) {
      assert IsHashOf(db', ip, Unit(op.hash, op.ts));
    } else if !HasOwnName(db, ip) {
      var u :| IsHashOf(db, ip, u);
      NothingIsForgotten(isIPv4, db, op, u.value);
      assert IsHashOf(db', ip, Unit(u.value, db'.hashToIP[u.value].timestamp));
      forall w | IsHashOf(db', ip, w)
        ensures w.value != "" && Units(db'.hashToNodeNames, w.value) != []
      {
        NothingIsForgotten(isIPv4, db, op, w.value);
        if w.value in db.hashToIP {
          assert IsHashOf(db, ip, Unit(w.value, db.hashToIP[w.value].timestamp));
        }
      }
    }
  }

  /** With IPs that may be reused, a later hash without a name hides the name found before. */
  lemma UnstableMayForget(isIPv4: string -> bool, before: string, after: string)
    requires var db := Run(isIPv4, [HashToIP("h1", "ip", 1), HashToNodeName("h1", "n", 1)]);
             IsSimplestFromIP(db, "ip", 6, false, before)
    requires var db := Run(isIPv4, [HashToIP("h1", "ip", 1), HashToNodeName("h1", "n", 1), HashToIP("h2", "ip", 5)]);
             IsSimplestFromIP(db, "ip", 6, false, after)
    ensures before == "n" && after == "ip"
  {
    var o1, o2, o3 := HashToIP("h1", "ip", 1), HashToNodeName("h1", "n", 1), HashToIP("h2", "ip", 5);
    var db1 := Apply(isIPv4, EMPTY_DB, o1);
    assert [o1][..0] == [] && Run(isIPv4, [o1]) == db1;
    var db2 := Apply(isIPv4, db1, o2);
    assert [o1, o2][..1] == [o1] && Run(isIPv4, [o1, o2]) == db2;
    var db3 := Apply(isIPv4, db2, o3);
    assert [o1, o2, o3][..2] == [o1, o2] && Run(isIPv4, [o1, o2, o3]) == db3;
    assert NameOfHash(db2, "h1", 6) == "n" && NameOfHash(db3, "h2", 6) == "";
    assert IsHashOf(db2, "ip", Unit("h1", 1));
    assert IsHashOf(db3, "ip", Unit("h2", 5));
  }
}
