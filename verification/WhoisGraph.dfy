/** The identity graph that `whois` explores (translate/whois.go): node names, IPs and UUIDs,
    joined by the records of the translation store. */
module WhoisGraph {
  import opened TranslationData

  /** What an identifier is: the strings "nodename", "ip" and "uuid", or another search type. */
  datatype Kind = NodeName | Ip | Uuid | Other(name: string)

  /** One identifier of a cluster node. */
  datatype Id = Id(kind: Kind, value: string)

  const UNSPECIFIED := "unspecified"

  predicate HasValue(units: seq<Unit>, value: string) {
    exists i :: 0 <= i < |units| && units[i].value == value
  }

  predicate Records(m: map<string, seq<Unit>>, key: string, value: string) {
    key in m && HasValue(m[key], value)
  }

  /** The outgoing links of `p`.  A link is a record of the store read in either direction,
      except that the name "unspecified" leads nowhere. */
  predicate Linked(db: Db, p: Id, q: Id) {
    match p.kind
    case Ip =>
      || (q.kind == Uuid && q.value in db.hashToIP && db.hashToIP[q.value].value == p.value)
      || (q.kind == NodeName && Records(db.ipToNodeNames, p.value, q.value))
    case Uuid =>
      || (q.kind == NodeName && Records(db.hashToNodeNames, p.value, q.value))
      || (q.kind == Ip && p.value in db.hashToIP && db.hashToIP[p.value].value == q.value)
    case NodeName =>
      && p.value != UNSPECIFIED
      && (|| (q.kind == Uuid && Records(db.hashToNodeNames, q.value, p.value))
          || (q.kind == Ip && Records(db.ipToNodeNames, q.value, p.value)))
    case Other(_) => false
  }

  /** The times of the units with the given value, in order. */
  function TimesOf(units: seq<Unit>, value: string): seq<int> {
    if units == [] then [] else
      var front, last := units[..|units| - 1], units[|units| - 1];
      TimesOf(front, value) + if last.value == value then [last.timestamp] else []
  }

  /** The times of the records that lead from `p` to `q`, in the order of the store. */
  function Between(db: Db, p: Id, q: Id): seq<int> {
    match (p.kind, q.kind)
    case (Ip, Uuid) => if q.value in db.hashToIP then TimesOf([db.hashToIP[q.value]], p.value) else []
    case (Uuid, Ip) => if p.value in db.hashToIP then TimesOf([db.hashToIP[p.value]], q.value) else []
    case (Ip, NodeName) => TimesOf(Units(db.ipToNodeNames, p.value), q.value)
    case (Uuid, NodeName) => TimesOf(Units(db.hashToNodeNames, p.value), q.value)
    case (NodeName, Ip) =>
      if p.value == UNSPECIFIED then [] else TimesOf(Units(db.ipToNodeNames, q.value), p.value)
    case (NodeName, Uuid) =>
      if p.value == UNSPECIFIED then [] else TimesOf(Units(db.hashToNodeNames, q.value), p.value)
    case _ => []
  }

  lemma {:induction false} SomeTimes(units: seq<Unit>, value: string)
    ensures TimesOf(units, value) != [] <==> HasValue(units, value)
  {
    if units == [] {
    } else {
      var front := units[..|units| - 1];
      SomeTimes(front, value);
      assert units == front + [units[|units| - 1]];
      assert forall i :: 0 <= i < |front| ==> units[i] == front[i];
    }
  }

  lemma SomeRecords(m: map<string, seq<Unit>>, key: string, value: string)
    ensures TimesOf(Units(m, key), value) != [] <==> Records(m, key, value)
  {
    SomeTimes(Units(m, key), value);
  }

  lemma OneTime(unit: Unit, value: string)
    ensures TimesOf([unit], value) == if unit.value == value then [unit.timestamp] else []
  {
    assert TimesOf([unit][..0], value) == [];
  }

  /** There is a link where there are records. */
  lemma LinkedIsRecorded(db: Db, p: Id, q: Id)
    ensures Linked(db, p, q) <==> Between(db, p, q) != []
  {
    match (p.kind, q.kind) {
      case (Ip, Uuid) => if q.value in db.hashToIP { OneTime(db.hashToIP[q.value], p.value); }
      case (Uuid, Ip) => if p.value in db.hashToIP { OneTime(db.hashToIP[p.value], q.value); }
      case (Ip, NodeName) => SomeRecords(db.ipToNodeNames, p.value, q.value);
      case (Uuid, NodeName) => SomeRecords(db.hashToNodeNames, p.value, q.value);
      case (NodeName, Ip) => SomeRecords(db.ipToNodeNames, q.value, p.value);
      case (NodeName, Uuid) => SomeRecords(db.hashToNodeNames, q.value, p.value);
      case _ =>
    }
  }

  /** Every identifier the store mentions, so every identifier a link can lead to. */
  ghost function Universe(db: Db): set<Id> {
    (set h | h in db.hashToIP :: Id(Uuid, h))
    + (set h | h in db.hashToNodeNames :: Id(Uuid, h))
    + (set h | h in db.hashToIP :: Id(Ip, db.hashToIP[h].value))
    + (set ip | ip in db.ipToNodeNames :: Id(Ip, ip))
    + (set h, i | h in db.hashToNodeNames && 0 <= i < |db.hashToNodeNames[h]| ::
         Id(NodeName, db.hashToNodeNames[h][i].value))
    + (set ip, i | ip in db.ipToNodeNames && 0 <= i < |db.ipToNodeNames[ip]| ::
         Id(NodeName, db.ipToNodeNames[ip][i].value))
  }

  lemma LinksStayInUniverse(db: Db, p: Id, q: Id)
    requires Linked(db, p, q)
    ensures q in Universe(db)
  {
  }

  /** `path` is a walk along links from `p` to `q`. */
  ghost predicate IsWalk(db: Db, p: Id, q: Id, path: seq<Id>) {
    && 0 < |path|
    && path[0] == p
    && path[|path| - 1] == q
    && forall i :: 0 <= i < |path| - 1 ==> Linked(db, path[i], path[i + 1])
  }

  ghost predicate Reachable(db: Db, p: Id, q: Id) {
    exists path :: IsWalk(db, p, q, path)
  }

  ghost predicate AllReachable(db: Db, start: Id, pairs: set<Id>) {
    forall p :: p in pairs ==> Reachable(db, start, p)
  }

  lemma ReachableStart(db: Db, p: Id)
    ensures Reachable(db, p, p)
  {
    assert IsWalk(db, p, p, [p]);
  }

  lemma ReachableStep(db: Db, p: Id, q: Id, r: Id)
    requires Reachable(db, p, q) && Linked(db, q, r)
    ensures Reachable(db, p, r)
  {
    var path :| IsWalk(db, p, q, path);
    assert IsWalk(db, p, r, path + [r]);
  }

  /** The identifiers `p` is linked to. */
  ghost function Links(db: Db, p: Id): (links: set<Id>)
    ensures forall q :: q in links <==> Linked(db, p, q)
  {
    set q | q in Universe(db) && Linked(db, p, q)
  }

  /** A set that holds `p` and is closed under links holds everything reachable from `p`. */
  lemma ClosedSetHoldsReachable(db: Db, p: Id, q: Id, closed: set<Id>)
    requires p in closed && Reachable(db, p, q)
    requires forall a, b :: a in closed && Linked(db, a, b) ==> b in closed
    ensures q in closed
  {
    var path :| IsWalk(db, p, q, path);
    var i := 0;
    while i < |path| - 1
      invariant 0 <= i < |path| && path[i] in closed
    {
      assert Linked(db, path[i], path[i + 1]);
      i := i + 1;
    }
  }

  lemma ReachableInUniverse(db: Db, p: Id, q: Id)
    requires Reachable(db, p, q)
    ensures q in {p} + Universe(db)
  {
    var path :| IsWalk(db, p, q, path);
    if 1 < |path| {
      assert Linked(db, path[|path| - 2], path[|path| - 1]);
      LinksStayInUniverse(db, path[|path| - 2], q);
    }
  }

  lemma ReachableTransitive(db: Db, p: Id, q: Id, r: Id)
    requires Reachable(db, p, q) && Reachable(db, q, r)
    ensures Reachable(db, p, r)
  {
    var first :| IsWalk(db, p, q, first);
    var second :| IsWalk(db, q, r, second);
    var path := first + second[1..];
    forall i | 0 <= i < |path| - 1
      ensures Linked(db, path[i], path[i + 1])
    {
      if i < |first| - 1 {
        assert Linked(db, first[i], first[i + 1]);
      } else {
        assert path[i] == second[i - |first| + 1];
        assert path[i + 1] == second[i - |first| + 2];
      }
    }
    assert IsWalk(db, p, r, path);
  }

  /** Every record is read in both directions, so a link can be walked back unless it ends at
      the name "unspecified". */
  lemma LinksAreSymmetric(db: Db, p: Id, q: Id)
    requires Linked(db, p, q)
    ensures Linked(db, q, p) <==> q != Id(NodeName, "unspecified")
  {
  }

  lemma {:induction false} WalkBack(db: Db, p: Id, q: Id, path: seq<Id>)
    requires IsWalk(db, p, q, path) && q != Id(NodeName, UNSPECIFIED)
    ensures Reachable(db, q, p)
    decreases |path|
  {
    if |path| == 1 {
      ReachableStart(db, q);
    } else {
      var before := path[|path| - 2];
      assert Linked(db, path[|path| - 2], path[|path| - 1]);
      LinksAreSymmetric(db, before, q);
      WalkBack(db, p, before, path[..|path| - 1]);
      ReachableStart(db, q);
      ReachableStep(db, q, q, before);
      ReachableTransitive(db, q, before, p);
    }
  }

  /** Identifiers joined by a walk that does not end at "unspecified" reach the same identifiers. */
  lemma SameReach(db: Db, p: Id, q: Id, r: Id)
    requires Reachable(db, p, q) && q != Id(NodeName, "unspecified")
    ensures Reachable(db, p, r) <==> Reachable(db, q, r)
  {
    var path :| IsWalk(db, p, q, path);
    WalkBack(db, p, q, path);
    if Reachable(db, p, r) {
      ReachableTransitive(db, q, p, r);
    }
    if Reachable(db, q, r) {
      ReachableTransitive(db, p, q, r);
    }
  }
}
