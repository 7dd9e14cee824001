/** The order in which `whois` reads the records of the store (translate/whois.go, the three filters). */
module WhoisReads {
  import opened TranslationData
  import opened WhoisGraph
  import opened WhoisTimes
  import opened WhoisTree

  /** Everything some identifier of `s` is linked to. */
  ghost function AllLinks(db: Db, s: set<Id>): set<Id> {
    set q | q in Universe(db) && exists p :: p in s && Linked(db, p, q)
  }

  lemma AllLinksStep(db: Db, kind: Kind, done: set<string>, value: string)
    ensures AllLinks(db, IdsOf(kind, done + {value})) == AllLinks(db, IdsOf(kind, done)) + Links(db, Id(kind, value))
  {
    var s, p := IdsOf(kind, done), Id(kind, value);
    assert IdsOf(kind, done + {value}) == s + {p};
    forall q | q in AllLinks(db, s) + Links(db, p)
      ensures q in AllLinks(db, s + {p})
    {
      if q in AllLinks(db, s) {
        var r :| r in s && Linked(db, r, q);
        assert r in s + {p};
      } else {
        assert p in s + {p};
        LinksStayInUniverse(db, p, q);
      }
    }
  }

  lemma LinksOfOne(db: Db, p: Id)
    ensures AllLinks(db, {p}) == Links(db, p)
  {
    forall q | q in Links(db, p)
      ensures q in AllLinks(db, {p})
    {
      LinksStayInUniverse(db, p, q);
      assert p in {p};
    }
  }

  ghost function Hashes(hashToIP: map<string, Unit>, keys: set<string>, ip: string): set<Id>
    requires keys <= hashToIP.Keys
  {
    set h | h in keys && hashToIP[h].value == ip :: Id(Uuid, h)
  }

  ghost function Named(units: seq<Unit>): set<Id> {
    set i | 0 <= i < |units| :: Id(NodeName, units[i].value)
  }

  lemma LinksOfIP(db: Db, ip: string)
    ensures Links(db, Id(Ip, ip))
         == Hashes(db.hashToIP, db.hashToIP.Keys, ip) + Named(Units(db.ipToNodeNames, ip))
  {
  }

  ghost function HashIP(hashToIP: map<string, Unit>, uuid: string): set<Id> {
    if uuid in hashToIP then {Id(Ip, hashToIP[uuid].value)} else {}
  }

  lemma LinksOfUUID(db: Db, uuid: string)
    ensures Links(db, Id(Uuid, uuid)) == Named(Units(db.hashToNodeNames, uuid)) + HashIP(db.hashToIP, uuid)
  {
  }

  /** The key, if it is recorded with the name. */
  ghost function Owner(names: seq<Unit>, key: Id, name: string): set<Id> {
    if HasValue(names, name) then {key} else {}
  }

  ghost function Owners(m: map<string, seq<Unit>>, keys: set<string>, kind: Kind, name: string): set<Id>
    requires keys <= m.Keys
  {
    set k | k in keys && HasValue(m[k], name) :: Id(kind, k)
  }

  lemma LinksOfNodeName(db: Db, nodename: string)
    ensures Links(db, Id(NodeName, nodename))
         == if nodename == UNSPECIFIED then {} else
            Owners(db.hashToNodeNames, db.hashToNodeNames.Keys, Uuid, nodename)
            + Owners(db.ipToNodeNames, db.ipToNodeNames.Keys, Ip, nodename)
  {
  }

  lemma OwnersStep(m: map<string, seq<Unit>>, done: set<string>, key: string, kind: Kind, name: string)
    requires done <= m.Keys && key in m
    ensures Owners(m, done + {key}, kind, name)
         == Owners(m, done, kind, name) + Owner(m[key], Id(kind, key), name)
  {
  }

  lemma HashesStep(hashToIP: map<string, Unit>, done: set<string>, hash: string, ip: string)
    requires done <= hashToIP.Keys && hash in hashToIP
    ensures Hashes(hashToIP, done + {hash}, ip)
         == Hashes(hashToIP, done, ip) + (if hashToIP[hash].value == ip then {Id(Uuid, hash)} else {})
  {
  }

  lemma OwnerAppend(names: seq<Unit>, k: nat, next: nat, key: Id, name: string)
    requires next == k + 1 <= |names|
    ensures Owner(names[..next], key, name)
         == Owner(names[..k], key, name) + if names[k].value == name then {key} else {}
  {
    assert names[..next][k] == names[k];
    assert forall i :: 0 <= i < k ==> names[..next][i] == names[..k][i];
  }

  lemma NamedAppend(units: seq<Unit>, k: nat, next: nat)
    requires next == k + 1 <= |units|
    ensures Named(units[..next]) == Named(units[..k]) + {Id(NodeName, units[k].value)}
  {
    assert units[..next][k] == units[k];
    forall i | 0 <= i < k
      ensures Id(NodeName, units[i].value) in Named(units[..next]) && Id(NodeName, units[i].value) in Named(units[..k])
    {
      assert units[..next][i] == units[i] && units[..k][i] == units[i];
    }
  }

  /** The times of the offers that lead from `p` to `q`, in order. */
  function Heard(offers: seq<Offer>, p: Id, q: Id): seq<int> {
    if offers == [] then [] else
      var front, last := offers[..|offers| - 1], offers[|offers| - 1];
      Heard(front, p, q) + if last.from == p && last.p == q then [last.ts] else []
  }

  lemma HeardNext(offers: seq<Offer>, offer: Offer, p: Id, q: Id)
    ensures Heard(offers + [offer], p, q)
         == Heard(offers, p, q) + if offer.from == p && offer.p == q then [offer.ts] else []
  {
    assert (offers + [offer])[..|offers|] == offers;
  }

  lemma {:induction false} HeardConcat(a: seq<Offer>, b: seq<Offer>, p: Id, q: Id)
    ensures Heard(a + b, p, q) == Heard(a, p, q) + Heard(b, p, q)
  {
    if b == [] {
      assert a + b == a;
    } else {
      var front, last := b[..|b| - 1], b[|b| - 1];
      assert a + b == (a + front) + [last];
      HeardConcat(a, front, p, q);
      HeardNext(a + front, last, p, q);
    }
  }

  /** From `was` to `now` the records were read that lead from `from` into `to`, each once and in order. */
  ghost predicate Told(db: Db, was: seq<Offer>, now: seq<Offer>, from: Id, to: set<Id>) {
    && was <= now
    && forall p, q :: Heard(now, p, q) == Heard(was, p, q) + if p == from && q in to then Between(db, p, q) else []
  }

  /** From `was` to `now` all records of the identifiers in `froms` were read, each once and in order. */
  ghost predicate AllTold(db: Db, was: seq<Offer>, now: seq<Offer>, froms: set<Id>) {
    && was <= now
    && forall p, q :: Heard(now, p, q) == Heard(was, p, q) + if p in froms then Between(db, p, q) else []
  }

  lemma ToldNothing(db: Db, was: seq<Offer>, from: Id)
    ensures Told(db, was, was, from, {})
  {
  }

  lemma ToldMore(db: Db, was: seq<Offer>, mid: seq<Offer>, now: seq<Offer>, from: Id, to: set<Id>, more: set<Id>)
    requires Told(db, was, mid, from, to) && Told(db, mid, now, from, more) && to !! more
    ensures Told(db, was, now, from, to + more)
  {
    forall p, q
      ensures Heard(now, p, q) == Heard(was, p, q) + if p == from && q in to + more then Between(db, p, q) else []
    {
      assert Heard(mid, p, q) == Heard(was, p, q) + if p == from && q in to then Between(db, p, q) else [];
    }
  }

  lemma ToldAll(db: Db, was: seq<Offer>, now: seq<Offer>, from: Id)
    requires Told(db, was, now, from, Links(db, from))
    ensures AllTold(db, was, now, {from})
  {
    forall p, q
      ensures Heard(now, p, q) == Heard(was, p, q) + if p in {from} then Between(db, p, q) else []
    {
      LinkedIsRecorded(db, p, q);
    }
  }

  lemma AllToldMore(db: Db, was: seq<Offer>, mid: seq<Offer>, now: seq<Offer>, froms: set<Id>, more: set<Id>)
    requires AllTold(db, was, mid, froms) && AllTold(db, mid, now, more) && froms !! more
    ensures AllTold(db, was, now, froms + more)
  {
    forall p, q
      ensures Heard(now, p, q) == Heard(was, p, q) + if p in froms + more then Between(db, p, q) else []
    {
      assert Heard(mid, p, q) == Heard(was, p, q) + if p in froms then Between(db, p, q) else [];
    }
  }

  /** A record that is alone between its ends. */
  lemma OneTold(db: Db, was: seq<Offer>, from: Id, p: Id, ts: int)
    requires Between(db, from, p) == [ts]
    ensures Told(db, was, was + [Offer(from, p, ts)], from, {p})
  {
    forall r, q
      ensures Heard(was + [Offer(from, p, ts)], r, q)
           == Heard(was, r, q) + if r == from && q in {p} then Between(db, r, q) else []
    {
      HeardNext(was, Offer(from, p, ts), r, q);
    }
  }

  lemma IsNamed(units: seq<Unit>, p: Id)
    ensures p in Named(units) <==> p.kind == NodeName && HasValue(units, p.value)
  {
  }

  /** The names of a list, offered below `from`. */
  function NameOffers(from: Id, names: seq<Unit>): seq<Offer> {
    if names == [] then [] else
      var front, last := names[..|names| - 1], names[|names| - 1];
      NameOffers(from, front) + [Offer(from, Id(NodeName, last.value), last.timestamp)]
  }

  lemma {:induction false} HeardNames(from: Id, names: seq<Unit>, p: Id, q: Id)
    ensures Heard(NameOffers(from, names), p, q)
         == if p == from && q.kind == NodeName then TimesOf(names, q.value) else []
  {
    if names == [] {
    } else {
      var front, last := names[..|names| - 1], names[|names| - 1];
      HeardNames(from, front, p, q);
      HeardNext(NameOffers(from, front), Offer(from, Id(NodeName, last.value), last.timestamp), p, q);
    }
  }

  lemma NamesTold(db: Db, was: seq<Offer>, from: Id, names: seq<Unit>)
    requires forall q: Id :: q.kind == NodeName ==> Between(db, from, q) == TimesOf(names, q.value)
    ensures Told(db, was, was + NameOffers(from, names), from, Named(names))
  {
    forall p, q
      ensures Heard(was + NameOffers(from, names), p, q)
           == Heard(was, p, q) + if p == from && q in Named(names) then Between(db, p, q) else []
    {
      HeardNames(from, names, p, q);
      HeardConcat(was, NameOffers(from, names), p, q);
      IsNamed(names, q);
      SomeTimes(names, q.value);
    }
  }

  /** `p`, offered below the name `from` for each of the names recorded for `p` that is `from`. */
  function KeyOffers(from: Id, p: Id, names: seq<Unit>): seq<Offer> {
    if names == [] then [] else
      var front, last := names[..|names| - 1], names[|names| - 1];
      KeyOffers(from, p, front) + if last.value == from.value then [Offer(from, p, last.timestamp)] else []
  }

  lemma {:induction false} HeardKey(from: Id, key: Id, names: seq<Unit>, p: Id, q: Id)
    ensures Heard(KeyOffers(from, key, names), p, q)
         == if p == from && q == key then TimesOf(names, from.value) else []
  {
    if names == [] {
    } else {
      var front, last := names[..|names| - 1], names[|names| - 1];
      HeardKey(from, key, front, p, q);
      if last.value == from.value {
        HeardNext(KeyOffers(from, key, front), Offer(from, key, last.timestamp), p, q);
      } else {
        assert KeyOffers(from, key, names) == KeyOffers(from, key, front);
      }
    }
  }

  lemma KeyTold(db: Db, was: seq<Offer>, from: Id, key: Id, names: seq<Unit>)
    requires Between(db, from, key) == TimesOf(names, from.value)
    ensures Told(db, was, was + KeyOffers(from, key, names), from, Owner(names, key, from.value))
  {
    SomeTimes(names, from.value);
    forall p, q
      ensures Heard(was + KeyOffers(from, key, names), p, q)
           == Heard(was, p, q)
              + if p == from && q in Owner(names, key, from.value) then Between(db, p, q) else []
    {
      HeardKey(from, key, names, p, q);
      HeardConcat(was, KeyOffers(from, key, names), p, q);
    }
  }

  lemma {:induction false} NotHeard(offers: seq<Offer>, p: Id, q: Id)
    requires forall j :: 0 <= j < |offers| ==> !(offers[j].from == p && offers[j].p == q)
    ensures Heard(offers, p, q) == []
  {
    if offers == [] {
    } else {
      NotHeard(offers[..|offers| - 1], p, q);
    }
  }

  /** The first offer from `p` to `q` has the time of the first record between them. */
  lemma {:induction false} FirstHeard(offers: seq<Offer>, i: nat, p: Id, q: Id)
    requires i < |offers| && offers[i].from == p && offers[i].p == q
    requires forall j :: 0 <= j < i ==> offers[j].p != q
    ensures Heard(offers, p, q) != [] && Heard(offers, p, q)[0] == offers[i].ts
  {
    var front := offers[..|offers| - 1];
    if i == |front| {
      NotHeard(front, p, q);
    } else {
      FirstHeard(front, i, p, q);
    }
  }

  /** What was heard was offered. */
  lemma {:induction false} HeardIsOffered(offers: seq<Offer>, p: Id, q: Id, ts: int)
    ensures ts in Heard(offers, p, q) <==> Offer(p, q, ts) in offers
  {
    if offers == [] {
    } else {
      var front, last := offers[..|offers| - 1], offers[|offers| - 1];
      HeardIsOffered(front, p, q, ts);
      assert offers == front + [last];
    }
  }

  lemma NextName(was: seq<Offer>, from: Id, names: seq<Unit>, k: nat, next: nat)
    requires next == k + 1 <= |names|
    ensures was + NameOffers(from, names[..next])
         == was + NameOffers(from, names[..k]) + [Offer(from, Id(NodeName, names[k].value), names[k].timestamp)]
  {
    assert names[..next][..k] == names[..k];
  }

  lemma NextKey(was: seq<Offer>, from: Id, p: Id, names: seq<Unit>, k: nat, next: nat)
    requires next == k + 1 <= |names|
    ensures was + KeyOffers(from, p, names[..next])
         == was + KeyOffers(from, p, names[..k])
            + if names[k].value == from.value then [Offer(from, p, names[k].timestamp)] else []
  {
    assert names[..next][..k] == names[..k];
  }

  /** The lists of `m` are the records that lead from `from` to its keys. */
  ghost predicate OwnersOf(db: Db, from: Id, kind: Kind, m: map<string, seq<Unit>>) {
    forall key :: key in m ==> Between(db, from, Id(kind, key)) == TimesOf(m[key], from.value)
  }

  lemma OwnerTold(db: Db, was: seq<Offer>, mid: seq<Offer>, from: Id, kind: Kind, m: map<string, seq<Unit>>,
                  done: set<string>, key: string)
    requires OwnersOf(db, from, kind, m) && done <= m.Keys && key in m && key !in done
    requires Told(db, was, mid, from, Owners(m, done, kind, from.value))
    ensures Told(db, was, mid + KeyOffers(from, Id(kind, key), m[key]), from,
                 Owners(m, done + {key}, kind, from.value))
  {
    KeyTold(db, mid, from, Id(kind, key), m[key]);
    OwnersStep(m, done, key, kind, from.value);
    ToldMore(db, was, mid, mid + KeyOffers(from, Id(kind, key), m[key]), from, Owners(m, done, kind, from.value),
             Owner(m[key], Id(kind, key), from.value));
  }

  lemma HashTold(db: Db, was: seq<Offer>, mid: seq<Offer>, ip: string, done: set<string>, hash: string)
    requires done <= db.hashToIP.Keys && hash in db.hashToIP && hash !in done && db.hashToIP[hash].value == ip
    requires Told(db, was, mid, Id(Ip, ip), Hashes(db.hashToIP, done, ip))
    ensures Told(db, was, mid + [Offer(Id(Ip, ip), Id(Uuid, hash), db.hashToIP[hash].timestamp)], Id(Ip, ip),
                 Hashes(db.hashToIP, done + {hash}, ip))
  {
    var from, p, ts := Id(Ip, ip), Id(Uuid, hash), db.hashToIP[hash].timestamp;
    OneTime(db.hashToIP[hash], ip);
    OneTold(db, mid, from, p, ts);
    HashesStep(db.hashToIP, done, hash, ip);
    ToldMore(db, was, mid, mid + [Offer(from, p, ts)], from, Hashes(db.hashToIP, done, ip), {p});
  }

  lemma IPTold(db: Db, was: seq<Offer>, mid: seq<Offer>, now: seq<Offer>, ip: string)
    requires Told(db, was, mid, Id(Ip, ip), Hashes(db.hashToIP, db.hashToIP.Keys, ip))
    requires now == mid + NameOffers(Id(Ip, ip), Units(db.ipToNodeNames, ip))
    ensures AllTold(db, was, now, {Id(Ip, ip)})
  {
    var from, names := Id(Ip, ip), Units(db.ipToNodeNames, ip);
    NamesTold(db, mid, from, names);
    ToldMore(db, was, mid, now, from, Hashes(db.hashToIP, db.hashToIP.Keys, ip), Named(names));
    LinksOfIP(db, ip);
    ToldAll(db, was, now, from);
  }

  lemma UUIDTold(db: Db, was: seq<Offer>, mid: seq<Offer>, now: seq<Offer>, uuid: string)
    requires mid == was + NameOffers(Id(Uuid, uuid), Units(db.hashToNodeNames, uuid))
    requires now == if uuid !in db.hashToIP then mid else
                      var ip := db.hashToIP[uuid]; mid + [Offer(Id(Uuid, uuid), Id(Ip, ip.value), ip.timestamp)]
    ensures AllTold(db, was, now, {Id(Uuid, uuid)})
  {
    var from, names := Id(Uuid, uuid), Units(db.hashToNodeNames, uuid);
    NamesTold(db, was, from, names);
    LinksOfUUID(db, uuid);
    if uuid in db.hashToIP {
      var ip := db.hashToIP[uuid];
      OneTime(ip, ip.value);
      OneTold(db, mid, from, Id(Ip, ip.value), ip.timestamp);
      ToldMore(db, was, mid, now, from, Named(names), {Id(Ip, ip.value)});
    }
    ToldAll(db, was, now, from);
  }

  lemma NoLinks(db: Db, p: Id, was: seq<Offer>)
    requires p.kind.Other?
    ensures Links(db, p) == {} && AllTold(db, was, was, {p})
  {
  }

  lemma UnspecifiedTold(db: Db, was: seq<Offer>)
    ensures AllTold(db, was, was, {Id(NodeName, UNSPECIFIED)})
  {
  }

  lemma NamesHaveOwners(db: Db, nodename: string)
    requires nodename != UNSPECIFIED
    ensures OwnersOf(db, Id(NodeName, nodename), Uuid, db.hashToNodeNames)
    ensures OwnersOf(db, Id(NodeName, nodename), Ip, db.ipToNodeNames)
  {
  }

  lemma NodeNameTold(db: Db, was: seq<Offer>, mid: seq<Offer>, now: seq<Offer>, nodename: string)
    requires nodename != UNSPECIFIED
    requires Told(db, was, mid, Id(NodeName, nodename),
                  Owners(db.hashToNodeNames, db.hashToNodeNames.Keys, Uuid, nodename))
    requires Told(db, mid, now, Id(NodeName, nodename),
                  Owners(db.ipToNodeNames, db.ipToNodeNames.Keys, Ip, nodename))
    ensures AllTold(db, was, now, {Id(NodeName, nodename)})
  {
    var from := Id(NodeName, nodename);
    ToldMore(db, was, mid, now, from, Owners(db.hashToNodeNames, db.hashToNodeNames.Keys, Uuid, nodename),
             Owners(db.ipToNodeNames, db.ipToNodeNames.Keys, Ip, nodename));
    LinksOfNodeName(db, nodename);
    ToldAll(db, was, now, from);
  }

  lemma ValueTold(db: Db, was: seq<Offer>, mid: seq<Offer>, now: seq<Offer>, kind: Kind, done: set<string>,
                  value: string)
    requires AllTold(db, was, mid, IdsOf(kind, done)) && AllTold(db, mid, now, {Id(kind, value)}) && value !in done
    ensures AllTold(db, was, now, IdsOf(kind, done + {value}))
  {
    AllToldMore(db, was, mid, now, IdsOf(kind, done), {Id(kind, value)});
    assert IdsOf(kind, done + {value}) == IdsOf(kind, done) + {Id(kind, value)};
  }

  lemma ExploredTold(db: Db, was: seq<Offer>, mid: seq<Offer>, now: seq<Offer>, a: set<Id>, b: set<Id>, c: set<Id>)
    requires a <= b <= c && AllTold(db, was, mid, b - a) && AllTold(db, mid, now, c - b)
    ensures AllTold(db, was, now, c - a)
  {
    AllToldMore(db, was, mid, now, b - a, c - b);
    assert c - a == (b - a) + (c - b);
  }
}
