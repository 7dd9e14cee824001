/** Where `whois` shows an identifier that is recorded with several others (translate/whois.go,
    forcedIterationOrder and filter): below the one that is explored first. */
module WhoisPlaces {
  import opened Options
  import opened TranslationData
  import opened WhoisAnswers
  import opened WhoisGraph
  import opened WhoisOffers
  import opened WhoisOrder
  import opened WhoisTimes
  import opened WhoisTree
  import opened ShownTimes

  /** What `whois` answers: a tree built from the records of what it holds, read in order. */
  ghost predicate Explored(db: Db, start: Id, ns: seq<WhoisNode>, offers: seq<Offer>) {
    Answers(db, start, ns, offers) && ReadInOrder(ns, offers)
  }

  /** Nothing that is linked to `p` was to be explored before what `p` hangs below. */
  lemma HangsBelowFirst(db: Db, start: Id, ns: seq<WhoisNode>, offers: seq<Offer>, p: Id, from: Id, a: Id)
    requires Explored(db, start, ns, offers) && p in Pairs(ns) && p != start && HangsBelow(ns, p, from)
    requires a in Pairs(ns) && Linked(db, a, p)
    ensures !ReadSooner(ns, a, from)
  {
    var i := ShownByFirst(ns, start, offers, p);
    BuiltTimes(ns, start, offers);
    HangsOnce(ns, p, from, offers[i].from);
    LinkedIsRecorded(db, a, p);
    var ts := Between(db, a, p)[0];
    OfferedIsRecorded(db, offers, Pairs(ns), a, p, ts);
    var j :| 0 <= j < |offers| && offers[j] == Offer(a, p, ts);
    if i == j {
      var n := NodeOf(ns, a);
      assert Under(ns, n, n);
      NodeReadFirst(ns, n, a, a);
    }
  }

  /** `a` and `b` hang below one identifier, and the kind of `a` comes first.  What `a` leads to does not hang
      below `b`, nor below anything in the subtree of `b`. */
  lemma NotBelowLaterKind(db: Db, start: Id, ns: seq<WhoisNode>, offers: seq<Offer>, x: Id, a: Id, b: Id, n: nat,
                          p: Id, from: Id)
    requires Explored(db, start, ns, offers) && Tree(ns)
    requires HangsBelow(ns, a, x) && HangsBelow(ns, b, x) && Precedes(a.kind, b.kind)
    requires n < |ns| && Holds(ns[n], b)
    requires p in Pairs(ns) && p != start && Linked(db, a, p) && HangsBelow(ns, p, from)
    ensures !Below(ns, n, from)
  {
    var c: nat :| HangsAt(ns, c, a, x);
    var d: nat :| HangsAt(ns, d, b, x);
    InPairs(ns, a);
    HangsBelowFirst(db, start, ns, offers, p, from, a);
    OneHolder(ns, b, d, n);
    var e, f := ns[c].parentNode.value, ns[d].parentNode.value;
    OneHolder(ns, x, e, f);
    if Below(ns, n, from) {
      var i: nat :| i < |ns| && Under(ns, i, n) && Holds(ns[i], from);
      assert Elder(ns, c, d) && Under(ns, c, c);
      assert SoonerIn(ns, c, a, i, from);
    }
  }

  /** What an identifier leads to does not hang deeper in the subtree of its node. */
  lemma NotDeeper(db: Db, start: Id, ns: seq<WhoisNode>, offers: seq<Offer>, n: nat, a: Id, p: Id, from: Id)
    requires Explored(db, start, ns, offers) && n < |ns| && Holds(ns[n], a)
    requires p in Pairs(ns) && p != start && Linked(db, a, p) && HangsBelow(ns, p, from)
    ensures Below(ns, n, from) ==> Holds(ns[n], from)
  {
    InPairs(ns, a);
    HangsBelowFirst(db, start, ns, offers, p, from, a);
    if Below(ns, n, from) {
      var i: nat :| i < |ns| && Under(ns, i, n) && Holds(ns[i], from);
      assert i != n ==> SoonerIn(ns, n, a, i, from);
    }
  }

  // ---- what is recorded with something that the search term leads to

  lemma RootAfterOffer(ns: seq<WhoisNode>, n: nat, v: string, p: Id, ts: int)
    requires Tree(ns) && n < |ns| && v in ns[n].values
    ensures var ns' := WithOffer(ns, n, v, p.kind, p.value, ts);
            ns' != [] && ns'[0].nodetype == ns[0].nodetype && ns'[0].values.Keys == ns[0].values.Keys
  {
    assert ChildrenOk(ns, n);
    if p.kind in ns[n].values[v].subNodes {
      assert n < ns[n].values[v].subNodes[p.kind];
    }
  }

  /** The root holds the search term only. */
  lemma {:induction false} RootHoldsStart(ns: seq<WhoisNode>, start: Id, offers: seq<Offer>)
    requires BuiltBy(ns, start, offers)
    ensures ns != [] && ns[0].nodetype == start.kind && ns[0].values.Keys == {start.value}
    decreases |offers|
  {
    if offers == [] {
    } else {
      var prev := BeforeLast(ns, start, offers);
      RootHoldsStart(prev, start, offers[..|offers| - 1]);
      var offer := offers[|offers| - 1];
      RootAfterOffer(prev, NodeOf(prev, offer.from), offer.from.value, offer.p, offer.ts);
    }
  }

  /** The child of the root whose subtree holds `from`. */
  lemma BranchOfRoot(ns: seq<WhoisNode>, start: Id, offers: seq<Offer>, from: Id) returns (c: nat)
    requires BuiltBy(ns, start, offers) && Tree(ns) && from in Pairs(ns) && from != start
    ensures c < |ns| && ns[c].parentNode == Some(0) && StoredAt(ns, c, start.value) && Below(ns, c, from)
  {
    RootHoldsStart(ns, start, offers);
    var i := NodeOf(ns, from);
    UnderRoot(ns, i);
    c := Branch(ns, i, 0);
    assert NonRootOk(ns, c);
    var v :| StoredAt(ns, c, v);
    assert Below(ns, c, from);
  }

  lemma LinkedHangsBelowStart(db: Db, start: Id, ns: seq<WhoisNode>, offers: seq<Offer>, q: Id) returns (d: nat)
    requires Explored(db, start, ns, offers) && Tree(ns) && Linked(db, start, q)
    ensures q in Pairs(ns) && HangsBelow(ns, q, start)
    ensures d < |ns| && ns[d].parentNode == Some(0) && StoredAt(ns, d, start.value) && Holds(ns[d], q)
  {
    LatestBelowStart(db, start, ns, offers, q);
    d :| HangsAt(ns, d, q, start);
    RootHoldsStart(ns, start, offers);
    OneHolder(ns, start, ns[d].parentNode.value, 0);
  }

  /** What hangs below a child of the root is linked to the search term. */
  lemma ChildOfRootIsLinked(db: Db, start: Id, ns: seq<WhoisNode>, offers: seq<Offer>, c: nat, r: Id)
    requires Explored(db, start, ns, offers) && Tree(ns)
    requires c < |ns| && ns[c].parentNode == Some(0) && StoredAt(ns, c, start.value) && Holds(ns[c], r) && r != start
    ensures r.kind == ns[c].nodetype && Linked(db, start, r)
  {
    RootHoldsStart(ns, start, offers);
    InPairs(ns, r);
    assert HangsAt(ns, c, r, start);
    ShownSinceFirst(db, start, ns, offers, r, start);
    LinkedIsRecorded(db, start, r);
  }

  /** The search term leads to `q`, this leads to `p`, and the search term itself does not.  If the search term
      leads to nothing of an earlier kind than `q`, then `p` hangs below something of the kind of `q` that the
      search term leads to. */
  lemma FirstKindFirst(db: Db, start: Id, ns: seq<WhoisNode>, offers: seq<Offer>, q: Id, p: Id) returns (r: Id)
    requires Explored(db, start, ns, offers)
    requires Linked(db, start, q) && Linked(db, q, p) && p != start && !Linked(db, start, p)
    requires forall s :: Linked(db, start, s) ==> !Precedes(s.kind, q.kind)
    ensures r.kind == q.kind && Linked(db, start, r) && HangsBelow(ns, p, r)
  {
    BuiltTimes(ns, start, offers);
    var d := LinkedHangsBelowStart(db, start, ns, offers, q);
    HoldsLinks(db, start, ns, offers, q, p);
    r := HangsSomewhere(db, start, ns, offers, p);
    ShownSinceFirst(db, start, ns, offers, p, r);
    LinkedIsRecorded(db, r, p);
    var c := BranchOfRoot(ns, start, offers, r);
    if c != d {
      var s := SomeIdOf(ns, c);
      RootHoldsStart(ns, start, offers);
      StartIsInRoot(ns, start, c, s);
      ChildOfRootIsLinked(db, start, ns, offers, c, s);
      assert HangsAt(ns, c, s, start) && HangsAt(ns, d, q, start);
      assert ns[c].nodetype != ns[d].nodetype;
      OnlyKinds(db, start, s, q);
      NotBelowLaterKind(db, start, ns, offers, start, q, s, c, p, r);
      assert false;
    }
    NotDeeper(db, start, ns, offers, d, q, p, r);
    ChildOfRootIsLinked(db, start, ns, offers, d, r);
  }

  lemma SomeIdOf(ns: seq<WhoisNode>, c: nat) returns (s: Id)
    requires Tree(ns) && 0 < c < |ns|
    ensures Holds(ns[c], s)
  {
    assert NonRootOk(ns, c);
    var v :| v in ns[c].values;
    s := Id(ns[c].nodetype, v);
  }

  lemma StartIsInRoot(ns: seq<WhoisNode>, start: Id, c: nat, s: Id)
    requires Tree(ns) && Holds(ns[0], start) && 0 < c < |ns| && Holds(ns[c], s)
    ensures s != start
  {
    if s == start {
      OneHolder(ns, s, 0, c);
    }
  }

  /** Of two different kinds that an identifier leads to, one comes first. */
  lemma OnlyKinds(db: Db, start: Id, s: Id, q: Id)
    requires Linked(db, start, s) && Linked(db, start, q) && s.kind != q.kind
    ensures Precedes(s.kind, q.kind) || Precedes(q.kind, s.kind)
  {
  }

  /** What a name that the search term leads to is recorded with hangs below such a name, if the search term
      does not lead to it itself. */
  lemma NamesFirst(db: Db, start: Id, ns: seq<WhoisNode>, offers: seq<Offer>, q: Id, p: Id)
    requires Explored(db, start, ns, offers)
    requires q.kind == NodeName && Linked(db, start, q) && Linked(db, q, p) && p != start && !Linked(db, start, p)
    ensures exists r: Id :: r.kind == NodeName && Linked(db, start, r) && HangsBelow(ns, p, r)
  {
    var r := FirstKindFirst(db, start, ns, offers, q, p);
  }

  /** In a search for a name the IPs come first: what an IP of the name is recorded with hangs below one. */
  lemma ThenIPs(db: Db, start: Id, ns: seq<WhoisNode>, offers: seq<Offer>, q: Id, p: Id)
    requires Explored(db, start, ns, offers) && start.kind == NodeName
    requires q.kind == Ip && Linked(db, start, q) && Linked(db, q, p) && p != start && !Linked(db, start, p)
    ensures exists r: Id :: r.kind == Ip && Linked(db, start, r) && HangsBelow(ns, p, r)
  {
    var r := FirstKindFirst(db, start, ns, offers, q, p);
  }

  /** A node with one name and one address that was restarted, so that it has a second UUID. */
  const RESTARTED := Db(map["u1" := Unit("i", 1), "u2" := Unit("i", 7)],
                        map["u1" := [Unit("n", 1)], "u2" := [Unit("n", 3)]], map[], map[])

  lemma NameOfRestarted(r: Id)
    requires r.kind == NodeName && Linked(RESTARTED, Id(Uuid, "u1"), r)
    ensures r.value == "n"
  {
  }

  /** In every order of the maps, the second UUID is shown below the name, since 3. */
  lemma RestartedNode(ns: seq<WhoisNode>, offers: seq<Offer>)
    requires Explored(RESTARTED, Id(Uuid, "u1"), ns, offers)
    ensures Id(Uuid, "u2") in Pairs(ns) && HangsBelow(ns, Id(Uuid, "u2"), Id(NodeName, "n"))
    ensures Times(ns)[Id(Uuid, "u2")] == Some(3)
  {
    var start, q, p := Id(Uuid, "u1"), Id(NodeName, "n"), Id(Uuid, "u2");
    assert RESTARTED.hashToNodeNames["u1"][0].value == "n" && RESTARTED.hashToNodeNames["u2"][0].value == "n";
    NamesFirst(RESTARTED, start, ns, offers, q, p);
    var r: Id :| r.kind == NodeName && Linked(RESTARTED, start, r) && HangsBelow(ns, p, r);
    NameOfRestarted(r);
    LatestBelowStart(RESTARTED, start, ns, offers, q);
    HoldsLinks(RESTARTED, start, ns, offers, q, p);
    ShownSinceFirst(RESTARTED, start, ns, offers, p, q);
    OneTime(Unit("n", 3), "n");
  }
}
