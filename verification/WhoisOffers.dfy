/** The records that `whois` reads, and the tree that they build (translate/whois.go). */
module WhoisOffers {
  import opened Options
  import opened TranslationData
  import opened WhoisGraph
  import opened WhoisTimes
  import opened WhoisTree

  /** The tree that a search starts with. */
  function Root(start: Id): seq<WhoisNode> {
    [WhoisNode(start.kind, None, map[start.value := WhoisValue(None, map[])])]
  }

  lemma RootIsTree(start: Id)
    ensures Tree(Root(start)) && Pairs(Root(start)) == {start}
  {
    var ns := Root(start);
    assert ChildrenOk(ns, 0) && ChildrenApart(ns[0]) && Holds(ns[0], start);
    forall p
      ensures p in Pairs(ns) <==> p == start
    {
      InPairs(ns, p);
    }
  }

  /** An offer below an identifier that the tree holds. */
  ghost predicate CanOffer(ns: seq<WhoisNode>, offer: Offer) {
    Tree(ns) && offer.from in Pairs(ns) && offer.p.kind in FORCED_ITERATION_ORDER
  }

  /** The tree after one more record was read. */
  ghost function AfterOffer(ns: seq<WhoisNode>, offer: Offer): seq<WhoisNode>
    requires CanOffer(ns, offer)
  {
    WithOffer(ns, NodeOf(ns, offer.from), offer.from.value, offer.p.kind, offer.p.value, offer.ts)
  }

  /** `prev` is the tree before the last offer, and `ns` the tree after it. */
  ghost predicate LastOffer(prev: seq<WhoisNode>, ns: seq<WhoisNode>, offer: Offer) {
    CanOffer(prev, offer) && ns == AfterOffer(prev, offer)
  }

  /** `ns` is the tree that the offers build from the start, each made below an identifier held by then. */
  ghost predicate BuiltBy(ns: seq<WhoisNode>, start: Id, offers: seq<Offer>)
    decreases |offers|
  {
    if offers == [] then ns == Root(start) else
      var front, last := offers[..|offers| - 1], offers[|offers| - 1];
      exists prev :: BuiltBy(prev, start, front) && LastOffer(prev, ns, last)
  }

  lemma BeforeLast(ns: seq<WhoisNode>, start: Id, offers: seq<Offer>) returns (prev: seq<WhoisNode>)
    requires offers != [] && BuiltBy(ns, start, offers)
    ensures BuiltBy(prev, start, offers[..|offers| - 1]) && LastOffer(prev, ns, offers[|offers| - 1])
  {
    prev :| BuiltBy(prev, start, offers[..|offers| - 1]) && LastOffer(prev, ns, offers[|offers| - 1]);
  }

  lemma BuiltMore(prev: seq<WhoisNode>, ns: seq<WhoisNode>, start: Id, offers: seq<Offer>, offer: Offer)
    requires BuiltBy(prev, start, offers) && LastOffer(prev, ns, offer)
    ensures BuiltBy(ns, start, offers + [offer])
  {
    assert (offers + [offer])[..|offers|] == offers;
  }

  /** Offering below value `v` of node `n` is offering below the identifier that it stands for. */
  lemma OfferAt(ns: seq<WhoisNode>, n: nat, v: string, p: Id, ts: int)
    requires Tree(ns) && n < |ns| && v in ns[n].values && p.kind in FORCED_ITERATION_ORDER
    ensures LastOffer(ns, WithOffer(ns, n, v, p.kind, p.value, ts), Offer(Id(ns[n].nodetype, v), p, ts))
  {
    var from := Id(ns[n].nodetype, v);
    assert Holds(ns[n], from);
    InPairs(ns, from);
    var i := NodeOf(ns, from);
    assert i < n ==> Apart(ns[i], ns[n]);
    assert n < i ==> Apart(ns[n], ns[i]);
  }

  lemma TreeWithOffer(ns: seq<WhoisNode>, n: nat, v: string, kind: Kind, value: string, ts: int)
    requires Tree(ns) && n < |ns| && v in ns[n].values && kind in FORCED_ITERATION_ORDER
    ensures var ns' := WithOffer(ns, n, v, kind, value, ts); Tree(ns') && Pairs(ns') == Pairs(ns) + {Id(kind, value)}
  {
    assert ChildrenOk(ns, n);
    if Id(kind, value) in Pairs(ns) {
    } else if kind in ns[n].values[v].subNodes {
      TreeWithKey(ns, ns[n].values[v].subNodes[kind], value, ts);
    } else {
      TreeWithChild(ns, n, v, kind, value, ts);
    }
  }

  lemma HeldAfterOffer(prev: seq<WhoisNode>, ns: seq<WhoisNode>, offer: Offer)
    requires LastOffer(prev, ns, offer)
    ensures Tree(ns) && Pairs(ns) == Pairs(prev) + {offer.p}
  {
    TreeWithOffer(prev, NodeOf(prev, offer.from), offer.from.value, offer.p.kind, offer.p.value, offer.ts);
  }

  lemma AfterOneOffer(prev: seq<WhoisNode>, ns: seq<WhoisNode>, offer: Offer)
    requires LastOffer(prev, ns, offer)
    ensures Tree(ns) && Pairs(ns) == Pairs(prev) + {offer.p}
    ensures Times(ns) == Offered(Times(prev), offer.p, offer.ts)
  {
    var n, p := NodeOf(prev, offer.from), offer.p;
    TreeWithOffer(prev, n, offer.from.value, p.kind, p.value, offer.ts);
    TimesWithOffer(prev, n, offer.from.value, p.kind, p.value, offer.ts);
  }

  /** The time of the identifier that a search starts with is unknown. */
  function AtStart(start: Id): Shown {
    map[start := None]
  }

  lemma TimesOfRoot(start: Id)
    ensures Times(Root(start)) == AtStart(start)
  {
    RootIsTree(start);
    assert Holds(Root(start)[0], start);
    TimeAt(Root(start), 0, start);
  }

  /** The times that the tree shows are those of the offers that came first. */
  lemma {:induction false} BuiltTimes(ns: seq<WhoisNode>, start: Id, offers: seq<Offer>)
    requires BuiltBy(ns, start, offers)
    ensures Tree(ns) && Times(ns) == OfferedAll(AtStart(start), offers)
    decreases |offers|
  {
    if offers == [] {
      RootIsTree(start);
      TimesOfRoot(start);
    } else {
      var prev := BeforeLast(ns, start, offers);
      BuiltTimes(prev, start, offers[..|offers| - 1]);
      AfterOneOffer(prev, ns, offers[|offers| - 1]);
    }
  }

  /** The set holds the start, what was offered, and from where. */
  ghost predicate HoldsOffers(held: set<Id>, start: Id, offers: seq<Offer>) {
    start in held && forall i :: 0 <= i < |offers| ==> offers[i].p in held && offers[i].from in held
  }

  lemma HoldsOneMore(held: set<Id>, held': set<Id>, start: Id, offers: seq<Offer>)
    requires offers != [] && HoldsOffers(held, start, offers[..|offers| - 1])
    requires offers[|offers| - 1].from in held && held' == held + {offers[|offers| - 1].p}
    ensures HoldsOffers(held', start, offers)
  {
    var front := offers[..|offers| - 1];
    assert forall i :: 0 <= i < |front| ==> front[i] == offers[i];
  }

  lemma {:induction false} OfferedIsHeld(ns: seq<WhoisNode>, start: Id, offers: seq<Offer>)
    requires BuiltBy(ns, start, offers)
    ensures HoldsOffers(Pairs(ns), start, offers)
    decreases |offers|
  {
    if offers == [] {
      RootIsTree(start);
    } else {
      var prev := BeforeLast(ns, start, offers);
      OfferedIsHeld(prev, start, offers[..|offers| - 1]);
      AfterOneOffer(prev, ns, offers[|offers| - 1]);
      HoldsOneMore(Pairs(prev), Pairs(ns), start, offers);
    }
  }

  /** `p` is held by node `i`, which hangs below the value that stands for `q`. */
  ghost predicate HangsAt(ns: seq<WhoisNode>, i: nat, p: Id, q: Id) {
    && i < |ns|
    && Holds(ns[i], p)
    && StoredAt(ns, i, q.value)
    && ns[ns[i].parentNode.value].nodetype == q.kind
  }

  ghost predicate HangsBelow(ns: seq<WhoisNode>, p: Id, q: Id) {
    exists i: nat :: HangsAt(ns, i, p, q)
  }

  /** An identifier hangs below one other. */
  lemma HangsOnce(ns: seq<WhoisNode>, p: Id, q: Id, q': Id)
    requires Tree(ns) && HangsBelow(ns, p, q) && HangsBelow(ns, p, q')
    ensures q == q'
  {
    var i: nat :| HangsAt(ns, i, p, q);
    var j: nat :| HangsAt(ns, j, p, q');
    assert i < j ==> Apart(ns[i], ns[j]);
    assert j < i ==> Apart(ns[j], ns[i]);
    assert ChildrenApart(ns[ns[i].parentNode.value]);
  }

  lemma ExtendsWithOffer(ns: seq<WhoisNode>, n: nat, v: string, kind: Kind, value: string, ts: int, i: nat)
    requires Tree(ns) && n < |ns| && v in ns[n].values && i < |ns|
    ensures var ns' := WithOffer(ns, n, v, kind, value, ts); |ns| <= |ns'| && Extends(ns[i], ns'[i])
  {
    assert ChildrenOk(ns, n) && ChildrenOk(ns, i) && ChildrenApart(ns[i]);
    InPairs(ns, Id(kind, value));
    if Id(kind, value) in Pairs(ns) {
    } else if kind in ns[n].values[v].subNodes {
      var c := ns[n].values[v].subNodes[kind];
      assert !Holds(ns[c], Id(kind, value));
      ChildrenWithKey(ns, c, value, ts, i);
    } else {
      ChildrenWithChild(ns, n, v, kind, value, ts, i);
    }
  }

  lemma KeepsPlace(prev: seq<WhoisNode>, ns: seq<WhoisNode>, offer: Offer, p: Id, q: Id)
    requires LastOffer(prev, ns, offer) && HangsBelow(prev, p, q)
    ensures HangsBelow(ns, p, q)
  {
    var i: nat :| HangsAt(prev, i, p, q);
    var n, to := NodeOf(prev, offer.from), offer.p;
    ExtendsWithOffer(prev, n, offer.from.value, to.kind, to.value, offer.ts, i);
    ExtendsWithOffer(prev, n, offer.from.value, to.kind, to.value, offer.ts, prev[i].parentNode.value);
    assert HangsAt(ns, i, p, q);
  }

  lemma GetsPlace(prev: seq<WhoisNode>, ns: seq<WhoisNode>, offer: Offer)
    requires LastOffer(prev, ns, offer) && offer.p !in Pairs(prev)
    ensures HangsBelow(ns, offer.p, offer.from)
  {
    var n, v, kind := NodeOf(prev, offer.from), offer.from.value, offer.p.kind;
    assert ChildrenOk(prev, n);
    if kind in prev[n].values[v].subNodes {
      assert HangsAt(ns, prev[n].values[v].subNodes[kind], offer.p, offer.from);
    } else {
      assert HangsAt(ns, |prev|, offer.p, offer.from);
    }
  }

  /** The first offer of an identifier. */
  ghost predicate IsFirst(offers: seq<Offer>, i: nat) {
    i < |offers| && forall j :: 0 <= j < i ==> offers[j].p != offers[i].p
  }

  /** Where and since when an identifier is shown is what its first offer said. */
  ghost predicate ShownAs(ns: seq<WhoisNode>, offer: Offer) {
    offer.p in Pairs(ns) && HangsBelow(ns, offer.p, offer.from) && Times(ns)[offer.p] == Some(offer.ts)
  }

  lemma ShownAfter(prev: seq<WhoisNode>, ns: seq<WhoisNode>, last: Offer, offer: Offer)
    requires LastOffer(prev, ns, last) && ShownAs(prev, offer)
    ensures ShownAs(ns, offer)
  {
    AfterOneOffer(prev, ns, last);
    KeepsPlace(prev, ns, last, offer.p, offer.from);
  }

  lemma ShownFrom(prev: seq<WhoisNode>, ns: seq<WhoisNode>, offer: Offer)
    requires LastOffer(prev, ns, offer) && offer.p !in Pairs(prev)
    ensures ShownAs(ns, offer)
  {
    AfterOneOffer(prev, ns, offer);
    GetsPlace(prev, ns, offer);
  }

  /** The `i`-th offer is the first of `p`, and `p` is shown as it said. */
  ghost predicate ShownBy(ns: seq<WhoisNode>, offers: seq<Offer>, i: nat, p: Id) {
    IsFirst(offers, i) && offers[i].p == p && ShownAs(ns, offers[i])
  }

  lemma StillShown(prev: seq<WhoisNode>, ns: seq<WhoisNode>, front: seq<Offer>, last: Offer, i: nat, p: Id)
    requires ShownBy(prev, front, i, p) && LastOffer(prev, ns, last)
    ensures ShownBy(ns, front + [last], i, p)
  {
    ShownAfter(prev, ns, last, front[i]);
  }

  lemma NewlyShown(prev: seq<WhoisNode>, ns: seq<WhoisNode>, start: Id, front: seq<Offer>, last: Offer)
    requires BuiltBy(prev, start, front) && LastOffer(prev, ns, last) && last.p !in Pairs(prev)
    ensures ShownBy(ns, front + [last], |front|, last.p)
  {
    OfferedIsHeld(prev, start, front);
    ShownFrom(prev, ns, last);
  }

  /** Every identifier held, other than the start, is shown as its first offer said. */
  lemma {:induction false} ShownByFirst(ns: seq<WhoisNode>, start: Id, offers: seq<Offer>, p: Id) returns (i: nat)
    requires BuiltBy(ns, start, offers) && p in Pairs(ns) && p != start
    ensures ShownBy(ns, offers, i, p)
    decreases |offers|
  {
    if offers == [] {
      RootIsTree(start);
      assert false;
    } else {
      var front, last := offers[..|offers| - 1], offers[|offers| - 1];
      assert offers == front + [last];
      var prev := BeforeLast(ns, start, offers);
      HeldAfterOffer(prev, ns, last);
      if p in Pairs(prev) {
        i := ShownByFirst(prev, start, front, p);
        StillShown(prev, ns, front, last, i, p);
      } else {
        i := |front|;
        NewlyShown(prev, ns, start, front, last);
      }
    }
  }
}
