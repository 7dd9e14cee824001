/** The order in which `whois` explores the identity tree (translate/whois.go, filter). */
module WhoisOrder {
  import opened Options
  import opened TranslationData
  import opened WhoisGraph
  import opened WhoisReads
  import opened WhoisTimes
  import opened WhoisTree

  /** Names are explored before IPs, and both before UUIDs. */
  predicate Precedes(k: Kind, l: Kind) {
    (k == NodeName && (l == Ip || l == Uuid)) || (k == Ip && l == Uuid)
  }

  /** Nodes `c` and `d` hang below one value, and the kind of `c` comes first. */
  ghost predicate Elder(ns: seq<WhoisNode>, c: nat, d: nat) {
    && c < |ns| && d < |ns|
    && ns[c].parentNode == ns[d].parentNode
    && Precedes(ns[c].nodetype, ns[d].nodetype)
    && exists v :: StoredAt(ns, c, v) && StoredAt(ns, d, v)
  }

  /** Node `a` is to be explored before node `b`: it lies above `b`, or in the subtree of an elder. */
  ghost predicate Sooner(ns: seq<WhoisNode>, a: nat, b: nat) {
    || (a != b && Under(ns, b, a))
    || exists c, d :: Elder(ns, c, d) && Under(ns, a, c) && Under(ns, b, d)
  }

  ghost predicate SoonerIn(ns: seq<WhoisNode>, a: nat, p: Id, b: nat, q: Id) {
    a < |ns| && b < |ns| && Holds(ns[a], p) && Holds(ns[b], q) && Sooner(ns, a, b)
  }

  /** The node that holds `p` is to be explored before the one that holds `q`. */
  ghost predicate ReadSooner(ns: seq<WhoisNode>, p: Id, q: Id) {
    exists a, b :: SoonerIn(ns, a, p, b, q)
  }

  /** No record is read before one that is to be read sooner. */
  ghost predicate ReadInOrder(ns: seq<WhoisNode>, offers: seq<Offer>) {
    forall i, j :: 0 <= i < j < |offers| ==> !ReadSooner(ns, offers[j].from, offers[i].from)
  }

  // ---- subtrees

  lemma {:induction false} UnderIsLater(ns: seq<WhoisNode>, n: nat, a: nat)
    requires Under(ns, n, a)
    ensures a <= n
  {
    if n != a {
      UnderIsLater(ns, ns[n].parentNode.value, a);
    }
  }

  lemma ParentIsEarlier(ns: seq<WhoisNode>, n: nat)
    requires Tree(ns) && n < |ns| && ns[n].parentNode.Some?
    ensures 0 < n && ns[n].parentNode.value < n && NonRootOk(ns, n)
  {
    assert NonRootOk(ns, n);
  }

  /** Of two nodes above a third, one is above the other. */
  lemma {:induction false} Comparable(ns: seq<WhoisNode>, a: nat, c: nat, d: nat)
    requires Under(ns, a, c) && Under(ns, a, d)
    ensures Under(ns, c, d) || Under(ns, d, c)
    decreases a
  {
    if a != c && a != d {
      Comparable(ns, ns[a].parentNode.value, c, d);
    }
  }

  predicate Siblings(ns: seq<WhoisNode>, c: nat, d: nat) {
    c < |ns| && d < |ns| && ns[c].parentNode == ns[d].parentNode && ns[c].parentNode.Some?
  }

  lemma SiblingNotUnder(ns: seq<WhoisNode>, c: nat, d: nat)
    requires Tree(ns) && Siblings(ns, c, d) && Under(ns, c, d)
    ensures c == d
  {
    if c != d {
      ParentIsEarlier(ns, d);
      UnderIsLater(ns, ns[c].parentNode.value, d);
      assert false;
    }
  }

  /** A node is in the subtree of one of several siblings. */
  lemma OneBranch(ns: seq<WhoisNode>, a: nat, c: nat, d: nat)
    requires Tree(ns) && Siblings(ns, c, d) && Under(ns, a, c) && Under(ns, a, d)
    ensures c == d
  {
    Comparable(ns, a, c, d);
    if Under(ns, c, d) {
      SiblingNotUnder(ns, c, d);
    } else {
      SiblingNotUnder(ns, d, c);
    }
  }

  lemma ElderSiblings(ns: seq<WhoisNode>, c: nat, d: nat)
    requires Elder(ns, c, d)
    ensures Siblings(ns, c, d) && c != d
  {
    var v :| StoredAt(ns, c, v) && StoredAt(ns, d, v);
  }

  /** Nothing in the subtree of a node is to be explored before the node. */
  lemma NodeFirst(ns: seq<WhoisNode>, n: nat, b: nat)
    requires Tree(ns) && Under(ns, b, n)
    ensures !Sooner(ns, b, n)
  {
    UnderIsLater(ns, b, n);
    if b != n && Under(ns, n, b) {
      UnderIsLater(ns, n, b);
      assert false;
    }
    if c, d :| Elder(ns, c, d) && Under(ns, b, c) && Under(ns, n, d) {
      ElderSiblings(ns, c, d);
      UnderTransitive(ns, b, n, d);
      OneBranch(ns, b, c, d);
      assert false;
    }
  }

  /** `c'` and `d'` are siblings, one above `b` and one above `a`; then they are the branches `d` and `c`
      themselves. */
  lemma ElderBranches(ns: seq<WhoisNode>, c: nat, d: nat, a: nat, b: nat, c': nat, d': nat)
    requires Tree(ns) && Siblings(ns, c, d) && c != d && Under(ns, a, c) && Under(ns, b, d)
    requires Siblings(ns, c', d') && c' != d' && Under(ns, b, c') && Under(ns, a, d')
    ensures d' == c && c' == d
  {
    Comparable(ns, a, c, d');
    if d' == c {
      OneBranch(ns, b, c', d);
    } else if Under(ns, c, d') {
      ParentIsEarlier(ns, d);
      assert Under(ns, d, d');
      UnderTransitive(ns, b, d, d');
      OneBranch(ns, b, c', d');
      assert false;
    } else {
      ParentIsEarlier(ns, c');
      assert Under(ns, c', c);
      UnderTransitive(ns, b, c', c);
      OneBranch(ns, b, c, d);
      assert false;
    }
  }

  /** Nothing below one sibling is to be explored before what is below another, unless this is younger. */
  lemma SeparateBranches(ns: seq<WhoisNode>, c: nat, d: nat, a: nat, b: nat)
    requires Tree(ns) && Siblings(ns, c, d) && c != d && !Elder(ns, d, c)
    requires Under(ns, a, c) && Under(ns, b, d)
    ensures !Sooner(ns, b, a)
  {
    if b != a && Under(ns, a, b) {
      UnderTransitive(ns, a, b, d);
      OneBranch(ns, a, c, d);
      assert false;
    }
    if c', d' :| Elder(ns, c', d') && Under(ns, b, c') && Under(ns, a, d') {
      ElderSiblings(ns, c', d');
      ElderBranches(ns, c, d, a, b, c', d');
      assert false;
    }
  }

  // ---- records

  lemma OneHolder(ns: seq<WhoisNode>, p: Id, a: nat, b: nat)
    requires Tree(ns) && a < |ns| && b < |ns| && Holds(ns[a], p) && Holds(ns[b], p)
    ensures a == b
  {
    assert a < b ==> Apart(ns[a], ns[b]);
    assert b < a ==> Apart(ns[b], ns[a]);
  }

  lemma NodeReadFirst(ns: seq<WhoisNode>, n: nat, p: Id, q: Id)
    requires Tree(ns) && n < |ns| && Holds(ns[n], p) && Below(ns, n, q)
    ensures !ReadSooner(ns, q, p)
  {
    if b, a :| SoonerIn(ns, b, q, a, p) {
      var i: nat :| i < |ns| && Under(ns, i, n) && Holds(ns[i], q);
      OneHolder(ns, q, b, i);
      OneHolder(ns, p, a, n);
      NodeFirst(ns, n, b);
    }
  }

  lemma BranchesReadApart(ns: seq<WhoisNode>, c: nat, d: nat, p: Id, q: Id)
    requires Tree(ns) && Siblings(ns, c, d) && c != d && !Elder(ns, d, c)
    requires Below(ns, c, p) && Below(ns, d, q)
    ensures !ReadSooner(ns, q, p)
  {
    if b, a :| SoonerIn(ns, b, q, a, p) {
      var i: nat :| i < |ns| && Under(ns, i, c) && Holds(ns[i], p);
      var j: nat :| j < |ns| && Under(ns, j, d) && Holds(ns[j], q);
      OneHolder(ns, p, a, i);
      OneHolder(ns, q, b, j);
      SeparateBranches(ns, c, d, a, b);
    }
  }

  /** `p` lies below value `v` of node `n`, in one of the first `k` kinds of children. */
  ghost predicate BelowKinds(ns: seq<WhoisNode>, value: WhoisValue, k: nat, p: Id)
    requires k <= 3
  {
    exists j :: 0 <= j < k && FORCED_ITERATION_ORDER[j] in value.subNodes
                && Below(ns, value.subNodes[FORCED_ITERATION_ORDER[j]], p)
  }

  lemma ChildrenOfValue(ns: seq<WhoisNode>, n: nat, v: string, kind: Kind)
    requires Tree(ns) && n < |ns| && v in ns[n].values && kind in ns[n].values[v].subNodes
    ensures var c := ns[n].values[v].subNodes[kind];
            n < c < |ns| && ns[c].nodetype == kind && ns[c].parentNode == Some(n) && StoredAt(ns, c, v)
  {
    assert ChildrenOk(ns, n);
  }

  /** The children of one value are explored in the order of their kinds. */
  lemma KindsReadInOrder(ns: seq<WhoisNode>, n: nat, v: string, k: nat, p: Id, q: Id)
    requires Tree(ns) && n < |ns| && v in ns[n].values && k < 3
    requires FORCED_ITERATION_ORDER[k] in ns[n].values[v].subNodes
    requires BelowKinds(ns, ns[n].values[v], k, p)
    requires Below(ns, ns[n].values[v].subNodes[FORCED_ITERATION_ORDER[k]], q)
    ensures !ReadSooner(ns, q, p)
  {
    var subNodes := ns[n].values[v].subNodes;
    var j :| 0 <= j < k && FORCED_ITERATION_ORDER[j] in subNodes && Below(ns, subNodes[FORCED_ITERATION_ORDER[j]], p);
    ChildrenOfValue(ns, n, v, FORCED_ITERATION_ORDER[j]);
    ChildrenOfValue(ns, n, v, FORCED_ITERATION_ORDER[k]);
    BranchesReadApart(ns, subNodes[FORCED_ITERATION_ORDER[j]], subNodes[FORCED_ITERATION_ORDER[k]], p, q);
  }

  /** The children of different values may be explored in any order. */
  lemma ValuesReadApart(ns: seq<WhoisNode>, n: nat, v: string, w: string, p: Id, q: Id)
    requires Tree(ns) && n < |ns| && v in ns[n].values && w in ns[n].values && v != w
    requires BelowValue(ns, ns[n].values[v], p) && BelowValue(ns, ns[n].values[w], q)
    ensures !ReadSooner(ns, q, p)
  {
    var kind :| kind in ns[n].values[v].subNodes && Below(ns, ns[n].values[v].subNodes[kind], p);
    var kind' :| kind' in ns[n].values[w].subNodes && Below(ns, ns[n].values[w].subNodes[kind'], q);
    ChildrenOfValue(ns, n, v, kind);
    ChildrenOfValue(ns, n, w, kind');
    var c, d := ns[n].values[v].subNodes[kind], ns[n].values[w].subNodes[kind'];
    assert ChildrenApart(ns[n]);
    BranchesReadApart(ns, c, d, p, q);
  }

  lemma ReadInOrderConcat(ns: seq<WhoisNode>, a: seq<Offer>, b: seq<Offer>)
    requires ReadInOrder(ns, a) && ReadInOrder(ns, b)
    requires forall i, j :: 0 <= i < |a| && 0 <= j < |b| ==> !ReadSooner(ns, b[j].from, a[i].from)
    ensures ReadInOrder(ns, a + b)
  {
  }

  // ---- growing

  /** Every node has everything that it had. */
  ghost predicate Kept(ns: seq<WhoisNode>, ns': seq<WhoisNode>) {
    |ns| <= |ns'| && forall i {:trigger Extends(ns[i], ns'[i])} :: 0 <= i < |ns| ==> Extends(ns[i], ns'[i])
  }

  lemma KeptTransitive(ns: seq<WhoisNode>, mid: seq<WhoisNode>, ns': seq<WhoisNode>)
    requires Kept(ns, mid) && Kept(mid, ns')
    ensures Kept(ns, ns')
  {
    forall i | 0 <= i < |ns|
      ensures Extends(ns[i], ns'[i])
    {
      assert Extends(ns[i], mid[i]) && Extends(mid[i], ns'[i]);
    }
  }

  lemma {:induction false} UnderKept(ns: seq<WhoisNode>, ns': seq<WhoisNode>, n: nat, a: nat)
    requires Kept(ns, ns') && n < |ns|
    ensures Under(ns', n, a) <==> Under(ns, n, a)
  {
    assert Extends(ns[n], ns'[n]);
    if n != a && ns[n].parentNode.Some? && ns[n].parentNode.value < n {
      UnderKept(ns, ns', ns[n].parentNode.value, a);
    }
  }

  lemma BelowKept(ns: seq<WhoisNode>, ns': seq<WhoisNode>, a: nat, p: Id)
    requires Kept(ns, ns') && Below(ns, a, p)
    ensures Below(ns', a, p)
  {
    var i: nat :| i < |ns| && Under(ns, i, a) && Holds(ns[i], p);
    UnderKept(ns, ns', i, a);
    assert Extends(ns[i], ns'[i]);
  }

  lemma ElderKept(ns: seq<WhoisNode>, ns': seq<WhoisNode>, c: nat, d: nat)
    requires Tree(ns) && Tree(ns') && Kept(ns, ns') && c < |ns| && d < |ns| && Elder(ns', c, d)
    ensures Elder(ns, c, d)
  {
    ElderSiblings(ns', c, d);
    assert Extends(ns[c], ns'[c]) && Extends(ns[d], ns'[d]);
    ParentIsEarlier(ns, c);
    ParentIsEarlier(ns, d);
    var n := ns[c].parentNode.value;
    assert Extends(ns[n], ns'[n]) && ChildrenApart(ns'[n]);
    var v :| StoredAt(ns, c, v);
    var w :| StoredAt(ns, d, w);
  }

  lemma SoonerKept(ns: seq<WhoisNode>, ns': seq<WhoisNode>, a: nat, b: nat)
    requires Tree(ns) && Tree(ns') && Kept(ns, ns') && a < |ns| && b < |ns| && Sooner(ns', a, b)
    ensures Sooner(ns, a, b)
  {
    UnderKept(ns, ns', b, a);
    if c, d :| Elder(ns', c, d) && Under(ns', a, c) && Under(ns', b, d) {
      UnderIsLater(ns', a, c);
      UnderIsLater(ns', b, d);
      ElderKept(ns, ns', c, d);
      UnderKept(ns, ns', a, c);
      UnderKept(ns, ns', b, d);
    }
  }

  lemma ReadSoonerKept(ns: seq<WhoisNode>, ns': seq<WhoisNode>, p: Id, q: Id)
    requires Tree(ns) && Tree(ns') && Kept(ns, ns') && p in Pairs(ns) && q in Pairs(ns) && ReadSooner(ns', p, q)
    ensures ReadSooner(ns, p, q)
  {
    var a, b :| SoonerIn(ns', a, p, b, q);
    var i, j := NodeOf(ns, p), NodeOf(ns, q);
    assert Extends(ns[i], ns'[i]) && Extends(ns[j], ns'[j]);
    OneHolder(ns', p, a, i);
    OneHolder(ns', q, b, j);
    SoonerKept(ns, ns', i, j);
    assert SoonerIn(ns, i, p, j, q);
  }

  /** All the records were read from identifiers that the tree holds. */
  ghost predicate ReadFrom(held: set<Id>, offers: seq<Offer>) {
    forall i :: 0 <= i < |offers| ==> offers[i].from in held
  }

  lemma ReadInOrderKept(ns: seq<WhoisNode>, ns': seq<WhoisNode>, offers: seq<Offer>)
    requires Tree(ns) && Tree(ns') && Kept(ns, ns') && ReadFrom(Pairs(ns), offers) && ReadInOrder(ns, offers)
    ensures ReadInOrder(ns', offers)
  {
    forall i, j | 0 <= i < j < |offers|
      ensures !ReadSooner(ns', offers[j].from, offers[i].from)
    {
      if ReadSooner(ns', offers[j].from, offers[i].from) {
        ReadSoonerKept(ns, ns', offers[j].from, offers[i].from);
      }
    }
  }

  // ---- one subtree after the other

  /** The records that were read from `was` to `now`. */
  function Since(was: seq<Offer>, now: seq<Offer>): seq<Offer>
    requires was <= now
  {
    now[|was|..]
  }

  lemma SinceConcat(was: seq<Offer>, told: seq<Offer>, now: seq<Offer>)
    requires was <= told && told <= now
    ensures was <= now && Since(was, now) == Since(was, told) + Since(told, now)
  {
  }

  /** All that is read is read from where it is told. */
  lemma ToldIsFrom(db: Db, was: seq<Offer>, now: seq<Offer>, froms: set<Id>)
    requires AllTold(db, was, now, froms)
    ensures ReadFrom(froms, Since(was, now))
  {
    var read := Since(was, now);
    assert now == was + read;
    forall i | 0 <= i < |read|
      ensures read[i].from in froms
    {
      var p, q, ts := read[i].from, read[i].p, read[i].ts;
      HeardConcat(was, read, p, q);
      HeardIsOffered(read, p, q, ts);
      assert Heard(now, p, q) == Heard(was, p, q) + if p in froms then Between(db, p, q) else [];
    }
  }

  lemma BelowIsPair(ns: seq<WhoisNode>, n: nat, p: Id)
    requires Below(ns, n, p)
    ensures p in Pairs(ns)
  {
    InPairs(ns, p);
  }

  /** From `was` to `now` the subtree of node `n` was explored, in order. */
  ghost predicate ExploredBelow(ns: seq<WhoisNode>, was: seq<Offer>, now: seq<Offer>, n: nat) {
    && was <= now
    && ReadInOrder(ns, Since(was, now))
    && forall i :: 0 <= i < |Since(was, now)| ==> Below(ns, n, Since(was, now)[i].from)
  }

  /** From `was` to `now` the first `k` kinds of children of the value were explored, in order. */
  ghost predicate ExploredKinds(ns: seq<WhoisNode>, was: seq<Offer>, now: seq<Offer>, value: WhoisValue, k: nat) {
    && k <= 3
    && was <= now
    && ReadInOrder(ns, Since(was, now))
    && forall i :: 0 <= i < |Since(was, now)| ==> BelowKinds(ns, value, k, Since(was, now)[i].from)
  }

  lemma NoKindsExplored(ns: seq<WhoisNode>, now: seq<Offer>, value: WhoisValue)
    ensures ExploredKinds(ns, now, now, value, 0)
  {
  }

  lemma KindIsAbsent(ns: seq<WhoisNode>, was: seq<Offer>, now: seq<Offer>, value: WhoisValue, k: nat)
    requires ExploredKinds(ns, was, now, value, k) && k < 3
    ensures ExploredKinds(ns, was, now, value, k + 1)
  {
    forall i | 0 <= i < |Since(was, now)|
      ensures BelowKinds(ns, value, k + 1, Since(was, now)[i].from)
    {
      assert BelowKinds(ns, value, k, Since(was, now)[i].from);
    }
  }

  lemma KindsKept(ns: seq<WhoisNode>, ns': seq<WhoisNode>, value: WhoisValue, k: nat, p: Id)
    requires Kept(ns, ns') && k <= 3 && BelowKinds(ns, value, k, p)
    ensures p in Pairs(ns) && BelowKinds(ns', value, k, p)
  {
    var j :| 0 <= j < k && FORCED_ITERATION_ORDER[j] in value.subNodes
             && Below(ns, value.subNodes[FORCED_ITERATION_ORDER[j]], p);
    BelowIsPair(ns, value.subNodes[FORCED_ITERATION_ORDER[j]], p);
    BelowKept(ns, ns', value.subNodes[FORCED_ITERATION_ORDER[j]], p);
  }

  lemma AllKindsKept(ns: seq<WhoisNode>, ns': seq<WhoisNode>, was: seq<Offer>, now: seq<Offer>, value: WhoisValue,
                     k: nat)
    requires Tree(ns) && Tree(ns') && Kept(ns, ns') && ExploredKinds(ns, was, now, value, k)
    ensures ExploredKinds(ns', was, now, value, k)
  {
    var read := Since(was, now);
    forall i | 0 <= i < |read|
      ensures read[i].from in Pairs(ns) && BelowKinds(ns', value, k, read[i].from)
    {
      KindsKept(ns, ns', value, k, read[i].from);
    }
    ReadInOrderKept(ns, ns', read);
  }

  /** One more kind was explored. */
  lemma KindExplored(prev: seq<WhoisNode>, ns: seq<WhoisNode>, was: seq<Offer>, told: seq<Offer>, now: seq<Offer>,
                     n: nat, v: string, k: nat)
    requires Tree(prev) && Tree(ns) && Kept(prev, ns) && n < |prev| && ns[n] == prev[n] && v in ns[n].values && k < 3
    requires ExploredKinds(prev, was, told, ns[n].values[v], k)
    requires FORCED_ITERATION_ORDER[k] in ns[n].values[v].subNodes
    requires ExploredBelow(ns, told, now, ns[n].values[v].subNodes[FORCED_ITERATION_ORDER[k]])
    ensures ExploredKinds(ns, was, now, ns[n].values[v], k + 1)
  {
    var value := ns[n].values[v];
    AllKindsKept(prev, ns, was, told, value, k);
    KindIsAbsent(ns, was, told, value, k);
    SinceConcat(was, told, now);
    forall i, j | 0 <= i < |Since(was, told)| && 0 <= j < |Since(told, now)|
      ensures !ReadSooner(ns, Since(told, now)[j].from, Since(was, told)[i].from)
    {
      KindsReadInOrder(ns, n, v, k, Since(was, told)[i].from, Since(told, now)[j].from);
    }
    ReadInOrderConcat(ns, Since(was, told), Since(told, now));
  }

  /** `p` is a value of node `n`, or lies below one that is not in `todo`. */
  ghost predicate BelowDone(ns: seq<WhoisNode>, node: WhoisNode, todo: set<string>, p: Id) {
    Holds(node, p) || exists v :: v in node.values && v !in todo && BelowValue(ns, node.values[v], p)
  }

  /** From `was` to `now` the values of the node, and what lies below those not in `todo`, were explored. */
  ghost predicate ExploredNode(
    ns: seq<WhoisNode>, was: seq<Offer>, now: seq<Offer>, node: WhoisNode, todo: set<string>
  ) {
    && was <= now
    && ReadInOrder(ns, Since(was, now))
    && forall i :: 0 <= i < |Since(was, now)| ==> BelowDone(ns, node, todo, Since(was, now)[i].from)
  }

  lemma ValuesExplored(db: Db, ns: seq<WhoisNode>, was: seq<Offer>, now: seq<Offer>, n: nat, todo: set<string>)
    requires Tree(ns) && n < |ns| && AllTold(db, was, now, Ids(ns[n]))
    ensures ExploredNode(ns, was, now, ns[n], todo)
  {
    var read := Since(was, now);
    ToldIsFrom(db, was, now, Ids(ns[n]));
    forall i | 0 <= i < |read|
      ensures Holds(ns[n], read[i].from) && Below(ns, n, read[i].from)
    {
      assert Under(ns, n, n);
    }
    forall i, j | 0 <= i < j < |read|
      ensures !ReadSooner(ns, read[j].from, read[i].from)
    {
      NodeReadFirst(ns, n, read[i].from, read[j].from);
    }
  }

  lemma DoneKept(ns: seq<WhoisNode>, ns': seq<WhoisNode>, n: nat, todo: set<string>, p: Id)
    requires Tree(ns) && Kept(ns, ns') && n < |ns| && BelowDone(ns, ns[n], todo, p)
    ensures p in Pairs(ns) && BelowDone(ns', ns[n], todo, p)
  {
    InPairs(ns, p);
    if !Holds(ns[n], p) {
      var v :| v in ns[n].values && v !in todo && BelowValue(ns, ns[n].values[v], p);
      var kind :| kind in ns[n].values[v].subNodes && Below(ns, ns[n].values[v].subNodes[kind], p);
      BelowKept(ns, ns', ns[n].values[v].subNodes[kind], p);
    }
  }

  lemma NodeKept(ns: seq<WhoisNode>, ns': seq<WhoisNode>, was: seq<Offer>, now: seq<Offer>, n: nat, todo: set<string>)
    requires Tree(ns) && Tree(ns') && Kept(ns, ns') && n < |ns| && ExploredNode(ns, was, now, ns[n], todo)
    ensures ExploredNode(ns', was, now, ns[n], todo)
  {
    var read := Since(was, now);
    forall i | 0 <= i < |read|
      ensures read[i].from in Pairs(ns) && BelowDone(ns', ns[n], todo, read[i].from)
    {
      DoneKept(ns, ns', n, todo, read[i].from);
    }
    ReadInOrderKept(ns, ns', read);
  }

  /** What lies below a value comes after the node and the values done. */
  lemma ValueReadLater(ns: seq<WhoisNode>, n: nat, todo: set<string>, v: string, p: Id, q: Id)
    requires Tree(ns) && n < |ns| && v in ns[n].values && v in todo
    requires BelowDone(ns, ns[n], todo, p) && BelowValue(ns, ns[n].values[v], q)
    ensures !ReadSooner(ns, q, p)
  {
    if Holds(ns[n], p) {
      HeldIsBelow(ns, n, v, q);
      NodeReadFirst(ns, n, p, q);
    } else {
      var w :| w in ns[n].values && w !in todo && BelowValue(ns, ns[n].values[w], p);
      ValuesReadApart(ns, n, w, v, p, q);
    }
  }

  lemma KindsAreBelow(ns: seq<WhoisNode>, value: WhoisValue, p: Id)
    requires BelowKinds(ns, value, 3, p)
    ensures BelowValue(ns, value, p)
  {
  }

  /** One more value was explored. */
  lemma ValueExplored(prev: seq<WhoisNode>, ns: seq<WhoisNode>, was: seq<Offer>, told: seq<Offer>, now: seq<Offer>,
                      n: nat, todo: set<string>, v: string)
    requires Tree(prev) && Tree(ns) && Kept(prev, ns) && n < |prev| && ns[n] == prev[n]
    requires v in ns[n].values && v in todo
    requires ExploredNode(prev, was, told, ns[n], todo) && ExploredKinds(ns, told, now, ns[n].values[v], 3)
    ensures ExploredNode(ns, was, now, ns[n], todo - {v})
  {
    NodeKept(prev, ns, was, told, n, todo);
    SinceConcat(was, told, now);
    var done, more := Since(was, told), Since(told, now);
    forall j | 0 <= j < |more|
      ensures BelowValue(ns, ns[n].values[v], more[j].from)
    {
      KindsAreBelow(ns, ns[n].values[v], more[j].from);
    }
    forall i, j | 0 <= i < |done| && 0 <= j < |more|
      ensures !ReadSooner(ns, more[j].from, done[i].from)
    {
      ValueReadLater(ns, n, todo, v, done[i].from, more[j].from);
    }
    ReadInOrderConcat(ns, done, more);
    forall i | 0 <= i < |done + more|
      ensures BelowDone(ns, ns[n], todo - {v}, (done + more)[i].from)
    {
      if i < |done| {
        assert BelowDone(ns, ns[n], todo, done[i].from);
      } else {
        assert BelowValue(ns, ns[n].values[v], more[i - |done|].from);
      }
    }
  }

  /** When no value is left, the whole subtree was explored. */
  lemma SubtreeExplored(ns: seq<WhoisNode>, was: seq<Offer>, now: seq<Offer>, n: nat)
    requires Tree(ns) && n < |ns| && ExploredNode(ns, was, now, ns[n], {})
    ensures ExploredBelow(ns, was, now, n)
  {
    var read := Since(was, now);
    forall i | 0 <= i < |read|
      ensures Below(ns, n, read[i].from)
    {
      var p := read[i].from;
      assert BelowDone(ns, ns[n], {}, p);
      if Holds(ns[n], p) {
        assert Under(ns, n, n);
      } else {
        var v :| v in ns[n].values && BelowValue(ns, ns[n].values[v], p);
        HeldIsBelow(ns, n, v, p);
      }
    }
  }
}
