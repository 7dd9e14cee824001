/** `whois`: the tree of everything known about one identifier (translate/whois.go).
    The nodes live in one store, and a pointer to a node is its position in it. */
module Whois {
  import opened Options
  import opened TranslationData
  import opened WhoisAnswers
  import opened WhoisGraph
  import opened WhoisOffers
  import opened WhoisOrder
  import opened WhoisReads
  import opened WhoisTimes
  import opened WhoisTree

  ghost predicate GrownAt(ns: seq<WhoisNode>, ns': seq<WhoisNode>, n: nat, i: nat)
    requires |ns| <= |ns'| && i < |ns'|
  {
    if i < |ns| && ns[i].parentNode != Some(n) then
      ns'[i] == ns[i]
    else
      && ns'[i].parentNode == Some(n)
      && (NoChildren(ns'[i]) || (i < |ns| && !NoChildren(ns[i])))
  }

  /** From `ns` to `ns'` only node `n` gained children, and its children have none themselves. */
  ghost predicate Grown(ns: seq<WhoisNode>, ns': seq<WhoisNode>, n: nat) {
    && n < |ns| <= |ns'|
    && ns'[n].nodetype == ns[n].nodetype
    && ns'[n].parentNode == ns[n].parentNode
    && ns'[n].values.Keys == ns[n].values.Keys
    && (forall i {:trigger GrownAt(ns, ns', n, i)} :: 0 <= i < |ns'| && i != n ==> GrownAt(ns, ns', n, i))
  }

  lemma GrownTransitive(ns: seq<WhoisNode>, ns': seq<WhoisNode>, ns'': seq<WhoisNode>, n: nat)
    requires Grown(ns, ns', n) && Grown(ns', ns'', n)
    ensures Grown(ns, ns'', n)
  {
    forall i: nat | i < |ns''| && i != n
      ensures GrownAt(ns, ns'', n, i)
    {
      assert GrownAt(ns', ns'', n, i);
      if i < |ns'| {
        assert GrownAt(ns, ns', n, i);
      }
    }
  }

  lemma GrownNot(ns: seq<WhoisNode>, n: nat)
    requires n < |ns|
    ensures Grown(ns, ns, n)
  {
    assert forall i: nat :: i < |ns| && i != n ==> GrownAt(ns, ns, n, i);
  }

  lemma GrownByChild(ns: seq<WhoisNode>, n: nat, v: string, kind: Kind, value: string, ts: int)
    requires n < |ns| && v in ns[n].values
    ensures Grown(ns, WithChild(ns, n, v, kind, value, ts), n)
  {
    var ns' := WithChild(ns, n, v, kind, value, ts);
    assert forall i: nat :: i < |ns'| && i != n ==> GrownAt(ns, ns', n, i);
  }

  lemma GrownByKey(ns: seq<WhoisNode>, n: nat, c: nat, value: string, ts: int)
    requires n < |ns| && c < |ns| && c != n && ns[c].parentNode == Some(n)
    ensures Grown(ns, WithKey(ns, c, value, ts), n)
  {
    var ns' := WithKey(ns, c, value, ts);
    assert forall i: nat :: i < |ns'| && i != n ==> GrownAt(ns, ns', n, i);
  }

  /** The tree gained `to`, below node `n`. */
  ghost predicate Hung(ns: seq<WhoisNode>, ns': seq<WhoisNode>, n: nat, to: set<Id>) {
    Tree(ns') && Grown(ns, ns', n) && Pairs(ns') == Pairs(ns) + to
  }

  lemma HungNothing(ns: seq<WhoisNode>, n: nat)
    requires Tree(ns) && n < |ns|
    ensures Hung(ns, ns, n, {})
  {
    GrownNot(ns, n);
  }

  lemma HungMore(ns: seq<WhoisNode>, mid: seq<WhoisNode>, ns': seq<WhoisNode>, n: nat, to: set<Id>, more: set<Id>,
                 all: set<Id>)
    requires Hung(ns, mid, n, to) && Hung(mid, ns', n, more) && all == to + more
    ensures Hung(ns, ns', n, all)
  {
    GrownTransitive(ns, mid, ns', n);
  }

  /** The tree gained all that the identifiers in `froms` lead to, below node `n`, from all their records. */
  ghost predicate Expanded(db: Db, ns: seq<WhoisNode>, was: seq<Offer>, ns': seq<WhoisNode>, now: seq<Offer>,
                           n: nat, froms: set<Id>) {
    Hung(ns, ns', n, AllLinks(db, froms)) && AllTold(db, was, now, froms)
  }

  lemma ExpandedOne(db: Db, ns: seq<WhoisNode>, was: seq<Offer>, ns': seq<WhoisNode>, now: seq<Offer>, n: nat, p: Id)
    requires Hung(ns, ns', n, Links(db, p)) && AllTold(db, was, now, {p})
    ensures Expanded(db, ns, was, ns', now, n, {p})
  {
    LinksOfOne(db, p);
  }

  lemma ExpandedNothing(db: Db, ns: seq<WhoisNode>, was: seq<Offer>, n: nat)
    requires Tree(ns) && n < |ns|
    ensures Expanded(db, ns, was, ns, was, n, {})
  {
    HungNothing(ns, n);
    assert AllLinks(db, {}) == {};
  }

  lemma ExpandedMore(db: Db, ns: seq<WhoisNode>, was: seq<Offer>, mid: seq<WhoisNode>, told: seq<Offer>,
                     ns': seq<WhoisNode>, now: seq<Offer>, n: nat, kind: Kind, done: set<string>, value: string)
    requires Expanded(db, ns, was, mid, told, n, IdsOf(kind, done)) && value !in done
    requires Expanded(db, mid, told, ns', now, n, {Id(kind, value)})
    ensures Expanded(db, ns, was, ns', now, n, IdsOf(kind, done + {value}))
  {
    AllLinksStep(db, kind, done, value);
    LinksOfOne(db, Id(kind, value));
    HungMore(ns, mid, ns', n, AllLinks(db, IdsOf(kind, done)), Links(db, Id(kind, value)),
             AllLinks(db, IdsOf(kind, done + {value})));
    ValueTold(db, was, told, now, kind, done, value);
  }

  /** From `ns` to `ns'` no old node but `n` changed, and `n` kept its values. */
  ghost predicate Untouched(ns: seq<WhoisNode>, ns': seq<WhoisNode>, n: nat) {
    && n < |ns| <= |ns'|
    && ns'[n].nodetype == ns[n].nodetype
    && ns'[n].parentNode == ns[n].parentNode
    && ns'[n].values.Keys == ns[n].values.Keys
    && (forall i :: 0 <= i < |ns| && i != n ==> ns'[i] == ns[i])
  }

  /** The nodes after `before` are the children of `n`; they have no children, and hold nothing that
      `before` does. */
  ghost predicate Fresh(before: seq<WhoisNode>, ns: seq<WhoisNode>, n: nat) {
    && (forall i :: |before| <= i < |ns| ==>
          ns[i].parentNode == Some(n) && NoChildren(ns[i]) && Ids(ns[i]) !! Pairs(before))
    && (forall i :: 0 <= i < |before| && i < |ns| ==> ns[i].parentNode != Some(n))
  }

  /** `before` was expanded to `mid`; since then it grew to `ns`.  The identifiers explored then are
      `seen`, and `done` are those explored now: they include all that was gained since. */
  ghost predicate Grew(db: Db, start: Id, before: seq<WhoisNode>, mid: seq<WhoisNode>, seen: set<Id>,
                       ns: seq<WhoisNode>, done: set<Id>) {
    && Tree(ns)
    && |before| <= |mid| <= |ns|
    && (forall i :: 0 <= i < |before| ==> ns[i] == mid[i])
    && Pairs(mid) <= Pairs(ns)
    && AllReachable(db, start, Pairs(ns))
    && seen <= done <= seen + (Pairs(ns) - Pairs(before))
    && Pairs(ns) - Pairs(mid) <= done
  }

  ghost predicate ChildVisited(mid: seq<WhoisNode>, ns: seq<WhoisNode>, done: set<Id>, c: nat, visited: bool) {
    && c < |mid| <= |ns|
    && (if visited then Ids(mid[c]) <= done else ns[c] == mid[c] && Ids(mid[c]) !! done)
  }

  /** Of the children that value `v` of node `n` got in `mid`, those of the first `k` kinds are
      explored, and the others have not changed. */
  ghost predicate Visited(mid: seq<WhoisNode>, ns: seq<WhoisNode>, done: set<Id>, n: nat, v: string, k: nat)
    requires n < |mid| && v in mid[n].values && k <= 3
  {
    forall j :: 0 <= j < 3 && FORCED_ITERATION_ORDER[j] in mid[n].values[v].subNodes ==>
      ChildVisited(mid, ns, done, mid[n].values[v].subNodes[FORCED_ITERATION_ORDER[j]], j < k)
  }

  lemma NewNodesApart(ns: seq<WhoisNode>, ns': seq<WhoisNode>, n: nat, i: nat)
    requires Tree(ns') && Untouched(ns, ns', n) && |ns| <= i < |ns'|
    ensures Ids(ns'[i]) !! Pairs(ns)
  {
    forall p | p in Pairs(ns)
      ensures p !in Ids(ns'[i])
    {
      InPairs(ns, p);
      var j :| 0 <= j < |ns| && Holds(ns[j], p);
      assert Holds(ns'[j], p) && Apart(ns'[j], ns'[i]);
    }
  }

  lemma FreshAfter(ns: seq<WhoisNode>, ns': seq<WhoisNode>, n: nat)
    requires Tree(ns) && Tree(ns') && n < |ns| && NoChildren(ns[n]) && Grown(ns, ns', n)
    ensures Untouched(ns, ns', n) && Fresh(ns, ns', n)
  {
    forall i: nat | i < |ns|
      ensures ns[i].parentNode != Some(n) && (i != n ==> ns'[i] == ns[i])
    {
      assert 0 < i ==> NonRootOk(ns, i);
      assert i != n ==> GrownAt(ns, ns', n, i);
    }
    forall i | |ns| <= i < |ns'|
      ensures ns'[i].parentNode == Some(n) && NoChildren(ns'[i]) && Ids(ns'[i]) !! Pairs(ns)
    {
      assert GrownAt(ns, ns', n, i);
      NewNodesApart(ns, ns', n, i);
    }
  }

  lemma ReachableAfter(db: Db, start: Id, ns: seq<WhoisNode>, ns': seq<WhoisNode>, n: nat)
    requires n < |ns| && AllReachable(db, start, Pairs(ns))
    requires Pairs(ns') == Pairs(ns) + AllLinks(db, Ids(ns[n]))
    ensures AllReachable(db, start, Pairs(ns'))
  {
    forall q | q in AllLinks(db, Ids(ns[n]))
      ensures Reachable(db, start, q)
    {
      var p :| p in Ids(ns[n]) && Linked(db, p, q);
      InPairs(ns, p);
      assert Holds(ns[n], p);
      ReachableStep(db, start, p, q);
    }
  }

  lemma IdsInPairs(ns: seq<WhoisNode>, n: nat)
    requires n < |ns|
    ensures Ids(ns[n]) <= Pairs(ns)
  {
    forall p | p in Ids(ns[n])
      ensures p in Pairs(ns)
    {
      assert Holds(ns[n], p);
      InPairs(ns, p);
    }
  }

  /** Right after the expansion nothing of the new children is explored. */
  lemma NothingVisited(before: seq<WhoisNode>, mid: seq<WhoisNode>, seen: set<Id>, n: nat, v: string)
    requires Tree(mid) && Untouched(before, mid, n) && Fresh(before, mid, n)
    requires v in mid[n].values && seen <= Pairs(before)
    ensures Visited(mid, mid, seen, n, v, 0)
  {
    assert ChildrenOk(mid, n);
  }

  /** Every identifier that `mid` has over `before` is held by a child of `n`, so it is explored. */
  lemma NewAreChildren(before: seq<WhoisNode>, mid: seq<WhoisNode>, ns: seq<WhoisNode>, done: set<Id>, n: nat)
    requires Tree(mid) && Untouched(before, mid, n) && Fresh(before, mid, n)
    requires forall v :: v in mid[n].values ==> Visited(mid, ns, done, n, v, 3)
    ensures Pairs(mid) - Pairs(before) <= done
  {
    forall p | p in Pairs(mid) - Pairs(before)
      ensures p in done
    {
      InPairs(mid, p);
      InPairs(before, p);
      assert forall j :: 0 <= j < |before| ==> !Holds(before[j], p) && !Holds(mid[j], p);
      var i :| 0 <= i < |mid| && Holds(mid[i], p);
      assert NonRootOk(mid, i);
      var v :| StoredAt(mid, i, v);
      assert Visited(mid, ns, done, n, v, 3);
      var j :| 0 <= j < 3 && FORCED_ITERATION_ORDER[j] == mid[i].nodetype;
      assert ChildVisited(mid, ns, done, i, j < 3);
    }
  }

  /** The child about to be visited holds nothing that the tree before the expansion did. */
  lemma FreshChild(db: Db, start: Id, before: seq<WhoisNode>, mid: seq<WhoisNode>, ns: seq<WhoisNode>,
                   done: set<Id>, n: nat, v: string, k: nat)
    requires Tree(mid) && n < |before| <= |mid| && v in mid[n].values && k < 3
    requires Fresh(before, mid, n) && Pairs(before) <= Pairs(ns)
    requires AllReachable(db, start, Pairs(ns))
    requires FORCED_ITERATION_ORDER[k] in mid[n].values[v].subNodes && Visited(mid, ns, done, n, v, k)
    ensures var c := mid[n].values[v].subNodes[FORCED_ITERATION_ORDER[k]];
            && |before| <= c < |mid| <= |ns|
            && ns[c] == mid[c]
            && NoChildren(ns[c])
            && Ids(ns[c]) !! done
            && Ids(ns[c]) !! Pairs(before)
            && {start} + Universe(db) - Pairs(ns) < {start} + Universe(db) - Pairs(before)
  {
    assert ChildrenOk(mid, n);
    var c := mid[n].values[v].subNodes[FORCED_ITERATION_ORDER[k]];
    assert ChildVisited(mid, ns, done, c, k < k) && NonRootOk(mid, c);
    var w :| w in mid[c].values;
    var p := Id(mid[c].nodetype, w);
    assert p in Ids(mid[c]);
    InPairs(ns, p);
    assert Holds(ns[c], p);
    ReachableInUniverse(db, start, p);
  }

  /** A visit of child `c` explores what `c` holds and what the tree gains. */
  ghost predicate Visits(prev: seq<WhoisNode>, was: set<Id>, ns: seq<WhoisNode>, done: set<Id>, c: nat) {
    && Untouched(prev, ns, c)
    && Pairs(prev) <= Pairs(ns)
    && done == was + Ids(prev[c]) + (Pairs(ns) - Pairs(prev))
  }

  lemma KeptAll(ns: seq<WhoisNode>)
    ensures Kept(ns, ns)
  {
  }

  lemma VisitKeeps(prev: seq<WhoisNode>, was: set<Id>, ns: seq<WhoisNode>, done: set<Id>, c: nat)
    requires Visits(prev, was, ns, done, c) && NoChildren(prev[c])
    ensures Kept(prev, ns)
  {
    assert Extends(prev[c], ns[c]);
  }

  lemma ChildrenDiffer(mid: seq<WhoisNode>, ns: seq<WhoisNode>, c: nat, d: nat)
    requires Distinct(mid) && c < |mid| && d < |mid| && c != d && Pairs(mid) <= Pairs(ns)
    ensures Ids(mid[c]) !! Ids(mid[d]) && Ids(mid[d]) <= Pairs(ns)
  {
    IdsInPairs(mid, d);
    assert c < d ==> Apart(mid[c], mid[d]);
    assert d < c ==> Apart(mid[d], mid[c]);
  }

  /** Visiting a child of one value does not undo the visits of another value's children. */
  lemma OthersVisited(mid: seq<WhoisNode>, prev: seq<WhoisNode>, was: set<Id>, ns: seq<WhoisNode>, done: set<Id>,
                      n: nat, v: string, c: nat, w: string, k: nat)
    requires Tree(mid) && n < |mid| && v in mid[n].values && w in mid[n].values && v != w && k <= 3
    requires exists kind :: kind in mid[n].values[v].subNodes && mid[n].values[v].subNodes[kind] == c
    requires c < |mid| <= |prev| && prev[c] == mid[c] && Pairs(mid) <= Pairs(prev)
    requires Visited(mid, prev, was, n, w, k) && Visits(prev, was, ns, done, c)
    ensures Visited(mid, ns, done, n, w, k)
  {
    assert ChildrenOk(mid, n) && ChildrenApart(mid[n]);
    forall j | 0 <= j < 3 && FORCED_ITERATION_ORDER[j] in mid[n].values[w].subNodes
      ensures ChildVisited(mid, ns, done, mid[n].values[w].subNodes[FORCED_ITERATION_ORDER[j]], j < k)
    {
      var d := mid[n].values[w].subNodes[FORCED_ITERATION_ORDER[j]];
      assert ChildVisited(mid, prev, was, d, j < k);
      ChildrenDiffer(mid, prev, c, d);
    }
  }

  lemma NextVisited(mid: seq<WhoisNode>, prev: seq<WhoisNode>, was: set<Id>, ns: seq<WhoisNode>, done: set<Id>,
                    n: nat, v: string, k: nat)
    requires Tree(mid) && n < |mid| && v in mid[n].values && k < 3
    requires FORCED_ITERATION_ORDER[k] in mid[n].values[v].subNodes && Visited(mid, prev, was, n, v, k)
    requires Pairs(mid) <= Pairs(prev)
    requires Visits(prev, was, ns, done, mid[n].values[v].subNodes[FORCED_ITERATION_ORDER[k]])
    ensures Visited(mid, ns, done, n, v, k + 1)
  {
    assert ChildrenOk(mid, n);
    var c := mid[n].values[v].subNodes[FORCED_ITERATION_ORDER[k]];
    assert ChildVisited(mid, prev, was, c, k < k);
    forall j | 0 <= j < 3 && FORCED_ITERATION_ORDER[j] in mid[n].values[v].subNodes
      ensures ChildVisited(mid, ns, done, mid[n].values[v].subNodes[FORCED_ITERATION_ORDER[j]], j < k + 1)
    {
      var d := mid[n].values[v].subNodes[FORCED_ITERATION_ORDER[j]];
      assert ChildVisited(mid, prev, was, d, j < k);
      if j != k {
        ChildrenDiffer(mid, prev, c, d);
      }
    }
  }

  lemma GrewMore(db: Db, start: Id, before: seq<WhoisNode>, mid: seq<WhoisNode>, seen: set<Id>,
                 prev: seq<WhoisNode>, was: set<Id>, ns: seq<WhoisNode>, done: set<Id>, c: nat)
    requires Pairs(before) <= Pairs(mid) && Grew(db, start, before, mid, seen, prev, was)
    requires |before| <= c && Visits(prev, was, ns, done, c) && Ids(prev[c]) !! Pairs(before)
    requires Tree(ns) && AllReachable(db, start, Pairs(ns))
    ensures Grew(db, start, before, mid, seen, ns, done)
  {
    IdsInPairs(prev, c);
  }

  /** How many of the three kinds of children of value `v` were visited. */
  function Rounds(v: string, todo: set<string>): (k: nat)
    ensures k <= 3
  {
    if v in todo then 0 else 3
  }

  /** The children of the values in `todo` are still to be visited, the others of node `n` are explored. */
  ghost predicate Visiting(mid: seq<WhoisNode>, ns: seq<WhoisNode>, done: set<Id>, n: nat, todo: set<string>)
    requires n < |mid|
  {
    forall v :: v in mid[n].values ==> Visited(mid, ns, done, n, v, Rounds(v, todo))
  }

  /** What was visited of the other values of node `n` still is. */
  ghost predicate KeepsVisits(mid: seq<WhoisNode>, prev: seq<WhoisNode>, was: set<Id>,
                              ns: seq<WhoisNode>, done: set<Id>, n: nat, value: string)
    requires n < |mid|
  {
    forall v, k :: v in mid[n].values && v != value && k <= 3 && Visited(mid, prev, was, n, v, k) ==>
      Visited(mid, ns, done, n, v, k)
  }

  lemma VisitingMore(mid: seq<WhoisNode>, prev: seq<WhoisNode>, was: set<Id>, ns: seq<WhoisNode>, done: set<Id>,
                     n: nat, todo: set<string>, value: string)
    requires n < |mid| && value in mid[n].values && Visiting(mid, prev, was, n, todo)
    requires KeepsVisits(mid, prev, was, ns, done, n, value) && Visited(mid, ns, done, n, value, 3)
    ensures Visiting(mid, ns, done, n, todo - {value})
  {
    forall v | v in mid[n].values
      ensures Visited(mid, ns, done, n, v, Rounds(v, todo - {value}))
    {
      assert Visited(mid, prev, was, n, v, Rounds(v, todo));
    }
  }

  lemma KeepsMoreVisits(mid: seq<WhoisNode>, first: seq<WhoisNode>, past: set<Id>, prev: seq<WhoisNode>, was: set<Id>,
                        ns: seq<WhoisNode>, done: set<Id>, n: nat, value: string, c: nat)
    requires Tree(mid) && n < |mid| && value in mid[n].values && KeepsVisits(mid, first, past, prev, was, n, value)
    requires exists kind :: kind in mid[n].values[value].subNodes && mid[n].values[value].subNodes[kind] == c
    requires c < |mid| <= |prev| && prev[c] == mid[c] && Pairs(mid) <= Pairs(prev) && Visits(prev, was, ns, done, c)
    ensures KeepsVisits(mid, first, past, ns, done, n, value)
  {
    forall v, k: nat | v in mid[n].values && v != value && k <= 3 && Visited(mid, first, past, n, v, k)
      ensures Visited(mid, ns, done, n, v, k)
    {
      OthersVisited(mid, prev, was, ns, done, n, value, c, v, k);
    }
  }

  lemma AfterExpansion(db: Db, start: Id, ns: seq<WhoisNode>, mid: seq<WhoisNode>, n: nat, past: set<Id>, seen: set<Id>)
    requires Tree(ns) && n < |ns| && NoChildren(ns[n]) && Hung(ns, mid, n, AllLinks(db, Ids(ns[n])))
    requires AllReachable(db, start, Pairs(ns)) && past <= Pairs(ns) && seen == past + Ids(ns[n])
    ensures Untouched(ns, mid, n) && Fresh(ns, mid, n) && seen <= Pairs(ns)
    ensures Grew(db, start, ns, mid, seen, mid, seen) && Visiting(mid, mid, seen, n, mid[n].values.Keys)
  {
    FreshAfter(ns, mid, n);
    ReachableAfter(db, start, ns, mid, n);
    IdsInPairs(ns, n);
    forall v | v in mid[n].values
      ensures Visited(mid, mid, seen, n, v, 0)
    {
      NothingVisited(ns, mid, seen, n, v);
    }
  }

  lemma AfterVisits(db: Db, start: Id, ns: seq<WhoisNode>, mid: seq<WhoisNode>, past: set<Id>, seen: set<Id>,
                    ns': seq<WhoisNode>, done: set<Id>, n: nat)
    requires Tree(mid) && Untouched(ns, mid, n) && Fresh(ns, mid, n) && Pairs(ns) <= Pairs(mid)
    requires seen == past + Ids(ns[n]) && Grew(db, start, ns, mid, seen, ns', done) && Visiting(mid, ns', done, n, {})
    ensures Visits(ns, past, ns', done, n)
  {
    forall v | v in mid[n].values
      ensures Visited(mid, ns', done, n, v, 3)
    {
      assert Visited(mid, ns', done, n, v, Rounds(v, {}));
    }
    NewAreChildren(ns, mid, ns', done, n);
  }

  /** Between two visits of `FilterSubNodes`: of the children of `value`, those of the first `k` kinds were visited,
      and nothing else happened since the tree was `past`. */
  ghost predicate Descending(db: Db, start: Id, before: seq<WhoisNode>, mid: seq<WhoisNode>, seen: set<Id>,
                             past: seq<WhoisNode>, was: set<Id>, told: seq<Offer>,
                             ns: seq<WhoisNode>, done: set<Id>, now: seq<Offer>, n: nat, value: string, k: nat) {
    && k <= 3 && n < |before| <= |mid| && value in mid[n].values
    && Grew(db, start, before, mid, seen, ns, done)
    && Visited(mid, ns, done, n, value, k)
    && KeepsVisits(mid, past, was, ns, done, n, value)
    && was <= done && AllTold(db, told, now, done - was)
    && Kept(past, ns) && ExploredKinds(ns, told, now, mid[n].values[value], k)
  }

  /** What the visit of child `c` did. */
  ghost predicate VisitedChild(db: Db, start: Id, before: seq<WhoisNode>, mid: seq<WhoisNode>,
                               prev: seq<WhoisNode>, was: set<Id>, told: seq<Offer>,
                               ns: seq<WhoisNode>, done: set<Id>, now: seq<Offer>, c: nat) {
    && |before| <= c < |mid| <= |prev| && prev[c] == mid[c] && NoChildren(prev[c]) && Ids(prev[c]) !! Pairs(before)
    && Visits(prev, was, ns, done, c)
    && Tree(ns) && AllReachable(db, start, Pairs(ns))
    && AllTold(db, told, now, done - was)
    && ExploredBelow(ns, told, now, c)
  }

  lemma DescendsNot(db: Db, start: Id, before: seq<WhoisNode>, mid: seq<WhoisNode>, seen: set<Id>,
                    ns: seq<WhoisNode>, done: set<Id>, now: seq<Offer>, n: nat, value: string)
    requires n < |before| <= |mid| && value in mid[n].values && Grew(db, start, before, mid, seen, ns, done)
    requires Visited(mid, ns, done, n, value, 0)
    ensures Descending(db, start, before, mid, seen, ns, done, now, ns, done, now, n, value, 0)
  {
    KeptAll(ns);
    NoKindsExplored(ns, now, mid[n].values[value]);
  }

  lemma DescendsPast(db: Db, start: Id, before: seq<WhoisNode>, mid: seq<WhoisNode>, seen: set<Id>,
                     past: seq<WhoisNode>, was: set<Id>, told: seq<Offer>,
                     ns: seq<WhoisNode>, done: set<Id>, now: seq<Offer>, n: nat, value: string, k: nat, next: nat)
    requires Descending(db, start, before, mid, seen, past, was, told, ns, done, now, n, value, k)
    requires next == k + 1 <= 3 && FORCED_ITERATION_ORDER[k] !in mid[n].values[value].subNodes
    ensures Descending(db, start, before, mid, seen, past, was, told, ns, done, now, n, value, next)
  {
    KindIsAbsent(ns, told, now, mid[n].values[value], k);
  }

  lemma DescendsExploring(db: Db, start: Id, before: seq<WhoisNode>, mid: seq<WhoisNode>, seen: set<Id>,
                          past: seq<WhoisNode>, told: seq<Offer>,
                          prev: seq<WhoisNode>, was: set<Id>, read: seq<Offer>,
                          ns: seq<WhoisNode>, done: set<Id>, now: seq<Offer>, n: nat, value: string, k: nat)
    requires k < 3 && n < |before| <= |mid| && value in mid[n].values
    requires FORCED_ITERATION_ORDER[k] in mid[n].values[value].subNodes
    requires Grew(db, start, before, mid, seen, prev, was) && Grew(db, start, before, mid, seen, ns, done)
    requires Kept(past, prev) && ExploredKinds(prev, told, read, mid[n].values[value], k)
    requires VisitedChild(db, start, before, mid, prev, was, read, ns, done, now,
                          mid[n].values[value].subNodes[FORCED_ITERATION_ORDER[k]])
    ensures Kept(past, ns) && ExploredKinds(ns, told, now, mid[n].values[value], k + 1)
  {
    VisitKeeps(prev, was, ns, done, mid[n].values[value].subNodes[FORCED_ITERATION_ORDER[k]]);
    KeptTransitive(past, prev, ns);
    KindExplored(prev, ns, told, read, now, n, value, k);
  }

  lemma DescendsNext(db: Db, start: Id, before: seq<WhoisNode>, mid: seq<WhoisNode>, seen: set<Id>,
                     past: seq<WhoisNode>, was0: set<Id>, told: seq<Offer>,
                     prev: seq<WhoisNode>, was: set<Id>, read: seq<Offer>,
                     ns: seq<WhoisNode>, done: set<Id>, now: seq<Offer>, n: nat, value: string, k: nat, next: nat)
    requires Tree(mid) && Pairs(before) <= Pairs(mid)
    requires Descending(db, start, before, mid, seen, past, was0, told, prev, was, read, n, value, k)
    requires next == k + 1 <= 3 && FORCED_ITERATION_ORDER[k] in mid[n].values[value].subNodes
    requires VisitedChild(db, start, before, mid, prev, was, read, ns, done, now,
                          mid[n].values[value].subNodes[FORCED_ITERATION_ORDER[k]])
    ensures Descending(db, start, before, mid, seen, past, was0, told, ns, done, now, n, value, next)
  {
    var c := mid[n].values[value].subNodes[FORCED_ITERATION_ORDER[k]];
    GrewMore(db, start, before, mid, seen, prev, was, ns, done, c);
    KeepsMoreVisits(mid, past, was0, prev, was, ns, done, n, value, c);
    NextVisited(mid, prev, was, ns, done, n, value, k);
    ExploredTold(db, told, read, now, was0, was, done);
    DescendsExploring(db, start, before, mid, seen, past, told, prev, was, read, ns, done, now, n, value, k);
  }

  class NodeStore {
    var nodes: seq<WhoisNode>
    /** What the search started from, the records read so far, and the identifiers whose records they are. */
    ghost const start: Id
    ghost var offers: seq<Offer>
    ghost var explored: set<Id>

    ghost predicate Made()
      reads this
    {
      BuiltBy(nodes, start, offers)
    }

    constructor (search: string, searchtype: Kind)
      ensures start == Id(searchtype, search) && nodes == Root(start) && offers == [] && explored == {}
    {
      nodes := [WhoisNode(searchtype, None, map[search := WhoisValue(None, map[])])];
      start, offers, explored := Id(searchtype, search), [], {};
    }

    /** Finds the value in the subtree of node `n`.  The caller gets a copy of the value. */
    method GetValueData(n: nat, search: string, searchType: Kind) returns (found: Option<WhoisValue>)
      requires Tree(nodes) && n < |nodes|
      ensures found.Some? <==> Below(nodes, n, Id(searchType, search))
      ensures found.Some? ==> exists i :: 0 <= i < |nodes| && Holds(nodes[i], Id(searchType, search))
                                          && found.value == nodes[i].values[search]
      decreases |nodes| - n
    {
      ghost var p := Id(searchType, search);
      var todo := nodes[n].values.Keys;
      while todo != {}
        invariant todo <= nodes[n].values.Keys
        invariant forall v :: HeldAt(nodes, n, v, p) ==> v in todo
      {
        var value :| value in todo;
        var valueData := nodes[n].values[value];
        if nodes[n].nodetype == searchType && search == value {
          HeldIsBelow(nodes, n, value, p);
          assert Holds(nodes[n], p);
          return Some(valueData);
        }
        var kinds := valueData.subNodes.Keys;
        while kinds != {}
          invariant kinds <= valueData.subNodes.Keys
          invariant forall kind :: kind in valueData.subNodes && Below(nodes, valueData.subNodes[kind], p) ==>
                      kind in kinds
        {
          var kind :| kind in kinds;
          assert ChildrenOk(nodes, n);
          found := GetValueData(valueData.subNodes[kind], search, searchType);
          if found.Some? {
            HeldIsBelow(nodes, n, value, p);
            return;
          }
          kinds := kinds - {kind};
        }
        todo := todo - {value};
      }
      found := None;
      if Below(nodes, n, p) {
        var v := BelowIsHeld(nodes, n, p);
      }
    }

    /** Adds a value to `child`, which need not be stored yet, unless the tree holds the value.
        The timestamp of a value already held is raised only on the copy that GetValueData
        returned, so the tree does not change. */
    method AddKey(child: WhoisNode, value: string, timestamp: int) returns (child': WhoisNode, ok: bool)
      requires Tree(nodes)
      ensures ok <==> Id(child.nodetype, value) !in Pairs(nodes)
      ensures child' == if !ok then child
                        else child.(values := child.values[value := WhoisValue(Some(timestamp), map[])])
    {
      BelowRoot(nodes, Id(child.nodetype, value));
      var storedValue := GetValueData(0, value, child.nodetype);
      if storedValue.Some? {
        var copy := storedValue.value;
        if copy.timestamp.Some? && copy.timestamp.value < timestamp {
          copy := copy.(timestamp := Some(timestamp));
        }
        return child, false;
      }
      return child.(values := child.values[value := WhoisValue(Some(timestamp), map[])]), true;
    }

    /** What AddChildKey does to the tree. */
    method HangChildKey(n: nat, v: string, kind: Kind, value: string, timestamp: int)
      requires Tree(nodes) && n < |nodes| && v in nodes[n].values && kind in FORCED_ITERATION_ORDER
      modifies `nodes
      ensures Hung(old(nodes), nodes, n, {Id(kind, value)})
      ensures nodes == WithOffer(old(nodes), n, v, kind, value, timestamp)
    {
      assert ChildrenOk(nodes, n);
      var subNodes := nodes[n].values[v].subNodes;
      var nodeNew := kind !in subNodes;
      var child := if nodeNew then WhoisNode(kind, Some(n), map[]) else nodes[subNodes[kind]];
      var ok;
      child, ok := AddKey(child, value, timestamp);
      if nodeNew && ok {
        TreeWithChild(nodes, n, v, kind, value, timestamp);
        var valueData := nodes[n].values[v].(subNodes := subNodes[kind := |nodes|]);
        nodes := nodes[n := nodes[n].(values := nodes[n].values[v := valueData])] + [child];
        assert nodes == WithChild(old(nodes), n, v, kind, value, timestamp);
        GrownByChild(old(nodes), n, v, kind, value, timestamp);
      } else if ok {
        TreeWithKey(nodes, subNodes[kind], value, timestamp);
        nodes := nodes[subNodes[kind] := child];
        assert nodes == WithKey(old(nodes), subNodes[kind], value, timestamp);
        GrownByKey(old(nodes), n, subNodes[kind], value, timestamp);
      } else {
        assert nodes == old(nodes) && Id(kind, value) in Pairs(nodes);
        GrownNot(nodes, n);
      }
    }

    /** Hangs `value` below value `v` of node `n`, in the child of kind `kind`.  A child that does
        not exist yet is stored only if it received the value. */
    method AddChildKey(n: nat, v: string, kind: Kind, value: string, timestamp: int)
      requires Made() && Tree(nodes) && n < |nodes| && v in nodes[n].values && kind in FORCED_ITERATION_ORDER
      modifies `nodes, `offers
      ensures Made() && Hung(old(nodes), nodes, n, {Id(kind, value)})
      ensures nodes == WithOffer(old(nodes), n, v, kind, value, timestamp)
      ensures offers == old(offers) + [Offer(Id(old(nodes)[n].nodetype, v), Id(kind, value), timestamp)]
    {
      HangChildKey(n, v, kind, value, timestamp);
      ghost var offer := Offer(Id(old(nodes)[n].nodetype, v), Id(kind, value), timestamp);
      OfferAt(old(nodes), n, v, offer.p, timestamp);
      BuiltMore(old(nodes), nodes, start, offers, offer);
      offers := offers + [offer];
    }

    /** Hangs the recorded names below value `v` of node `n`. */
    method AddNodeNames(n: nat, v: string, names: seq<Unit>)
      requires Made() && Tree(nodes) && n < |nodes| && v in nodes[n].values
      modifies `nodes, `offers
      ensures Made() && Hung(old(nodes), nodes, n, Named(names))
      ensures offers == old(offers) + NameOffers(Id(old(nodes)[n].nodetype, v), names)
    {
      ghost var from := Id(nodes[n].nodetype, v);
      HungNothing(nodes, n);
      for k := 0 to |names|
        invariant Made() && Hung(old(nodes), nodes, n, Named(names[..k]))
        invariant offers == old(offers) + NameOffers(from, names[..k])
      {
        ghost var before, next := nodes, k + 1;
        AddChildKey(n, v, NodeName, names[k].value, names[k].timestamp);
        NamedAppend(names, k, next);
        NextName(old(offers), from, names, k, next);
        HungMore(old(nodes), before, nodes, n, Named(names[..k]), {Id(NodeName, names[k].value)}, Named(names[..next]));
      }
      assert names[..|names|] == names;
    }

    /** Hangs `key` below the name `name` of node `n` if it is among the names recorded for the key. */
    method AddOwner(n: nat, name: string, kind: Kind, key: string, names: seq<Unit>)
      requires Made() && Tree(nodes) && n < |nodes| && name in nodes[n].values && kind in FORCED_ITERATION_ORDER
      modifies `nodes, `offers
      ensures Made() && Hung(old(nodes), nodes, n, Owner(names, Id(kind, key), name))
      ensures offers == old(offers) + KeyOffers(Id(old(nodes)[n].nodetype, name), Id(kind, key), names)
    {
      ghost var from, p := Id(nodes[n].nodetype, name), Id(kind, key);
      HungNothing(nodes, n);
      for k := 0 to |names|
        invariant Made() && Hung(old(nodes), nodes, n, Owner(names[..k], p, name))
        invariant offers == old(offers) + KeyOffers(from, p, names[..k])
      {
        ghost var before, next := nodes, k + 1;
        OwnerAppend(names, k, next, p, name);
        NextKey(old(offers), from, p, names, k, next);
        if name == names[k].value {
          AddChildKey(n, name, kind, key, names[k].timestamp);
          HungMore(old(nodes), before, nodes, n, Owner(names[..k], p, name), {p}, Owner(names[..next], p, name));
        }
      }
      assert names[..|names|] == names;
    }

    /** Hangs below the name `name` of node `n` the keys of `m` that are recorded with it. */
    method AddOwners(ghost db: Db, n: nat, name: string, kind: Kind, m: map<string, seq<Unit>>)
      requires Made() && Tree(nodes) && n < |nodes| && name in nodes[n].values && kind in FORCED_ITERATION_ORDER
      requires OwnersOf(db, Id(nodes[n].nodetype, name), kind, m)
      modifies `nodes, `offers
      ensures Made() && Hung(old(nodes), nodes, n, Owners(m, m.Keys, kind, name))
      ensures Told(db, old(offers), offers, Id(old(nodes)[n].nodetype, name), Owners(m, m.Keys, kind, name))
    {
      var done := {};
      ghost var from := Id(nodes[n].nodetype, name);
      HungNothing(nodes, n);
      ToldNothing(db, offers, from);
      assert Owners(m, {}, kind, name) == {};
      while done != m.Keys
        invariant done <= m.Keys
        decreases m.Keys - done
        invariant Made() && Hung(old(nodes), nodes, n, Owners(m, done, kind, name))
        invariant Told(db, old(offers), offers, from, Owners(m, done, kind, name))
      {
        assert !(m.Keys <= done);
        var key :| key in m.Keys && key !in done;
        ghost var before, was, more := nodes, offers, done + {key};
        AddOwner(n, name, kind, key, m[key]);
        OwnersStep(m, done, key, kind, name);
        OwnerTold(db, old(offers), was, from, kind, m, done, key);
        HungMore(old(nodes), before, nodes, n, Owners(m, done, kind, name), Owner(m[key], Id(kind, key), name),
                 Owners(m, more, kind, name));
        done := done + {key};
      }
    }

    /** The first loop of filterDBUsingIP: hangs the hashes of `ip` below it. */
    method AddHashes(db: Db, n: nat, ip: string)
      requires Made() && Tree(nodes) && n < |nodes| && ip in nodes[n].values && nodes[n].nodetype == Ip
      modifies `nodes, `offers
      ensures Made() && Hung(old(nodes), nodes, n, Hashes(db.hashToIP, db.hashToIP.Keys, ip))
      ensures Told(db, old(offers), offers, Id(Ip, ip), Hashes(db.hashToIP, db.hashToIP.Keys, ip))
    {
      var done := {};
      HungNothing(nodes, n);
      ToldNothing(db, offers, Id(Ip, ip));
      assert Hashes(db.hashToIP, {}, ip) == {};
      while done != db.hashToIP.Keys
        invariant done <= db.hashToIP.Keys
        decreases db.hashToIP.Keys - done
        invariant Made() && Hung(old(nodes), nodes, n, Hashes(db.hashToIP, done, ip))
        invariant Told(db, old(offers), offers, Id(Ip, ip), Hashes(db.hashToIP, done, ip))
      {
        assert !(db.hashToIP.Keys <= done);
        var hash :| hash in db.hashToIP && hash !in done;
        ghost var before, was, more := nodes, offers, done + {hash};
        HashesStep(db.hashToIP, done, hash, ip);
        if ip == db.hashToIP[hash].value {
          AddChildKey(n, ip, Uuid, hash, db.hashToIP[hash].timestamp);
          HashTold(db, old(offers), was, ip, done, hash);
          HungMore(old(nodes), before, nodes, n, Hashes(db.hashToIP, done, ip), {Id(Uuid, hash)},
                   Hashes(db.hashToIP, more, ip));
        }
        done := done + {hash};
      }
    }

    /** One round of filterDBUsingIP. */
    method ExpandIP(db: Db, n: nat, ip: string)
      requires Made() && Tree(nodes) && n < |nodes| && ip in nodes[n].values && nodes[n].nodetype == Ip
      modifies `nodes, `offers
      ensures Made() && Hung(old(nodes), nodes, n, Links(db, Id(Ip, ip)))
      ensures AllTold(db, old(offers), offers, {Id(Ip, ip)})
    {
      AddHashes(db, n, ip);
      ghost var before, was := nodes, offers;
      if ip in db.ipToNodeNames {
        AddNodeNames(n, ip, db.ipToNodeNames[ip]);
      } else {
        HungNothing(nodes, n);
      }
      LinksOfIP(db, ip);
      HungMore(old(nodes), before, nodes, n, Hashes(db.hashToIP, db.hashToIP.Keys, ip),
               Named(Units(db.ipToNodeNames, ip)), Links(db, Id(Ip, ip)));
      IPTold(db, old(offers), was, offers, ip);
    }

    /** One round of FilterDBUsingUUID. */
    method ExpandUUID(db: Db, n: nat, uuid: string)
      requires Made() && Tree(nodes) && n < |nodes| && uuid in nodes[n].values && nodes[n].nodetype == Uuid
      modifies `nodes, `offers
      ensures Made() && Hung(old(nodes), nodes, n, Links(db, Id(Uuid, uuid)))
      ensures AllTold(db, old(offers), offers, {Id(Uuid, uuid)})
    {
      if uuid in db.hashToNodeNames {
        AddNodeNames(n, uuid, db.hashToNodeNames[uuid]);
      } else {
        HungNothing(nodes, n);
      }
      ghost var before, was := nodes, offers;
      if uuid in db.hashToIP {
        AddChildKey(n, uuid, Ip, db.hashToIP[uuid].value, db.hashToIP[uuid].timestamp);
      } else {
        HungNothing(nodes, n);
      }
      LinksOfUUID(db, uuid);
      HungMore(old(nodes), before, nodes, n, Named(Units(db.hashToNodeNames, uuid)), HashIP(db.hashToIP, uuid),
               Links(db, Id(Uuid, uuid)));
      UUIDTold(db, old(offers), was, offers, uuid);
    }

    /** One round of FilterDBUsingNodeName. */
    method ExpandNodeName(db: Db, n: nat, nodename: string)
      requires Made() && Tree(nodes) && n < |nodes| && nodename in nodes[n].values && nodes[n].nodetype == NodeName
      modifies `nodes, `offers
      ensures Made() && Hung(old(nodes), nodes, n, Links(db, Id(NodeName, nodename)))
      ensures AllTold(db, old(offers), offers, {Id(NodeName, nodename)})
    {
      LinksOfNodeName(db, nodename);
      if nodename == UNSPECIFIED {
        UnspecifiedTold(db, offers);
        HungNothing(nodes, n);
        return;
      }
      NamesHaveOwners(db, nodename);
      AddOwners(db, n, nodename, Uuid, db.hashToNodeNames);
      ghost var before, was := nodes, offers;
      AddOwners(db, n, nodename, Ip, db.ipToNodeNames);
      HungMore(old(nodes), before, nodes, n, Owners(db.hashToNodeNames, db.hashToNodeNames.Keys, Uuid, nodename),
               Owners(db.ipToNodeNames, db.ipToNodeNames.Keys, Ip, nodename), Links(db, Id(NodeName, nodename)));
      NodeNameTold(db, old(offers), was, offers, nodename);
    }

    method Expand(db: Db, n: nat, value: string)
      requires Made() && Tree(nodes) && n < |nodes| && value in nodes[n].values
      modifies `nodes, `offers
      ensures Made() && Expanded(db, old(nodes), old(offers), nodes, offers, n, {Id(old(nodes)[n].nodetype, value)})
    {
      match nodes[n].nodetype {
        case Ip => ExpandIP(db, n, value);
        case Uuid => ExpandUUID(db, n, value);
        case NodeName => ExpandNodeName(db, n, value);
        case Other(_) =>
          HungNothing(nodes, n);
          NoLinks(db, Id(nodes[n].nodetype, value), offers);
      }
      ExpandedOne(db, old(nodes), old(offers), nodes, offers, n, Id(old(nodes)[n].nodetype, value));
    }

    /** filterDBUsingIP, FilterDBUsingUUID or FilterDBUsingNodeName, by the kind of node `n`. */
    method FilterDB(db: Db, n: nat)
      requires Made() && Tree(nodes) && n < |nodes|
      modifies `nodes, `offers
      ensures Made() && Expanded(db, old(nodes), old(offers), nodes, offers, n, Ids(old(nodes)[n]))
    {
      var values, done := nodes[n].values.Keys, {};
      ghost var kind := nodes[n].nodetype;
      ExpandedNothing(db, nodes, offers, n);
      assert IdsOf(kind, {}) == {};
      while done != values
        invariant done <= values
        invariant Made() && Expanded(db, old(nodes), old(offers), nodes, offers, n, IdsOf(kind, done))
        decreases values - done
      {
        assert !(values <= done);
        var value :| value in values && value !in done;
        ghost var before, was := nodes, offers;
        Expand(db, n, value);
        ExpandedMore(db, old(nodes), old(offers), before, was, nodes, offers, n, kind, done, value);
        done := done + {value};
      }
    }

    /** Expands node `n`, then filters each child it received.  The records of what `n` holds, and of
        what the tree gained, are read. */
    method Filter(db: Db, n: nat) returns (ghost first: seq<Offer>)
      requires Made() && Tree(nodes) && n < |nodes| && NoChildren(nodes[n])
      requires AllReachable(db, start, Pairs(nodes))
      requires explored <= Pairs(nodes) && Ids(nodes[n]) !! explored
      modifies this
      ensures Made() && Tree(nodes) && AllReachable(db, start, Pairs(nodes))
      ensures Visits(old(nodes), old(explored), nodes, explored, n)
      ensures AllTold(db, old(offers), offers, explored - old(explored))
      ensures first <= offers && AllTold(db, old(offers), first, Ids(old(nodes)[n]))
      ensures ExploredBelow(nodes, old(offers), offers, n)
      decreases {start} + Universe(db) - Pairs(nodes), 1
    {
      FilterDB(db, n);
      first := offers;
      ValuesExplored(db, nodes, old(offers), offers, n, nodes[n].values.Keys);
      ghost var mid, seen := nodes, explored + Ids(old(nodes)[n]);
      explored := seen;
      AfterExpansion(db, start, old(nodes), mid, n, old(explored), seen);
      var todo := nodes[n].values.Keys;
      while todo != {}
        invariant Made() && Grew(db, start, old(nodes), mid, seen, nodes, explored) && todo <= nodes[n].values.Keys
        invariant Visiting(mid, nodes, explored, n, todo)
        invariant AllTold(db, old(offers), offers, explored - old(explored)) && first <= offers
        invariant ExploredNode(nodes, old(offers), offers, nodes[n], todo)
      {
        var value :| value in todo;
        ghost var before, was, told := nodes, explored, offers;
        assert Visited(mid, nodes, explored, n, value, 0);
        FilterSubNodes(db, n, value, old(nodes), mid, seen);
        VisitingMore(mid, before, was, nodes, explored, n, todo, value);
        ExploredTold(db, old(offers), told, offers, old(explored), was, explored);
        ValueExplored(before, nodes, old(offers), told, offers, n, todo, value);
        todo := todo - {value};
      }
      SubtreeExplored(nodes, old(offers), offers, n);
      AfterVisits(db, start, old(nodes), mid, old(explored), seen, nodes, explored, n);
    }

    /** The loop of filter over the children of one value.  `before` is the tree in which node `n`
        had no children, `mid` the tree in which it just got them. */
    method FilterSubNodes(db: Db, n: nat, value: string, ghost before: seq<WhoisNode>, ghost mid: seq<WhoisNode>,
                          ghost seen: set<Id>)
      requires n < |before| <= |mid| && Fresh(before, mid, n) && Tree(mid) && Pairs(before) <= Pairs(mid)
      requires Made() && Grew(db, start, before, mid, seen, nodes, explored)
      requires seen <= Pairs(before)
      requires value in nodes[n].values && Visited(mid, nodes, explored, n, value, 0)
      modifies this
      ensures Made() && Grew(db, start, before, mid, seen, nodes, explored)
      ensures Visited(mid, nodes, explored, n, value, 3)
      ensures KeepsVisits(mid, old(nodes), old(explored), nodes, explored, n, value)
      ensures old(explored) <= explored && AllTold(db, old(offers), offers, explored - old(explored))
      ensures Kept(old(nodes), nodes) && ExploredKinds(nodes, old(offers), offers, nodes[n].values[value], 3)
      decreases {start} + Universe(db) - Pairs(before), 0
    {
      DescendsNot(db, start, before, mid, seen, nodes, explored, offers, n, value);
      for k := 0 to 3
        invariant Made() && Descending(db, start, before, mid, seen, old(nodes), old(explored), old(offers),
                                       nodes, explored, offers, n, value, k)
      {
        ghost var next := k + 1;
        var kind := FORCED_ITERATION_ORDER[k];
        if kind in nodes[n].values[value].subNodes {
          var c := nodes[n].values[value].subNodes[kind];
          FreshChild(db, start, before, mid, nodes, explored, n, value, k);
          ghost var prev, was, told := nodes, explored, offers;
          ghost var first := Filter(db, c);
          DescendsNext(db, start, before, mid, seen, old(nodes), old(explored), old(offers), prev, was, told,
                       nodes, explored, offers, n, value, k, next);
        } else {
          DescendsPast(db, start, before, mid, seen, old(nodes), old(explored), old(offers),
                       nodes, explored, offers, n, value, k, next);
        }
      }
    }
  }

  /** The tree of everything joined to `search`.  Whatever order the maps are iterated in, it holds
      exactly what the records of the store make reachable, and it is built from exactly the records of
      what it holds. */
  method Whois(db: Db, search: string, searchtype: Kind) returns (w: NodeStore)
    ensures fresh(w) && Tree(w.nodes)
    ensures forall p :: p in Pairs(w.nodes) <==> Reachable(db, Id(searchtype, search), p)
    ensures Answers(db, Id(searchtype, search), w.nodes, w.offers)
    ensures Times(w.nodes) == OfferedAll(AtStart(Id(searchtype, search)), w.offers)
    ensures ReadInOrder(w.nodes, w.offers)
  {
    w := new NodeStore(search, searchtype);
    ghost var start := Id(searchtype, search);
    RootIsTree(start);
    ReachableStart(db, start);
    assert Ids(w.nodes[0]) == {start};
    ghost var first := w.Filter(db, 0);
    assert w.explored == Pairs(w.nodes);
    assert Since([], w.offers) == w.offers;
    StartIsFirst(db, start, first, w.offers, Pairs(w.nodes));
    BuiltTimes(w.nodes, start, w.offers);
    OfferedIsHeld(w.nodes, start, w.offers);
    forall p | Reachable(db, start, p)
      ensures p in Pairs(w.nodes)
    {
      HoldsReachable(db, start, w.nodes, w.offers, p);
    }
  }

  /** An identifier has one place in the tree. */
  lemma HeldOnce(ns: seq<WhoisNode>, p: Id, i: nat, j: nat)
    requires Tree(ns) && i < |ns| && j < |ns| && Holds(ns[i], p) && Holds(ns[j], p)
    ensures i == j
  {
    assert i < j ==> Apart(ns[i], ns[j]);
    assert j < i ==> Apart(ns[j], ns[i]);
  }

  /** Searching for two identifiers joined without "unspecified" finds the same identifiers. */
  lemma SameFindings(db: Db, p: Id, q: Id, ns: seq<WhoisNode>, ms: seq<WhoisNode>)
    requires forall r :: r in Pairs(ns) <==> Reachable(db, p, r)
    requires forall r :: r in Pairs(ms) <==> Reachable(db, q, r)
    requires q in Pairs(ns) && q != Id(NodeName, "unspecified")
    ensures Pairs(ns) == Pairs(ms)
  {
    forall r
      ensures r in Pairs(ns) <==> r in Pairs(ms)
    {
      SameReach(db, p, q, r);
    }
  }
}
