/** Sequences of nodes that form one identity tree, and what such a tree holds.
    A node is referred to by its position: the root is node 0, children come after their parent. */
module WhoisTree {
  import opened Options
  import opened WhoisGraph

  /** Children are visited in this order, whatever order the maps are iterated in. */
  const FORCED_ITERATION_ORDER := [NodeName, Ip, Uuid]

  /** Only the value the search starts from has no timestamp. */
  datatype WhoisValue = WhoisValue(timestamp: Option<int>, subNodes: map<Kind, nat>)

  datatype WhoisNode = WhoisNode(nodetype: Kind, parentNode: Option<nat>, values: map<string, WhoisValue>)

  ghost predicate NoChildren(node: WhoisNode) {
    forall v :: v in node.values ==> node.values[v].subNodes == map[]
  }

  /** The children of node `n` come after it and know it. */
  ghost predicate ChildrenOk(ns: seq<WhoisNode>, n: nat)
    requires n < |ns|
  {
    forall v, kind :: v in ns[n].values && kind in ns[n].values[v].subNodes ==>
      var c := ns[n].values[v].subNodes[kind];
      n < c < |ns| && ns[c].nodetype == kind && ns[c].parentNode == Some(n)
  }

  /** Each child of `node` hangs below one value only. */
  ghost predicate ChildrenApart(node: WhoisNode) {
    forall v, w, kind | v in node.values && w in node.values && v != w ::
      kind in node.values[v].subNodes && kind in node.values[w].subNodes ==>
        node.values[v].subNodes[kind] != node.values[w].subNodes[kind]
  }

  /** Node `n` is stored below value `v` of its parent. */
  ghost predicate StoredAt(ns: seq<WhoisNode>, n: nat, v: string)
    requires n < |ns|
  {
    && ns[n].parentNode.Some?
    && var p := ns[n].parentNode.value;
    && p < n
    && v in ns[p].values
    && ns[n].nodetype in ns[p].values[v].subNodes
    && ns[p].values[v].subNodes[ns[n].nodetype] == n
  }

  ghost predicate Stored(ns: seq<WhoisNode>, n: nat)
    requires n < |ns|
  {
    exists v :: StoredAt(ns, n, v)
  }

  ghost predicate Apart(node: WhoisNode, other: WhoisNode) {
    node.nodetype == other.nodetype ==> node.values.Keys !! other.values.Keys
  }

  ghost predicate Distinct(ns: seq<WhoisNode>) {
    forall i, j {:trigger Apart(ns[i], ns[j])} :: 0 <= i < j < |ns| ==> Apart(ns[i], ns[j])
  }

  ghost predicate NonRootOk(ns: seq<WhoisNode>, n: nat)
    requires n < |ns|
  {
    Stored(ns, n) && ns[n].nodetype in FORCED_ITERATION_ORDER && ns[n].values != map[]
  }

  /** Parents and children agree about each other, and no kind of node holds a value twice. */
  ghost predicate Tree(ns: seq<WhoisNode>) {
    && 0 < |ns|
    && ns[0].parentNode == None
    && (forall i {:trigger ChildrenOk(ns, i)} :: 0 <= i < |ns| ==> ChildrenOk(ns, i))
    && (forall i {:trigger ChildrenApart(ns[i])} :: 0 <= i < |ns| ==> ChildrenApart(ns[i]))
    && (forall i {:trigger NonRootOk(ns, i)} :: 0 < i < |ns| ==> NonRootOk(ns, i))
    && Distinct(ns)
  }

  ghost function IdsOf(kind: Kind, vs: set<string>): set<Id> {
    set v | v in vs :: Id(kind, v)
  }

  ghost function Ids(node: WhoisNode): set<Id> {
    IdsOf(node.nodetype, node.values.Keys)
  }

  predicate Holds(node: WhoisNode, p: Id) {
    node.nodetype == p.kind && p.value in node.values
  }

  /** The identifiers the tree holds. */
  ghost function Pairs(ns: seq<WhoisNode>): (pairs: set<Id>) {
    set i, v | 0 <= i < |ns| && v in ns[i].values && Holds(ns[i], Id(ns[i].nodetype, v)) :: Id(ns[i].nodetype, v)
  }

  lemma InPairs(ns: seq<WhoisNode>, p: Id)
    ensures p in Pairs(ns) <==> exists i :: 0 <= i < |ns| && Holds(ns[i], p)
  {
    if i :| 0 <= i < |ns| && Holds(ns[i], p) {
      assert p == Id(ns[i].nodetype, p.value);
    }
  }

  /** Node `n` lies in the subtree of node `a`. */
  ghost predicate Under(ns: seq<WhoisNode>, n: nat, a: nat) {
    n == a || (n < |ns| && ns[n].parentNode.Some? && ns[n].parentNode.value < n && Under(ns, ns[n].parentNode.value, a))
  }

  /** The child of `a` whose subtree holds `n`. */
  ghost function Branch(ns: seq<WhoisNode>, n: nat, a: nat): (c: nat)
    requires Under(ns, n, a) && n != a && n < |ns|
    ensures c <= n && ns[c].parentNode == Some(a) && Under(ns, n, c)
  {
    if ns[n].parentNode.value == a then n else Branch(ns, ns[n].parentNode.value, a)
  }

  /** Some node in the subtree of `a` holds `p`. */
  ghost predicate Below(ns: seq<WhoisNode>, a: nat, p: Id) {
    exists i: nat :: i < |ns| && Under(ns, i, a) && Holds(ns[i], p)
  }

  ghost predicate BelowValue(ns: seq<WhoisNode>, value: WhoisValue, p: Id) {
    exists kind :: kind in value.subNodes && Below(ns, value.subNodes[kind], p)
  }

  lemma {:induction false} UnderRoot(ns: seq<WhoisNode>, n: nat)
    requires Tree(ns) && n < |ns|
    ensures Under(ns, n, 0)
  {
    if n == 0 {
    } else {
      assert NonRootOk(ns, n);
      UnderRoot(ns, ns[n].parentNode.value);
    }
  }

  lemma {:induction false} UnderTransitive(ns: seq<WhoisNode>, n: nat, c: nat, a: nat)
    requires Under(ns, n, c) && Under(ns, c, a)
    ensures Under(ns, n, a)
    decreases n
  {
    if n == c {
    } else {
      UnderTransitive(ns, ns[n].parentNode.value, c, a);
    }
  }

  /** `p` is the value `v` of node `a`, or lies below it. */
  ghost predicate HeldAt(ns: seq<WhoisNode>, a: nat, v: string, p: Id)
    requires a < |ns|
  {
    v in ns[a].values && (p == Id(ns[a].nodetype, v) || BelowValue(ns, ns[a].values[v], p))
  }

  lemma BelowIsHeld(ns: seq<WhoisNode>, a: nat, p: Id) returns (v: string)
    requires Tree(ns) && a < |ns| && Below(ns, a, p)
    ensures HeldAt(ns, a, v, p)
  {
    var i: nat :| i < |ns| && Under(ns, i, a) && Holds(ns[i], p);
    if i == a {
      return p.value;
    }
    var c := Branch(ns, i, a);
    assert NonRootOk(ns, c);
    v :| StoredAt(ns, c, v);
    assert Below(ns, c, p);
  }

  lemma HeldIsBelow(ns: seq<WhoisNode>, a: nat, v: string, p: Id)
    requires Tree(ns) && a < |ns| && HeldAt(ns, a, v, p)
    ensures Below(ns, a, p)
  {
    assert Under(ns, a, a);
    if p == Id(ns[a].nodetype, v) {
      assert Holds(ns[a], p);
    } else {
      var kind :| kind in ns[a].values[v].subNodes && Below(ns, ns[a].values[v].subNodes[kind], p);
      var c := ns[a].values[v].subNodes[kind];
      assert ChildrenOk(ns, a);
      var i: nat :| i < |ns| && Under(ns, i, c) && Holds(ns[i], p);
      UnderTransitive(ns, i, c, a);
    }
  }

  lemma BelowRoot(ns: seq<WhoisNode>, p: Id)
    requires Tree(ns)
    ensures Below(ns, 0, p) <==> p in Pairs(ns)
  {
    InPairs(ns, p);
    if i: nat :| i < |ns| && Holds(ns[i], p) {
      UnderRoot(ns, i);
    }
  }

  /** The tree in which node `n` has the further value `value`. */
  ghost function WithKey(ns: seq<WhoisNode>, n: nat, value: string, ts: int): seq<WhoisNode>
    requires n < |ns|
  {
    ns[n := ns[n].(values := ns[n].values[value := WhoisValue(Some(ts), map[])])]
  }

  /** The tree in which value `v` of node `n` has a child of kind `kind` holding only `value`. */
  ghost function WithChild(ns: seq<WhoisNode>, n: nat, v: string, kind: Kind, value: string, ts: int): seq<WhoisNode>
    requires n < |ns| && v in ns[n].values
  {
    var stored := ns[n].values[v].(subNodes := ns[n].values[v].subNodes[kind := |ns|]);
    ns[n := ns[n].(values := ns[n].values[v := stored])]
    + [WhoisNode(kind, Some(n), map[value := WhoisValue(Some(ts), map[])])]
  }

  /** Node `k`, an old node or one appended to `ns`, received `value`; the other nodes kept theirs. */
  ghost predicate Received(ns: seq<WhoisNode>, ns': seq<WhoisNode>, k: nat, value: string) {
    && k < |ns'|
    && (|ns'| == |ns| || |ns'| == |ns| + 1 == k + 1)
    && (forall i :: 0 <= i < |ns| ==> ns'[i].nodetype == ns[i].nodetype)
    && (forall i :: 0 <= i < |ns| && i != k ==> ns'[i].values.Keys == ns[i].values.Keys)
    && ns'[k].values.Keys == (if k < |ns| then ns[k].values.Keys else {}) + {value}
  }

  lemma PairsAfter(ns: seq<WhoisNode>, ns': seq<WhoisNode>, k: nat, value: string)
    requires Received(ns, ns', k, value)
    ensures Pairs(ns') == Pairs(ns) + {Id(ns'[k].nodetype, value)}
  {
    forall p
      ensures p in Pairs(ns') <==> p in Pairs(ns) || p == Id(ns'[k].nodetype, value)
    {
      InPairs(ns, p);
      InPairs(ns', p);
      if i :| 0 <= i < |ns| && Holds(ns[i], p) {
        assert Holds(ns'[i], p);
      }
      assert Holds(ns'[k], Id(ns'[k].nodetype, value));
      if i :| 0 <= i < |ns'| && Holds(ns'[i], p) && p != Id(ns'[k].nodetype, value) {
        assert Holds(ns[i], p);
      }
    }
  }

  lemma DistinctAfter(ns: seq<WhoisNode>, ns': seq<WhoisNode>, k: nat, value: string)
    requires Distinct(ns) && Received(ns, ns', k, value)
    requires Id(ns'[k].nodetype, value) !in Pairs(ns)
    ensures Distinct(ns')
  {
    InPairs(ns, Id(ns'[k].nodetype, value));
    forall i, j | 0 <= i < j < |ns'|
      ensures Apart(ns'[i], ns'[j])
    {
      assert !Holds(ns[i], Id(ns'[k].nodetype, value));
      if j < |ns| {
        assert Apart(ns[i], ns[j]) && !Holds(ns[j], Id(ns'[k].nodetype, value));
      }
    }
  }

  /** `node'` has everything that `node` has. */
  ghost predicate Extends(node: WhoisNode, node': WhoisNode) {
    && node'.nodetype == node.nodetype
    && node'.parentNode == node.parentNode
    && forall v :: v in node.values ==>
         v in node'.values
         && forall kind :: kind in node.values[v].subNodes ==>
              kind in node'.values[v].subNodes && node'.values[v].subNodes[kind] == node.values[v].subNodes[kind]
  }

  /** A stored child stays stored when nodes only gain values and children. */
  lemma KeepsChild(ns: seq<WhoisNode>, ns': seq<WhoisNode>, i: nat)
    requires 0 < i < |ns| <= |ns'| && NonRootOk(ns, i)
    requires Extends(ns[i], ns'[i]) && Extends(ns[ns[i].parentNode.value], ns'[ns[i].parentNode.value])
    ensures NonRootOk(ns', i)
  {
    var v :| StoredAt(ns, i, v);
    assert StoredAt(ns', i, v);
    var w :| w in ns[i].values;
    assert w in ns'[i].values;
  }

  lemma ChildrenWithKey(ns: seq<WhoisNode>, n: nat, value: string, ts: int, i: nat)
    requires n < |ns| && value !in ns[n].values && i < |ns| && ChildrenOk(ns, i) && ChildrenApart(ns[i])
    ensures var ns' := WithKey(ns, n, value, ts); Extends(ns[i], ns'[i]) && ChildrenOk(ns', i) && ChildrenApart(ns'[i])
  {
  }

  lemma TreeWithKey(ns: seq<WhoisNode>, n: nat, value: string, ts: int)
    requires Tree(ns) && n < |ns|
    requires Id(ns[n].nodetype, value) !in Pairs(ns)
    ensures Tree(WithKey(ns, n, value, ts))
    ensures Pairs(WithKey(ns, n, value, ts)) == Pairs(ns) + {Id(ns[n].nodetype, value)}
  {
    var ns' := WithKey(ns, n, value, ts);
    InPairs(ns, Id(ns[n].nodetype, value));
    assert !Holds(ns[n], Id(ns[n].nodetype, value));
    PairsAfter(ns, ns', n, value);
    DistinctAfter(ns, ns', n, value);
    forall i | 0 <= i < |ns|
      ensures Extends(ns[i], ns'[i]) && ChildrenOk(ns', i) && ChildrenApart(ns'[i])
    {
      assert ChildrenOk(ns, i) && ChildrenApart(ns[i]);
      ChildrenWithKey(ns, n, value, ts, i);
    }
    forall i: nat | 0 < i < |ns|
      ensures NonRootOk(ns', i)
    {
      assert NonRootOk(ns, i);
      KeepsChild(ns, ns', i);
    }
  }

  lemma ChildrenWithChild(ns: seq<WhoisNode>, n: nat, v: string, kind: Kind, value: string, ts: int, i: nat)
    requires n < |ns| && v in ns[n].values && kind !in ns[n].values[v].subNodes
    requires i < |ns| && ChildrenOk(ns, i)
    ensures var ns' := WithChild(ns, n, v, kind, value, ts); Extends(ns[i], ns'[i]) && ChildrenOk(ns', i)
  {
    var ns' := WithChild(ns, n, v, kind, value, ts);
    if i != n {
      assert ns'[i] == ns[i];
    }
  }

  lemma ChildrenApartWithChild(ns: seq<WhoisNode>, n: nat, v: string, kind: Kind, value: string, ts: int, i: nat)
    requires n < |ns| && v in ns[n].values && kind !in ns[n].values[v].subNodes
    requires i < |ns| && ChildrenOk(ns, i) && ChildrenApart(ns[i])
    ensures ChildrenApart(WithChild(ns, n, v, kind, value, ts)[i])
  {
    if i == n {
      var node := ns[n];
      var node' := WithChild(ns, n, v, kind, value, ts)[n];
      forall x, y, k | x in node'.values && y in node'.values && x != y
                       && k in node'.values[x].subNodes && k in node'.values[y].subNodes
        ensures node'.values[x].subNodes[k] != node'.values[y].subNodes[k]
      {
        assert x == v && k == kind ==> node.values[y].subNodes[k] < |ns|;
        assert y == v && k == kind ==> node.values[x].subNodes[k] < |ns|;
      }
    }
  }

  ghost predicate NodeOk(ns: seq<WhoisNode>, i: nat)
    requires i < |ns|
  {
    ChildrenOk(ns, i) && ChildrenApart(ns[i]) && (0 < i ==> NonRootOk(ns, i))
  }

  lemma TreeOfNodes(ns: seq<WhoisNode>)
    requires 0 < |ns| && ns[0].parentNode == None && Distinct(ns)
    requires forall i: nat :: i < |ns| ==> NodeOk(ns, i)
    ensures Tree(ns)
  {
    forall i: nat | i < |ns|
      ensures ChildrenOk(ns, i)
    {
      assert NodeOk(ns, i);
    }
    forall i: nat | i < |ns|
      ensures ChildrenApart(ns[i])
    {
      assert NodeOk(ns, i);
    }
    forall i: nat | 0 < i < |ns|
      ensures NonRootOk(ns, i)
    {
      assert NodeOk(ns, i);
    }
  }

  /** The old nodes keep their places, and their children know them. */
  lemma OldNodeWithChild(ns: seq<WhoisNode>, n: nat, v: string, kind: Kind, value: string, ts: int, i: nat)
    requires Tree(ns) && n < |ns| && v in ns[n].values && kind !in ns[n].values[v].subNodes && i < |ns|
    ensures NodeOk(WithChild(ns, n, v, kind, value, ts), i)
  {
    assert ChildrenOk(ns, i) && ChildrenApart(ns[i]);
    ChildrenWithChild(ns, n, v, kind, value, ts, i);
    ChildrenApartWithChild(ns, n, v, kind, value, ts, i);
    if 0 < i {
      assert NonRootOk(ns, i);
      var parent := ns[i].parentNode.value;
      assert ChildrenOk(ns, parent);
      ChildrenWithChild(ns, n, v, kind, value, ts, parent);
      KeepsChild(ns, WithChild(ns, n, v, kind, value, ts), i);
    }
  }

  lemma NewNodeWithChild(ns: seq<WhoisNode>, n: nat, v: string, kind: Kind, value: string, ts: int)
    requires n < |ns| && v in ns[n].values && kind in FORCED_ITERATION_ORDER
    ensures NodeOk(WithChild(ns, n, v, kind, value, ts), |ns|)
  {
    var ns' := WithChild(ns, n, v, kind, value, ts);
    assert StoredAt(ns', |ns|, v);
    assert value in ns'[|ns|].values;
  }

  lemma TreeWithChild(ns: seq<WhoisNode>, n: nat, v: string, kind: Kind, value: string, ts: int)
    requires Tree(ns) && n < |ns| && v in ns[n].values && kind !in ns[n].values[v].subNodes
    requires kind in FORCED_ITERATION_ORDER
    requires Id(kind, value) !in Pairs(ns)
    ensures Tree(WithChild(ns, n, v, kind, value, ts))
    ensures Pairs(WithChild(ns, n, v, kind, value, ts)) == Pairs(ns) + {Id(kind, value)}
  {
    var ns' := WithChild(ns, n, v, kind, value, ts);
    PairsAfter(ns, ns', |ns|, value);
    DistinctAfter(ns, ns', |ns|, value);
    NewNodeWithChild(ns, n, v, kind, value, ts);
    forall i: nat | i < |ns'|
      ensures NodeOk(ns', i)
    {
      if i < |ns| {
        OldNodeWithChild(ns, n, v, kind, value, ts, i);
      }
    }
    TreeOfNodes(ns');
  }
}
