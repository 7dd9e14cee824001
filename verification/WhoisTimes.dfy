/** The times that an identity tree shows (translate/whois.go, addKey), and what they miss. */
module WhoisTimes {
  import opened Options
  import opened WhoisGraph
  import opened WhoisTree

  /** The node that holds the identifier. */
  ghost function NodeOf(ns: seq<WhoisNode>, p: Id): (i: nat)
    requires p in Pairs(ns)
    ensures i < |ns| && Holds(ns[i], p)
  {
    InPairs(ns, p);
    var i :| 0 <= i < |ns| && Holds(ns[i], p);
    i
  }

  type Shown = map<Id, Option<int>>

  /** The time that the tree shows for each identifier; the one the search started from has none. */
  ghost function Times(ns: seq<WhoisNode>): (times: Shown)
    ensures times.Keys == Pairs(ns)
  {
    map p | p in Pairs(ns) :: ns[NodeOf(ns, p)].values[p.value].timestamp
  }

  lemma TimeAt(ns: seq<WhoisNode>, i: nat, p: Id)
    requires Distinct(ns) && i < |ns| && Holds(ns[i], p)
    ensures p in Pairs(ns) && Times(ns)[p] == ns[i].values[p.value].timestamp
  {
    InPairs(ns, p);
    var j := NodeOf(ns, p);
    assert i < j ==> Apart(ns[i], ns[j]);
    assert j < i ==> Apart(ns[j], ns[i]);
  }

  /** What addKey does with the time of an identifier: only the first time counts. */
  function Offered(times: Shown, p: Id, ts: int): Shown {
    if p in times then times else times[p := Some(ts)]
  }

  /** What it writes to the copy of a value that it found: a later time replaces the one that is shown. */
  function Raised(times: Shown, p: Id, ts: int): Shown {
    if p in times && !(times[p].Some? && times[p].value < ts) then times else times[p := Some(ts)]
  }

  /** A new value leaves every other value, and its time, as it was. */
  ghost predicate KeepsValues(ns: seq<WhoisNode>, ns': seq<WhoisNode>) {
    |ns| <= |ns'| && forall i, v :: 0 <= i < |ns| && v in ns[i].values ==>
      ns'[i].nodetype == ns[i].nodetype && v in ns'[i].values && ns'[i].values[v].timestamp == ns[i].values[v].timestamp
  }

  lemma OneTimeMore(before: Shown, after: Shown, p: Id, ts: int)
    requires p !in before && after.Keys == before.Keys + {p} && after[p] == Some(ts)
    requires forall q :: q in before ==> after[q] == before[q]
    ensures after == Offered(before, p, ts)
  {
  }

  lemma KeepsTime(ns: seq<WhoisNode>, ns': seq<WhoisNode>, q: Id)
    requires Distinct(ns) && Distinct(ns') && KeepsValues(ns, ns') && q in Pairs(ns)
    ensures q in Pairs(ns') && Times(ns')[q] == Times(ns)[q]
  {
    var i := NodeOf(ns, q);
    TimeAt(ns, i, q);
    TimeAt(ns', i, q);
  }

  lemma KeepsTimes(ns: seq<WhoisNode>, ns': seq<WhoisNode>)
    requires Distinct(ns) && Distinct(ns') && KeepsValues(ns, ns')
    ensures forall q :: q in Pairs(ns) ==> q in Pairs(ns') && Times(ns')[q] == Times(ns)[q]
  {
    forall q | q in Pairs(ns) ensures q in Pairs(ns') && Times(ns')[q] == Times(ns)[q] {
      KeepsTime(ns, ns', q);
    }
  }

  lemma TimesAfter(ns: seq<WhoisNode>, ns': seq<WhoisNode>, k: nat, p: Id, ts: int)
    requires Distinct(ns) && Distinct(ns') && KeepsValues(ns, ns') && p !in Pairs(ns)
    requires Pairs(ns') == Pairs(ns) + {p}
    requires k < |ns'| && Holds(ns'[k], p) && ns'[k].values[p.value].timestamp == Some(ts)
    ensures Times(ns') == Offered(Times(ns), p, ts)
  {
    TimeAt(ns', k, p);
    KeepsTimes(ns, ns');
    OneTimeMore(Times(ns), Times(ns'), p, ts);
  }

  lemma TimesWithKey(ns: seq<WhoisNode>, n: nat, value: string, ts: int)
    requires Tree(ns) && n < |ns| && Id(ns[n].nodetype, value) !in Pairs(ns)
    ensures Times(WithKey(ns, n, value, ts)) == Offered(Times(ns), Id(ns[n].nodetype, value), ts)
  {
    var p := Id(ns[n].nodetype, value);
    InPairs(ns, p);
    assert !Holds(ns[n], p);
    TreeWithKey(ns, n, value, ts);
    TimesAfter(ns, WithKey(ns, n, value, ts), n, p, ts);
  }

  lemma TimesWithChild(ns: seq<WhoisNode>, n: nat, v: string, kind: Kind, value: string, ts: int)
    requires Tree(ns) && n < |ns| && v in ns[n].values && kind !in ns[n].values[v].subNodes
    requires kind in FORCED_ITERATION_ORDER && Id(kind, value) !in Pairs(ns)
    ensures Times(WithChild(ns, n, v, kind, value, ts)) == Offered(Times(ns), Id(kind, value), ts)
  {
    TreeWithChild(ns, n, v, kind, value, ts);
    TimesAfter(ns, WithChild(ns, n, v, kind, value, ts), |ns|, Id(kind, value), ts);
  }

  /** The tree after `value` was offered to value `v` of node `n`: unless the tree holds it, it comes into
      the child of its kind, a new one if there is none. */
  ghost function WithOffer(ns: seq<WhoisNode>, n: nat, v: string, kind: Kind, value: string, ts: int): seq<WhoisNode>
    requires Tree(ns) && n < |ns| && v in ns[n].values
  {
    assert ChildrenOk(ns, n);
    if Id(kind, value) in Pairs(ns) then ns
    else if kind in ns[n].values[v].subNodes then WithKey(ns, ns[n].values[v].subNodes[kind], value, ts)
    else WithChild(ns, n, v, kind, value, ts)
  }

  /** An offer leaves all times as they were; a new value gets the time offered. */
  lemma TimesWithOffer(ns: seq<WhoisNode>, n: nat, v: string, kind: Kind, value: string, ts: int)
    requires Tree(ns) && n < |ns| && v in ns[n].values && kind in FORCED_ITERATION_ORDER
    ensures Times(WithOffer(ns, n, v, kind, value, ts)) == Offered(Times(ns), Id(kind, value), ts)
  {
    assert ChildrenOk(ns, n);
    if Id(kind, value) in Pairs(ns) {
    } else if kind in ns[n].values[v].subNodes {
      TimesWithKey(ns, ns[n].values[v].subNodes[kind], value, ts);
    } else {
      TimesWithChild(ns, n, v, kind, value, ts);
    }
  }

  /** A record that was read from the identifier `from` and leads to `p`. */
  datatype Offer = Offer(from: Id, p: Id, ts: int)

  function OfferedAll(times: Shown, offers: seq<Offer>): Shown {
    if offers == [] then times
    else Offered(OfferedAll(times, offers[..|offers| - 1]), offers[|offers| - 1].p, offers[|offers| - 1].ts)
  }

  function RaisedAll(times: Shown, offers: seq<Offer>): Shown {
    if offers == [] then times
    else Raised(RaisedAll(times, offers[..|offers| - 1]), offers[|offers| - 1].p, offers[|offers| - 1].ts)
  }

  /** The identifier is held with a time, and offered with a later one. */
  predicate IsLate(times: Shown, p: Id, ts: int) {
    p in times && times[p].Some? && times[p].value < ts
  }

  /** One more offer makes a difference exactly if its identifier is held with an earlier time. */
  lemma LaterTimeIsLost(times: Shown, p: Id, ts: int)
    ensures Offered(times, p, ts) != Raised(times, p, ts) <==> IsLate(times, p, ts)
  {
    if IsLate(times, p, ts) {
      assert Offered(times, p, ts)[p] != Raised(times, p, ts)[p];
    }
  }

  /** The same time, or a later one where there is one. */
  predicate NoEarlier(a: Option<int>, b: Option<int>) {
    if b.Some? then a.Some? && b.value <= a.value else a == b
  }

  ghost predicate Follows(shown: Shown, latest: Shown) {
    shown.Keys == latest.Keys && forall p :: p in shown ==> NoEarlier(latest[p], shown[p])
  }

  lemma OfferStep(shown: Shown, latest: Shown, p: Id, ts: int)
    requires Follows(shown, latest)
    ensures Follows(Offered(shown, p, ts), Raised(latest, p, ts))
    ensures Offered(shown, p, ts) == Raised(latest, p, ts) <==> shown == latest && !IsLate(shown, p, ts)
  {
    LaterTimeIsLost(shown, p, ts);
    if shown != latest {
      var q :| q in shown && shown[q] != latest[q];
      assert NoEarlier(latest[q], shown[q]);
      assert Offered(shown, p, ts)[q] != Raised(latest, p, ts)[q];
    }
  }

  /** When the `i`-th offer comes, its identifier is held with an earlier time. */
  predicate LateAt(times: Shown, offers: seq<Offer>, i: nat)
    requires i < |offers|
  {
    IsLate(OfferedAll(times, offers[..i]), offers[i].p, offers[i].ts)
  }

  /** No identifier that was held with a time was offered again with a later one. */
  predicate NoneLate(times: Shown, offers: seq<Offer>) {
    forall i {:trigger LateAt(times, offers, i)} :: 0 <= i < |offers| ==> !LateAt(times, offers, i)
  }

  lemma LateInFront(times: Shown, offers: seq<Offer>, i: nat)
    requires i < |offers| - 1
    ensures LateAt(times, offers[..|offers| - 1], i) <==> LateAt(times, offers, i)
  {
    assert offers[..|offers| - 1][..i] == offers[..i];
  }

  lemma NoneLateNext(times: Shown, offers: seq<Offer>)
    requires offers != []
    ensures NoneLate(times, offers) <==>
      var front, last := offers[..|offers| - 1], offers[|offers| - 1];
      NoneLate(times, front) && !IsLate(OfferedAll(times, front), last.p, last.ts)
  {
    var n := |offers| - 1;
    assert LateAt(times, offers, n) <==> IsLate(OfferedAll(times, offers[..n]), offers[n].p, offers[n].ts);
    forall i: nat | i < n ensures LateAt(times, offers[..n], i) <==> LateAt(times, offers, i) {
      LateInFront(times, offers, i);
    }
  }

  /** Over any list of offers, the times shown are the latest ones offered exactly if no identifier that was
      held with a time was offered again with a later one. */
  lemma {:induction false} ShownIsLatestExactly(times: Shown, offers: seq<Offer>)
    ensures OfferedAll(times, offers) == RaisedAll(times, offers) <==> NoneLate(times, offers)
    ensures Follows(OfferedAll(times, offers), RaisedAll(times, offers))
  {
    if offers == [] {
    } else {
      var front, last := offers[..|offers| - 1], offers[|offers| - 1];
      ShownIsLatestExactly(times, front);
      NoneLateNext(times, offers);
      OfferStep(OfferedAll(times, front), RaisedAll(times, front), last.p, last.ts);
    }
  }
}
