/** Which times `whois` shows, and when they are the latest ones of the store (translate/whois.go). */
module ShownTimes {
  import opened Options
  import opened TranslationData
  import opened WhoisAnswers
  import opened WhoisGraph
  import opened WhoisOffers
  import opened WhoisReads
  import opened WhoisTimes
  import opened WhoisTree

  lemma HeardInAnswer(db: Db, offers: seq<Offer>, held: set<Id>, p: Id, q: Id)
    requires AllTold(db, [], offers, held)
    ensures Heard(offers, p, q) == if p in held then Between(db, p, q) else []
  {
    assert Heard(offers, p, q) == Heard([], p, q) + if p in held then Between(db, p, q) else [];
  }

  /** What hangs below an identifier is shown with the time of the first record between the two. */
  lemma ShownSinceFirst(db: Db, start: Id, ns: seq<WhoisNode>, offers: seq<Offer>, p: Id, from: Id)
    requires Answers(db, start, ns, offers) && p in Pairs(ns) && p != start && HangsBelow(ns, p, from)
    ensures from in Pairs(ns) && Between(db, from, p) != [] && Times(ns)[p] == Some(Between(db, from, p)[0])
  {
    var i := ShownByFirst(ns, start, offers, p);
    BuiltTimes(ns, start, offers);
    HangsOnce(ns, p, from, offers[i].from);
    FirstHeard(offers, i, from, p);
    HeardInAnswer(db, offers, Pairs(ns), from, p);
  }

  lemma HangsSomewhere(db: Db, start: Id, ns: seq<WhoisNode>, offers: seq<Offer>, p: Id) returns (from: Id)
    requires Answers(db, start, ns, offers) && p in Pairs(ns) && p != start
    ensures HangsBelow(ns, p, from)
  {
    var i := ShownByFirst(ns, start, offers, p);
    from := offers[i].from;
  }

  ghost predicate AllLinked(db: Db, offers: seq<Offer>) {
    forall i :: 0 <= i < |offers| ==> Linked(db, offers[i].from, offers[i].p)
  }

  lemma ReachableOnce(db: Db, start: Id, held: set<Id>, last: Offer, p: Id)
    requires last.from in held && p in held + {last.p} && Linked(db, last.from, last.p)
    requires AllReachable(db, start, held)
    ensures Reachable(db, start, p)
  {
    if p !in held {
      ReachableStep(db, start, last.from, p);
    }
  }

  lemma {:induction false} BuiltIsReachable(db: Db, ns: seq<WhoisNode>, start: Id, offers: seq<Offer>)
    requires BuiltBy(ns, start, offers) && AllLinked(db, offers)
    ensures AllReachable(db, start, Pairs(ns))
    decreases |offers|
  {
    if offers == [] {
      RootIsTree(start);
      ReachableStart(db, start);
    } else {
      var front, last := offers[..|offers| - 1], offers[|offers| - 1];
      assert AllLinked(db, front) && Linked(db, last.from, last.p);
      var prev := BeforeLast(ns, start, offers);
      BuiltIsReachable(db, prev, start, front);
      HeldAfterOffer(prev, ns, last);
      forall p | p in Pairs(ns)
        ensures Reachable(db, start, p)
      {
        ReachableOnce(db, start, Pairs(prev), last, p);
      }
    }
  }

  /** What the tree holds is what the store makes reachable. */
  lemma HeldIsReachable(db: Db, start: Id, ns: seq<WhoisNode>, offers: seq<Offer>, p: Id)
    requires Answers(db, start, ns, offers)
    ensures p in Pairs(ns) <==> Reachable(db, start, p)
  {
    if Reachable(db, start, p) {
      HoldsReachable(db, start, ns, offers, p);
    }
    forall i | 0 <= i < |offers|
      ensures Linked(db, offers[i].from, offers[i].p)
    {
      OfferedIsRecorded(db, offers, Pairs(ns), offers[i].from, offers[i].p, offers[i].ts);
      LinkedIsRecorded(db, offers[i].from, offers[i].p);
    }
    BuiltIsReachable(db, ns, start, offers);
  }

  /** A record with the time `t` leads to `p` from something reachable. */
  ghost predicate Leads(db: Db, start: Id, p: Id, t: int) {
    exists from :: Reachable(db, start, from) && t in Between(db, from, p)
  }

  /** The latest time at which the store mentions `p` together with something reachable. */
  ghost predicate Latest(db: Db, start: Id, p: Id, t: int) {
    Leads(db, start, p, t) && forall u :: Leads(db, start, p, u) ==> u <= t
  }

  lemma LeadsIsOffered(db: Db, start: Id, ns: seq<WhoisNode>, offers: seq<Offer>, p: Id, t: int)
    requires Answers(db, start, ns, offers)
    ensures Leads(db, start, p, t) <==> exists i :: 0 <= i < |offers| && offers[i].p == p && offers[i].ts == t
  {
    if Leads(db, start, p, t) {
      var from :| Reachable(db, start, from) && t in Between(db, from, p);
      HeldIsReachable(db, start, ns, offers, from);
      OfferedIsRecorded(db, offers, Pairs(ns), from, p, t);
      var i :| 0 <= i < |offers| && offers[i] == Offer(from, p, t);
    }
    if i :| 0 <= i < |offers| && offers[i].p == p && offers[i].ts == t {
      var from := offers[i].from;
      assert Offer(from, p, t) in offers;
      OfferedIsRecorded(db, offers, Pairs(ns), from, p, t);
      HeldIsReachable(db, start, ns, offers, from);
    }
  }

  /** `t` is the greatest time at which `p` was offered. */
  ghost predicate GreatestOffer(offers: seq<Offer>, p: Id, t: int) {
    && (exists i :: 0 <= i < |offers| && offers[i].p == p && offers[i].ts == t)
    && (forall i :: 0 <= i < |offers| && offers[i].p == p ==> offers[i].ts <= t)
  }

  lemma GreatestMore(front: seq<Offer>, last: Offer, p: Id, t: int)
    requires GreatestOffer(front, p, t)
    ensures GreatestOffer(front + [last], p, if last.p == p && t < last.ts then last.ts else t)
  {
    var offers := front + [last];
    var i :| 0 <= i < |front| && front[i].p == p && front[i].ts == t;
    assert offers[i] == front[i] && offers[|front|] == last;
  }

  ghost predicate NeverOffered(offers: seq<Offer>, p: Id) {
    forall i :: 0 <= i < |offers| ==> offers[i].p != p
  }

  lemma GreatestFirst(front: seq<Offer>, last: Offer)
    requires NeverOffered(front, last.p)
    ensures GreatestOffer(front + [last], last.p, last.ts)
  {
    assert (front + [last])[|front|] == last;
  }

  /** What addKey writes to its copies adds up to the greatest times. */
  lemma {:induction false} RaisedIsGreatest(times: Shown, offers: seq<Offer>, p: Id)
    requires p !in times
    ensures var raised := RaisedAll(times, offers);
            if p in raised then raised[p].Some? && GreatestOffer(offers, p, raised[p].value)
              else NeverOffered(offers, p)
  {
    if offers == [] {
    } else {
      var front, last := offers[..|offers| - 1], offers[|offers| - 1];
      assert offers == front + [last];
      RaisedIsGreatest(times, front, p);
      var raised := RaisedAll(times, front);
      if p in raised {
        GreatestMore(front, last, p, raised[p].value);
      } else if last.p == p {
        GreatestFirst(front, last);
      }
    }
  }

  lemma {:induction false} StartHasNoTime(start: Id, offers: seq<Offer>)
    ensures var raised := RaisedAll(AtStart(start), offers); start in raised && raised[start] == None
  {
    if offers == [] {
    } else {
      StartHasNoTime(start, offers[..|offers| - 1]);
    }
  }

  /** The times that addKey meant to show are the latest of the store. */
  lemma RaisedIsLatest(db: Db, start: Id, ns: seq<WhoisNode>, offers: seq<Offer>, p: Id)
    requires Answers(db, start, ns, offers) && p in Pairs(ns) && p != start
    ensures var raised := RaisedAll(AtStart(start), offers);
            p in raised && raised[p].Some? && Latest(db, start, p, raised[p].value)
  {
    var i := ShownByFirst(ns, start, offers, p);
    RaisedIsGreatest(AtStart(start), offers, p);
    var t := RaisedAll(AtStart(start), offers)[p].value;
    LeadsIsOffered(db, start, ns, offers, p, t);
    forall u | Leads(db, start, p, u)
      ensures u <= t
    {
      LeadsIsOffered(db, start, ns, offers, p, u);
    }
  }

  /** `p` is shown with its latest time. */
  ghost predicate ShownLatest(db: Db, start: Id, ns: seq<WhoisNode>, p: Id)
    requires p in Pairs(ns)
  {
    Times(ns)[p].Some? && Latest(db, start, p, Times(ns)[p].value)
  }

  lemma OneLatest(db: Db, start: Id, ns: seq<WhoisNode>, offers: seq<Offer>, p: Id)
    requires Answers(db, start, ns, offers) && p in Pairs(ns) && p != start
    ensures var raised := RaisedAll(AtStart(start), offers);
            p in raised && (Times(ns)[p] == raised[p] <==> ShownLatest(db, start, ns, p))
  {
    RaisedIsLatest(db, start, ns, offers, p);
  }

  lemma {:induction false} StartIsShownWithout(start: Id, offers: seq<Offer>)
    ensures var shown := OfferedAll(AtStart(start), offers); start in shown && shown[start] == None
  {
    if offers == [] {
    } else {
      StartIsShownWithout(start, offers[..|offers| - 1]);
    }
  }

  ghost predicate AllLatest(db: Db, start: Id, ns: seq<WhoisNode>) {
    forall p :: p in Pairs(ns) && p != start ==> ShownLatest(db, start, ns, p)
  }

  lemma EqualTimes(shown: Shown, raised: Shown)
    requires shown.Keys == raised.Keys && forall p :: p in shown ==> shown[p] == raised[p]
    ensures shown == raised
  {
  }

  lemma LatestIsRaised(db: Db, start: Id, ns: seq<WhoisNode>, offers: seq<Offer>)
    requires Answers(db, start, ns, offers)
    ensures Times(ns) == RaisedAll(AtStart(start), offers) <==> AllLatest(db, start, ns)
  {
    var raised := RaisedAll(AtStart(start), offers);
    BuiltTimes(ns, start, offers);
    ShownIsLatestExactly(AtStart(start), offers);
    if Times(ns) == raised {
      forall p | p in Pairs(ns) && p != start
        ensures ShownLatest(db, start, ns, p)
      {
        OneLatest(db, start, ns, offers, p);
      }
    }
    if AllLatest(db, start, ns) {
      StartHasNoTime(start, offers);
      StartIsShownWithout(start, offers);
      forall p | p in Pairs(ns)
        ensures Times(ns)[p] == raised[p]
      {
        if p != start {
          OneLatest(db, start, ns, offers, p);
        }
      }
      EqualTimes(Times(ns), raised);
    }
  }

  /** Every time shown is the latest of the store exactly if no record came late. */
  lemma AllLatestExactly(db: Db, start: Id, ns: seq<WhoisNode>, offers: seq<Offer>)
    requires Answers(db, start, ns, offers)
    ensures AllLatest(db, start, ns) <==> NoneLate(AtStart(start), offers)
  {
    LatestIsRaised(db, start, ns, offers);
    BuiltTimes(ns, start, offers);
    ShownIsLatestExactly(AtStart(start), offers);
  }

  /** What hangs below an identifier is shown with its latest time exactly if the first record between the
      two is the latest that leads to it. */
  lemma LatestBelowExactly(db: Db, start: Id, ns: seq<WhoisNode>, offers: seq<Offer>, p: Id, from: Id)
    requires Answers(db, start, ns, offers) && p in Pairs(ns) && p != start && HangsBelow(ns, p, from)
    ensures Between(db, from, p) != []
    ensures ShownLatest(db, start, ns, p) <==> Latest(db, start, p, Between(db, from, p)[0])
  {
    ShownSinceFirst(db, start, ns, offers, p, from);
  }

  /** The first record between `p` and anything reachable has the time `t`. */
  ghost predicate FirstTimesAre(db: Db, start: Id, p: Id, t: int) {
    forall from :: Reachable(db, start, from) && Linked(db, from, p) ==>
      Between(db, from, p) != [] && Between(db, from, p)[0] == t
  }

  /** Where all first records agree, the time shown is known beforehand, for every order of the maps. */
  lemma LatestWhereFirstsAgree(db: Db, start: Id, ns: seq<WhoisNode>, offers: seq<Offer>, p: Id, t: int)
    requires Answers(db, start, ns, offers) && p in Pairs(ns) && p != start && FirstTimesAre(db, start, p, t)
    ensures Times(ns)[p] == Some(t)
    ensures ShownLatest(db, start, ns, p) <==> Latest(db, start, p, t)
  {
    var from := HangsSomewhere(db, start, ns, offers, p);
    ShownSinceFirst(db, start, ns, offers, p, from);
    HeldIsReachable(db, start, ns, offers, from);
    LinkedIsRecorded(db, from, p);
  }

  /** Where all records that lead to an identifier carry one time, this is the latest, and it is shown. */
  lemma OneTimeIsLatest(db: Db, start: Id, ns: seq<WhoisNode>, offers: seq<Offer>, p: Id, t: int)
    requires Answers(db, start, ns, offers) && p in Pairs(ns) && p != start
    requires forall u :: Leads(db, start, p, u) ==> u == t
    ensures Times(ns)[p] == Some(t) && ShownLatest(db, start, ns, p)
  {
    var from := HangsSomewhere(db, start, ns, offers, p);
    ShownSinceFirst(db, start, ns, offers, p, from);
    HeldIsReachable(db, start, ns, offers, from);
    assert Leads(db, start, p, Between(db, from, p)[0]);
  }

  lemma StartComesFirst(start: Id, offers: seq<Offer>, i: nat, offer: Offer)
    requires StartFirst(start, offers) && IsFirst(offers, i) && offer in offers
    requires offer.from == start && offer.p == offers[i].p
    ensures offers[i].from == start
  {
    var j :| 0 <= j < |offers| && offers[j] == offer;
    if j < i {
      assert false;
    }
  }

  lemma HangsBelowStart(db: Db, start: Id, ns: seq<WhoisNode>, offers: seq<Offer>, p: Id)
    requires Answers(db, start, ns, offers) && start in Pairs(ns) && p in Pairs(ns) && p != start
    requires Between(db, start, p) != []
    ensures HangsBelow(ns, p, start)
  {
    var i := ShownByFirst(ns, start, offers, p);
    var ts := Between(db, start, p)[0];
    OfferedIsRecorded(db, offers, Pairs(ns), start, p, ts);
    StartComesFirst(start, offers, i, Offer(start, p, ts));
  }

  /** What the start itself leads to hangs below it, so it is shown with its latest time exactly if the first
      record between the two is the latest. */
  lemma LatestBelowStart(db: Db, start: Id, ns: seq<WhoisNode>, offers: seq<Offer>, p: Id)
    requires Answers(db, start, ns, offers) && Linked(db, start, p) && p != start
    ensures p in Pairs(ns) && HangsBelow(ns, p, start)
    ensures Between(db, start, p) != [] && Times(ns)[p] == Some(Between(db, start, p)[0])
    ensures ShownLatest(db, start, ns, p) <==> Latest(db, start, p, Between(db, start, p)[0])
  {
    LinkedIsRecorded(db, start, p);
    OfferedIsHeld(ns, start, offers);
    HoldsLinks(db, start, ns, offers, start, p);
    HangsBelowStart(db, start, ns, offers, p);
    ShownSinceFirst(db, start, ns, offers, p, start);
  }

  /** A node that called itself n, then m, then n again. */
  const RENAMED := Db(map[], map["u" := [Unit("n", 1), Unit("m", 2), Unit("n", 5)]], map[], map[])

  /** Whatever the order of the maps, `whois` shows n since 1, though the store has it at 5. */
  lemma LatestIsMissed(ns: seq<WhoisNode>, offers: seq<Offer>)
    requires Answers(RENAMED, Id(Uuid, "u"), ns, offers)
    ensures Id(NodeName, "n") in Pairs(ns) && Times(ns)[Id(NodeName, "n")] == Some(1)
    ensures Leads(RENAMED, Id(Uuid, "u"), Id(NodeName, "n"), 5)
    ensures !ShownLatest(RENAMED, Id(Uuid, "u"), ns, Id(NodeName, "n"))
  {
    var start, p, units := Id(Uuid, "u"), Id(NodeName, "n"), [Unit("n", 1), Unit("m", 2), Unit("n", 5)];
    assert units[..2] == [Unit("n", 1), Unit("m", 2)] && units[..2][..1] == [Unit("n", 1)];
    assert units[..1] == [Unit("n", 1)] && units[..1][..0] == [];
    assert TimesOf(units[..1], "n") == [1];
    assert TimesOf(units[..2], "n") == [1];
    assert TimesOf(units, "n") == [1, 5];
    assert Between(RENAMED, start, p) == [1, 5];
    LinkedIsRecorded(RENAMED, start, p);
    LatestBelowStart(RENAMED, start, ns, offers, p);
    ReachableStart(RENAMED, start);
    assert 5 in Between(RENAMED, start, p);
  }
}
