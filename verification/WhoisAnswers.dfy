/** What `whois` answers: a tree, and the records that it was built from (translate/whois.go, Whois). */
module WhoisAnswers {
  import opened Options
  import opened TranslationData
  import opened WhoisGraph
  import opened WhoisOffers
  import opened WhoisReads
  import opened WhoisTimes
  import opened WhoisTree

  /** The records of the start come before all others. */
  ghost predicate StartFirst(start: Id, offers: seq<Offer>) {
    forall i, j :: 0 <= i < j < |offers| && offers[j].from == start ==> offers[i].from == start
  }

  /** The tree is built from exactly the records of what it holds, each once and those between two
      identifiers in order; those of the start come first. */
  ghost predicate Answers(db: Db, start: Id, ns: seq<WhoisNode>, offers: seq<Offer>) {
    BuiltBy(ns, start, offers) && AllTold(db, [], offers, Pairs(ns)) && StartFirst(start, offers)
  }

  lemma OfferedIsRecorded(db: Db, offers: seq<Offer>, held: set<Id>, p: Id, q: Id, ts: int)
    requires AllTold(db, [], offers, held)
    ensures Offer(p, q, ts) in offers <==> p in held && ts in Between(db, p, q)
  {
    HeardIsOffered(offers, p, q, ts);
    assert Heard(offers, p, q) == Heard([], p, q) + if p in held then Between(db, p, q) else [];
  }

  lemma StartIsFirst(db: Db, start: Id, first: seq<Offer>, offers: seq<Offer>, held: set<Id>)
    requires first <= offers && start in held && AllTold(db, [], first, {start}) && AllTold(db, [], offers, held)
    ensures StartFirst(start, offers)
  {
    forall i | 0 <= i < |first|
      ensures offers[i].from == start
    {
      OfferedIsRecorded(db, first, {start}, first[i].from, first[i].p, first[i].ts);
    }
    var rest := offers[|first|..];
    forall j | |first| <= j < |offers|
      ensures offers[j].from != start
    {
      var q, ts := offers[j].p, offers[j].ts;
      assert offers == first + rest && offers[j] == rest[j - |first|];
      HeardConcat(first, rest, start, q);
      HeardIsOffered(rest, start, q, ts);
      assert Heard(first, start, q) == Heard([], start, q) + Between(db, start, q);
      assert Heard(offers, start, q) == Heard([], start, q) + Between(db, start, q);
    }
  }

  lemma HoldsLinks(db: Db, start: Id, ns: seq<WhoisNode>, offers: seq<Offer>, p: Id, q: Id)
    requires Answers(db, start, ns, offers) && p in Pairs(ns) && Linked(db, p, q)
    ensures q in Pairs(ns)
  {
    LinkedIsRecorded(db, p, q);
    var ts := Between(db, p, q)[0];
    OfferedIsRecorded(db, offers, Pairs(ns), p, q, ts);
    OfferedIsHeld(ns, start, offers);
    var i :| 0 <= i < |offers| && offers[i] == Offer(p, q, ts);
  }

  lemma HoldsReachable(db: Db, start: Id, ns: seq<WhoisNode>, offers: seq<Offer>, p: Id)
    requires Answers(db, start, ns, offers) && Reachable(db, start, p)
    ensures p in Pairs(ns)
  {
    OfferedIsHeld(ns, start, offers);
    forall a, b | a in Pairs(ns) && Linked(db, a, b)
      ensures b in Pairs(ns)
    {
      HoldsLinks(db, start, ns, offers, a, b);
    }
    ClosedSetHoldsReachable(db, start, p, Pairs(ns));
  }
}
