/** Which profiled queries share a fingerprint (mongolib, fingerprinter.go, Fingerprint): those that differ
    only in the order of fields and in their leaves. */
module CanonicalFingerprint {
  import opened Options
  import opened DocumentKeys
  import opened DocumentPaths
  import opened KeyList
  import opened Fingerprint

  // ---- queries that cannot be told apart by their paths

  /** The fields of the body that are turned into maps. */
  const SELECTED := {"q", "query", "filter", "group"}

  predicate NoRepeatedNames(v: Value) {
    v.D? ==> DistinctNames(v.elems)
  }

  ghost predicate Alike(x: Value, y: Value) {
    SamePaths(x, y) && (x.D? <==> y.D?) && (x.M? <==> y.M?)
  }

  ghost predicate AlikeMaps(a: Fields, b: Fields) {
    && a.Keys == b.Keys
    && (forall k :: k in a ==> Alike(a[k], b[k]))
    && (forall k :: k in a && k in SELECTED ==> NoRepeatedNames(a[k]) && NoRepeatedNames(b[k]))
  }

  /** The name that a command reads out of a leaf: distinct its key, group its collection. */
  function LeafRead(doc: Profile): Option<string> {
    var body := MapOf(Body(doc));
    match ListingOf(doc)
    case DistinctKeys => if "key" in body then AsText(body["key"]) else None
    case GroupKeys =>
      var group := GroupOf(doc);
      if group.Some? && "ns" in group.value then AsText(group.value["ns"]) else None
    case QueryKeys => None
    case NoKeys => None
    case PipelineKeys => None
  }

  /** The same operation on the same collection. */
  predicate SameTarget(d: Profile, e: Profile) {
    && d.op == e.op && d.ns == e.ns
    && |d.query| == |e.query| && |d.command| == |e.command|
    && (d.op == "command" && Body(d) != [] ==>
          Body(d)[0].key == Body(e)[0].key && AsText(Body(d)[0].value) == AsText(Body(e)[0].value))
    && LeafRead(d) == LeafRead(e)
  }

  ghost predicate SameQuery(d: Profile, e: Profile) {
    SameTarget(d, e) && AlikeMaps(MapOf(d.query), MapOf(e.query)) && AlikeMaps(MapOf(d.command), MapOf(e.command))
  }

  lemma MapFieldPath(m: Fields, k: string, path: seq<Hop>)
    ensures HasPath(M(Doc(m)), [MapField(k)] + path) <==> k in m && HasPath(m[k], path)
  {
    assert ([MapField(k)] + path)[1..] == path;
    assert DocHasPath(Doc(m), k, path) <==> k in m && HasPath(m[k], path);
  }

  lemma SamePathsSameFields(a: Fields, b: Fields)
    requires SamePaths(M(Doc(a)), M(Doc(b)))
    ensures SameFields(a, b)
  {
    forall k ensures k in a <==> k in b {
      MapFieldPath(a, k, []);
      MapFieldPath(b, k, []);
    }
    forall k, path | k in a ensures HasPath(a[k], path) <==> HasPath(b[k], path) {
      MapFieldPath(a, k, path);
      MapFieldPath(b, k, path);
    }
  }

  ghost predicate SameResult(x: Option<Fields>, y: Option<Fields>) {
    (x.None? <==> y.None?) && (x.Some? ==> SameFields(x.value, y.value))
  }

  lemma AlikeAsMap(x: Value, y: Value)
    requires Alike(x, y) && NoRepeatedNames(x) && NoRepeatedNames(y)
    ensures SameResult(AsMap(x), AsMap(y))
  {
    if x.D? {
      MapKeepsPaths(x.elems, y.elems);
    } else if x.M? {
      SamePathsSameFields(x.doc.fields, y.doc.fields);
    }
  }

  lemma AlikeNamed(a: Fields, b: Fields, name: string)
    requires AlikeMaps(a, b) && name in SELECTED
    ensures name in a <==> name in b
    ensures name in a ==> SameResult(AsMap(a[name]), AsMap(b[name]))
  {
    if name in a {
      AlikeAsMap(a[name], b[name]);
    }
  }

  lemma SameOnlyField(xs: seq<Elem>, ys: seq<Elem>)
    requires MapOf(xs).Keys == MapOf(ys).Keys && |xs| == |ys|
    ensures |xs| == 1 ==> xs[0].key == ys[0].key
  {
    if |xs| == 1 {
      assert xs[..0] == [] && ys[..0] == [];
      assert xs[0].key in MapOf(xs).Keys;
    }
  }

  /** Alike queries have alike query fields, or none. */
  lemma SameQueryField(d: Profile, e: Profile)
    requires SameQuery(d, e)
    ensures SameResult(GetQueryFieldD(d), GetQueryFieldD(e))
  {
    var a, b := MapOf(Body(d)), MapOf(Body(e));
    AlikeNamed(a, b, "q");
    AlikeNamed(a, b, "query");
    AlikeNamed(a, b, "filter");
    SameOnlyField(Body(d), Body(e));
    assert SameFields(a, b);
    assert SameFields(map[], map[]);
  }

  lemma AlikeMentioned(a: Fields, b: Fields, name: string, filters: seq<Filter>, key: string)
    requires SameFields(a, b)
    ensures Mentioned(a, name, filters, key) <==> Mentioned(b, name, filters, key)
  {
    if name in a {
      SamePathsSameKeys(a[name], b[name], filters, 0, key);
    }
  }

  lemma SameFieldsSameKeys(f: Fields, g: Fields, filters: seq<Filter>, key: string)
    requires SameFields(f, g)
    ensures Collects(M(Doc(f)), filters, 0, key) <==> Collects(M(Doc(g)), filters, 0, key)
  {
    SameFieldsSamePaths(f, g);
    SamePathsSameKeys(M(Doc(f)), M(Doc(g)), filters, 0, key);
  }

  lemma SameQueryListing(d: Profile, e: Profile)
    requires SameQuery(d, e)
    ensures ListingOf(d) == ListingOf(e)
  {
  }

  lemma SameGroup(d: Profile, e: Profile)
    requires SameQuery(d, e)
    ensures SameResult(GroupOf(d), GroupOf(e))
  {
    AlikeNamed(MapOf(Body(d)), MapOf(Body(e)), "group");
    assert SameFields(map[], map[]);
  }

  lemma SameGroupCollection(d: Profile, e: Profile, collection: string)
    requires SameQuery(d, e) && ListingOf(d).GroupKeys?
    ensures GroupCollection(d, collection) == GroupCollection(e, collection)
  {
    SameGroup(d, e);
    SameQueryListing(d, e);
  }

  lemma SameCommandTarget(d: Profile, e: Profile, database: string)
    requires SameQuery(d, e) && d.op == "command" && Body(d) != []
    ensures CommandTarget(d, database) == CommandTarget(e, database)
  {
    if Body(d)[0].key == "group" {
      var name := AsText(Body(d)[0].value);
      SameGroupCollection(d, e, if name.Some? then name.value else "");
    }
  }

  lemma SameQueryTarget(d: Profile, e: Profile)
    requires SameQuery(d, e)
    ensures TargetOf(d) == TargetOf(e)
  {
    if d.op == "command" && Body(d) != [] {
      SameCommandTarget(d, e, SplitNamespace(d.ns).0);
    } else {
      assert "$explain" in MapOf(d.query) <==> "$explain" in MapOf(e.query);
    }
  }

  lemma SameInQuery(d: Profile, e: Profile, filters: seq<Filter>, key: string)
    requires SameQuery(d, e) && GetQueryFieldD(d).Some?
    ensures GetQueryFieldD(e).Some?
    ensures InQuery(d, GetQueryFieldD(d).value, filters, key) <==> InQuery(e, GetQueryFieldD(e).value, filters, key)
  {
    SameQueryField(d, e);
    var a, b := MapOf(Body(d)), MapOf(Body(e));
    assert SameFields(a, b);
    AlikeMentioned(a, b, "sort", filters, key);
    AlikeMentioned(a, b, "orderby", filters, key);
    SameFieldsSameKeys(GetQueryFieldD(d).value, GetQueryFieldD(e).value, filters, key);
  }

  lemma SameQueryLists(d: Profile, e: Profile, filters: seq<Filter>, key: string)
    requires SameQuery(d, e)
    ensures Lists(d, filters, key) <==> Lists(e, filters, key)
  {
    SameQueryField(d, e);
    SameQueryListing(d, e);
    if GetQueryFieldD(d).Some? {
      SameInQuery(d, e, filters, key);
      match ListingOf(d)
      case NoKeys =>
      case QueryKeys =>
      case DistinctKeys =>
        assert IsDistinctKey(d, key) <==> LeafRead(d) == Some(key);
        assert IsDistinctKey(e, key) <==> LeafRead(e) == Some(key);
      case PipelineKeys =>
        assert SameFields(MapOf(Body(d)), MapOf(Body(e)));
        AlikeMentioned(MapOf(Body(d)), MapOf(Body(e)), "pipeline", [], key);
      case GroupKeys =>
        SameGroup(d, e);
        if GroupOf(d).Some? {
          AlikeMentioned(GroupOf(d).value, GroupOf(e).value, "key", [], key);
          AlikeMentioned(GroupOf(d).value, GroupOf(e).value, "cond", [], key);
        }
    }
  }

  lemma SameQuerySameFingerprint(d: Profile, e: Profile, filters: seq<Filter>, fp: Fingerprint, fp': Fingerprint)
    requires SameQuery(d, e)
    requires IsFingerprint(d, filters, fp) && IsFingerprint(e, filters, fp')
    ensures fp == fp'
  {
    var list :| IsKeyList(d, filters, list) && fp == Render(TargetOf(d), list);
    var list' :| IsKeyList(e, filters, list') && fp' == Render(TargetOf(e), list');
    forall key ensures key in list <==> key in list' {
      SameQueryLists(d, e, filters, key);
    }
    StrictlySortedUnique(list, list');
    SameQueryTarget(d, e);
  }

  // ---- queries that are rearrangements of each other

  /** The fields of the body, rearranged: in the same order, or, without repeated names, in any order. */
  ghost predicate RearrangedBody(xs: seq<Elem>, ys: seq<Elem>) {
    || (|xs| == |ys| && forall i :: 0 <= i < |xs| ==> RearrangedField(xs[i], ys[i]))
    || (RearrangedFields(xs, ys) && DistinctNames(xs) && DistinctNames(ys))
  }

  predicate SelectedHaveNoRepeats(xs: seq<Elem>) {
    forall i :: 0 <= i < |xs| && xs[i].key in SELECTED ==> NoRepeatedNames(xs[i].value)
  }

  /** The same query on the same collection, with its fields reordered at any depth and its leaves changed. */
  ghost predicate RearrangedQuery(d: Profile, e: Profile) {
    && SameTarget(d, e)
    && RearrangedBody(d.query, e.query) && RearrangedBody(d.command, e.command)
    && SelectedHaveNoRepeats(d.query) && SelectedHaveNoRepeats(e.query)
    && SelectedHaveNoRepeats(d.command) && SelectedHaveNoRepeats(e.command)
  }

  lemma {:induction false} SameOrderMaps(xs: seq<Elem>, ys: seq<Elem>)
    requires |xs| == |ys| && forall i :: 0 <= i < |xs| ==> RearrangedField(xs[i], ys[i])
    ensures RearrangedDoc(Doc(MapOf(xs)), Doc(MapOf(ys)))
  {
    if xs == [] {
    } else {
      var n := |xs| - 1;
      SameOrderMaps(xs[..n], ys[..n]);
      assert RearrangedField(xs[n], ys[n]);
    }
  }

  lemma RearrangedIsAlike(a: Fields, b: Fields)
    requires RearrangedDoc(Doc(a), Doc(b))
    ensures a.Keys == b.Keys && forall k :: k in a ==> Alike(a[k], b[k])
  {
    forall k | k in a ensures Alike(a[k], b[k]) {
      assert Rearranged(a[k], b[k]);
      RearrangedKeepsPaths(a[k], b[k]);
    }
  }

  lemma SelectedInMap(xs: seq<Elem>)
    requires SelectedHaveNoRepeats(xs)
    ensures forall k :: k in MapOf(xs) && k in SELECTED ==> NoRepeatedNames(MapOf(xs)[k])
  {
    forall k | k in MapOf(xs) && k in SELECTED ensures NoRepeatedNames(MapOf(xs)[k]) {
      var i := FieldOfMap(xs, k);
    }
  }

  lemma RearrangedBodyMaps(xs: seq<Elem>, ys: seq<Elem>)
    requires RearrangedBody(xs, ys) && SelectedHaveNoRepeats(xs) && SelectedHaveNoRepeats(ys)
    ensures AlikeMaps(MapOf(xs), MapOf(ys))
  {
    if |xs| == |ys| && forall i :: 0 <= i < |xs| ==> RearrangedField(xs[i], ys[i]) {
      SameOrderMaps(xs, ys);
    } else {
      RearrangedMaps(xs, ys);
    }
    RearrangedIsAlike(MapOf(xs), MapOf(ys));
    SelectedInMap(xs);
    SelectedInMap(ys);
  }

  /** Fingerprints are canonical: reordering the fields of a query, of its filter, q or sort, at any depth,
      and changing its leaves, changes no fingerprint. */
  lemma FingerprintIsCanonical(d: Profile, e: Profile, filters: seq<Filter>, fp: Fingerprint, fp': Fingerprint)
    requires RearrangedQuery(d, e)
    requires IsFingerprint(d, filters, fp) && IsFingerprint(e, filters, fp')
    ensures fp == fp'
  {
    RearrangedBodyMaps(d.query, e.query);
    RearrangedBodyMaps(d.command, e.command);
    SameQuerySameFingerprint(d, e, filters, fp, fp');
  }
}
