/** Filters in which a field name repeats (mongolib, fingerprinter.go, asMap): when they are turned into a
    map, only the last field of the name stays. */
module RepeatedNames {
  import opened Options
  import opened DocumentKeys
  import opened DocumentPaths
  import opened KeyList
  import opened Fingerprint

  lemma MergeThenSet(a: Fields, b: Fields, k: string, v: Value)
    ensures (a + b)[k := v] == a + b[k := v]
  {
  }

  lemma MapOfNext(elems: seq<Elem>, front: seq<Elem>, last: Elem)
    requires elems == front + [last]
    ensures MapOf(elems) == MapOf(front)[last.key := last.value]
  {
    assert elems[..|elems| - 1] == front;
  }

  lemma {:induction false} MapOfConcat(a: seq<Elem>, b: seq<Elem>)
    ensures MapOf(a + b) == MapOf(a) + MapOf(b)
  {
    if b == [] {
      assert a + b == a;
    } else {
      var front, last := b[..|b| - 1], b[|b| - 1];
      MapOfConcat(a, front);
      MapOfNext(a + b, a + front, last);
      MapOfNext(b, front, last);
      MergeThenSet(MapOf(a), MapOf(front), last.key, last.value);
    }
  }

  predicate Names(elems: seq<Elem>, k: string) {
    exists i :: 0 <= i < |elems| && elems[i].key == k
  }

  /** A document with two fields of the name `k`. */
  function Twice(pre: seq<Elem>, mid: seq<Elem>, post: seq<Elem>, k: string, u: Value, v: Value): seq<Elem> {
    pre + [E(k, u)] + mid + [E(k, v)] + post
  }

  lemma NotNamed(elems: seq<Elem>, k: string)
    requires !Names(elems, k)
    ensures k !in MapOf(elems)
  {
    if k in MapOf(elems) {
      var i := FieldOfMap(elems, k);
    }
  }

  lemma LastWins(pre: Fields, mid: Fields, post: Fields, k: string, u: Value, v: Value)
    requires k !in mid && k !in post
    ensures pre + map[k := u] + mid + map[k := v] + post == (pre + mid + post)[k := v]
  {
  }

  lemma OneFieldMap(k: string, v: Value)
    ensures MapOf([E(k, v)]) == map[k := v]
  {
    assert [E(k, v)][..0] == [];
  }

  /** Of the fields of one name, the last one counts. */
  lemma LastNameCounts(pre: seq<Elem>, mid: seq<Elem>, post: seq<Elem>, k: string, u: Value, v: Value)
    requires !Names(mid, k) && !Names(post, k)
    ensures MapOf(Twice(pre, mid, post, k, u, v)) == MapOf(pre + mid + post)[k := v]
  {
    MapOfConcat(pre + [E(k, u)] + mid + [E(k, v)], post);
    MapOfConcat(pre + [E(k, u)] + mid, [E(k, v)]);
    MapOfConcat(pre + [E(k, u)], mid);
    MapOfConcat(pre, [E(k, u)]);
    MapOfConcat(pre + mid, post);
    MapOfConcat(pre, mid);
    OneFieldMap(k, u);
    OneFieldMap(k, v);
    NotNamed(mid, k);
    NotNamed(post, k);
    LastWins(MapOf(pre), MapOf(mid), MapOf(post), k, u, v);
  }

  /** Is the key collected from a field of another name, or is it the name itself? */
  ghost predicate CollectedElsewhere(rest: Fields, k: string, filters: seq<Filter>, key: string) {
    || Collects(M(Doc(rest - {k})), filters, 0, key)
    || (key == k && !IsOperator(k))
  }

  lemma KeysOfField(rest: Fields, k: string, v: Value, filters: seq<Filter>, key: string)
    requires !Skips(filters, k)
    ensures Collects(M(Doc(rest[k := v])), filters, 0, key) <==>
      CollectedElsewhere(rest, k, filters, key) || Collects(v, filters, 1, key)
  {
    var whole, others := Doc(rest[k := v]), Doc(rest - {k});
    assert CollectsField(whole, k, filters, 0, key) <==> (key == k && !IsOperator(k)) || Collects(v, filters, 1, key);
    forall j | j in others.fields
      ensures CollectsField(whole, j, filters, 0, key) <==> CollectsField(others, j, filters, 0, key)
    {
      assert whole.fields[j] == others.fields[j];
    }
    assert CollectsDoc(whole, filters, 0, key) <==>
      CollectsField(whole, k, filters, 0, key) || CollectsDoc(others, filters, 0, key) by {
      if j :| j in whole.fields && CollectsField(whole, j, filters, 0, key) {
        assert j != k ==> j in others.fields && CollectsField(others, j, filters, 0, key);
      }
      if j :| j in others.fields && CollectsField(others, j, filters, 0, key) {
        assert CollectsField(whole, j, filters, 0, key);
      }
    }
  }

  lemma KeysOfSkippedField(rest: Fields, k: string, v: Value, filters: seq<Filter>, key: string)
    requires Skips(filters, k)
    ensures Collects(M(Doc(rest[k := v])), filters, 0, key) <==> Collects(M(Doc(rest - {k})), filters, 0, key)
  {
    var whole, others := Doc(rest[k := v]), Doc(rest - {k});
    if j :| j in whole.fields && CollectsField(whole, j, filters, 0, key) {
      assert j in others.fields && CollectsField(others, j, filters, 0, key);
    }
    if j :| j in others.fields && CollectsField(others, j, filters, 0, key) {
      assert CollectsField(whole, j, filters, 0, key);
    }
  }

  ghost predicate SameKeys(a: Fields, b: Fields, filters: seq<Filter>) {
    forall key :: Collects(M(Doc(a)), filters, 0, key) <==> Collects(M(Doc(b)), filters, 0, key)
  }

  /** Two fields of one name, the last of this name in the document, can change places without changing the
      keys exactly if the name is filtered, or both collect the same of those keys that the rest does not. */
  lemma ExchangedNames(pre: seq<Elem>, mid: seq<Elem>, post: seq<Elem>, k: string, u: Value, v: Value,
                       filters: seq<Filter>)
    requires !Names(mid, k) && !Names(post, k)
    ensures SameKeys(MapOf(Twice(pre, mid, post, k, u, v)), MapOf(Twice(pre, mid, post, k, v, u)), filters) <==>
        Skips(filters, k) || forall key :: CollectedElsewhere(MapOf(pre + mid + post), k, filters, key)
                               || (Collects(u, filters, 1, key) <==> Collects(v, filters, 1, key))
  {
    LastNameCounts(pre, mid, post, k, u, v);
    LastNameCounts(pre, mid, post, k, v, u);
    var rest := MapOf(pre + mid + post);
    var first, second := rest[k := v], rest[k := u];
    if Skips(filters, k) {
      forall key ensures Collects(M(Doc(first)), filters, 0, key) <==> Collects(M(Doc(second)), filters, 0, key) {
        KeysOfSkippedField(rest, k, u, filters, key);
        KeysOfSkippedField(rest, k, v, filters, key);
      }
    } else {
      forall key
        ensures (Collects(M(Doc(first)), filters, 0, key) <==> Collects(M(Doc(second)), filters, 0, key)) <==>
          CollectedElsewhere(rest, k, filters, key) || (Collects(u, filters, 1, key) <==> Collects(v, filters, 1, key))
      {
        KeysOfField(rest, k, u, filters, key);
        KeysOfField(rest, k, v, filters, key);
      }
    }
  }

  /** A find whose filter has the field `a` twice. */
  function FilterOf(first: string, second: string): Profile {
    var filter := D([E("a", D([E(first, Leaf(0))])), E("a", D([E(second, Leaf(0))]))]);
    Profile("query", "test.coll", [E("filter", filter)], [])
  }

  lemma OneNameBelow(below: string, key: string)
    requires !IsOperator(below)
    ensures Collects(D([E(below, Leaf(0))]), [], 1, key) <==> key == below
  {
    var elems := [E(below, Leaf(0))];
    assert CollectsElem(elems[0], [], 2, key) <==> key == below;
  }

  lemma FilterLists(first: string, second: string, key: string)
    requires !IsOperator(second)
    ensures Lists(FilterOf(first, second), [], key) <==> key == "a" || key == second
  {
    var doc := FilterOf(first, second);
    var u, v := D([E(first, Leaf(0))]), D([E(second, Leaf(0))]);
    OneFieldMap("filter", D([E("a", u), E("a", v)]));
    assert MapOf(Body(doc)) == map["filter" := D([E("a", u), E("a", v)])];
    LastNameCounts([], [], [], "a", u, v);
    assert Twice([], [], [], "a", u, v) == [E("a", u), E("a", v)];
    assert GetQueryFieldD(doc) == Some(map["a" := v]);
    assert Collects(M(Doc(map["a" := v])), [], 0, key) <==> key == "a" || key == second by {
      var none: Fields := map[];
      KeysOfField(none, "a", v, [], key);
      assert none["a" := v] == map["a" := v] && none - {"a"} == none;
      assert !CollectsDoc(Doc(none), [], 0, key);
      OneNameBelow(second, key);
    }
  }

  lemma KeysAre(first: string, second: string, fp: Fingerprint)
    requires Before("a", second) && !IsOperator(second)
    requires IsFingerprint(FilterOf(first, second), [], fp)
    ensures fp.keys == "a" + "," + second
  {
    var doc := FilterOf(first, second);
    var list :| IsKeyList(doc, [], list) && fp == Render(TargetOf(doc), list);
    forall key ensures key in list <==> key in ["a", second] {
      FilterLists(first, second, key);
    }
    StrictlySortedUnique(list, ["a", second]);
    assert ["a", second][1..] == [second];
    assert Join([second], ",") == second;
  }

  /** For example, the filters {a: {b: 0}, a: {c: 0}} and {a: {c: 0}, a: {b: 0}} have different fingerprints. */
  lemma ExchangedNamesDiffer(fp: Fingerprint, fp': Fingerprint)
    requires IsFingerprint(FilterOf("b", "c"), [], fp) && IsFingerprint(FilterOf("c", "b"), [], fp')
    ensures fp.keys == "a,c" && fp'.keys == "a,b" && fp != fp'
  {
    KeysAre("b", "c", fp);
    KeysAre("c", "b", fp');
    assert "a" + "," + "c" == "a,c" && "a" + "," + "b" == "a,b";
    assert "a,c"[2] != "a,b"[2];
  }
}
