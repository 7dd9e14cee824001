/** The paths through a MongoDB document, which decide what keys it mentions, and when two documents have
    the same ones (mongolib, fingerprinter.go, getKeys). */
module DocumentPaths {
  import opened DocumentKeys

  // ---- keys as paths

  /** One step into a value: to a field of a document (decoded as a list of fields, or as a map), or to
      an item of a list. */
  datatype Hop = Field(key: string) | MapField(key: string) | Item

  ghost predicate DocHasPath(doc: Doc, k: string, rest: seq<Hop>)
    decreases |rest|, 1
  {
    k in doc.fields && HasPath(doc.fields[k], rest)
  }

  ghost predicate HasPath(v: Value, path: seq<Hop>)
    decreases |path|, 0
  {
    path == [] ||
    match path[0]
    case Field(k) => v.D? && exists i :: 0 <= i < |v.elems| && ElemHasPath(v.elems[i], k, path[1..])
    case MapField(k) =>
      || (v.M? && DocHasPath(v.doc, k, path[1..]))
      || (v.Ms? && exists i :: 0 <= i < |v.docs| && DocHasPath(v.docs[i], k, path[1..]))
    case Item => v.A? && exists i :: 0 <= i < |v.items| && HasPath(v.items[i], path[1..])
  }

  ghost predicate ElemHasPath(e: Elem, k: string, rest: seq<Hop>)
    decreases |rest|, 1
  {
    e.key == k && HasPath(e.value, rest)
  }

  /** A path that the collection follows: its map fields are not filtered, and not too deep.  A field of
      a list of fields counts for two levels, any other hop for one. */
  predicate Followed(path: seq<Hop>, filters: seq<Filter>, level: nat)
    decreases |path|
  {
    path == [] ||
    match path[0]
    case Field(_) => Followed(path[1..], filters, level + 2)
    case MapField(k) => level <= MAX_DEPTH_LEVEL && !Skips(filters, k) && Followed(path[1..], filters, level + 1)
    case Item => Followed(path[1..], filters, level + 1)
  }

  /** Without filters, maps are followed eleven levels deep. */
  lemma {:induction false} DepthLimit(path: seq<Hop>, level: nat)
    requires forall i :: 0 <= i < |path| ==> path[i].MapField?
    ensures Followed(path, [], level) <==> path == [] || level + |path| <= 11
    decreases |path|
  {
    if path != [] {
      DepthLimit(path[1..], level + 1);
    }
  }

  /** Lists of fields know no depth limit and no filters. */
  lemma {:induction false} ListsAreFollowed(path: seq<Hop>, filters: seq<Filter>, level: nat)
    requires forall i :: 0 <= i < |path| ==> !path[i].MapField?
    ensures Followed(path, filters, level)
    decreases |path|
  {
    if path != [] {
      ListsAreFollowed(path[1..], filters, level + if path[0].Field? then 2 else 1);
    }
  }

  /** A key that a filter matches hides all that is below it in a map. */
  lemma {:induction false} FilteredIsHidden(path: seq<Hop>, filters: seq<Filter>, level: nat, i: nat, f: nat)
    requires i < |path| && path[i].MapField? && f < |filters| && filters[f](path[i].key)
    ensures !Followed(path, filters, level)
    decreases |path|
  {
    if 0 < i {
      FilteredIsHidden(path[1..], filters, level + if path[0].Field? then 2 else 1, i - 1, f);
    }
  }

  predicate EndsAt(path: seq<Hop>, key: string) {
    path != [] && (path[|path| - 1] == Field(key) || path[|path| - 1] == MapField(key))
  }

  lemma {:induction false} PathTo(v: Value, filters: seq<Filter>, level: nat, key: string) returns (path: seq<Hop>)
    requires Collects(v, filters, level, key)
    ensures HasPath(v, path) && Followed(path, filters, level) && EndsAt(path, key) && !IsOperator(key)
    decreases v
  {
    match v
    case M(doc) => path := DocPathTo(doc, filters, level, key);
    case Ms(docs) =>
      var i :| 0 <= i < |docs| && CollectsDoc(docs[i], filters, level, key);
      path := DocPathTo(docs[i], filters, level, key);
    case D(elems) =>
      var i :| 0 <= i < |elems| && CollectsElem(elems[i], filters, level + 1, key);
      var rest: seq<Hop> := [];
      if !(elems[i].key == key && !IsOperator(key)) {
        rest := PathTo(elems[i].value, filters, level + 2, key);
      }
      path := [Field(elems[i].key)] + rest;
      assert path[1..] == rest;
      assert ElemHasPath(elems[i], path[0].key, path[1..]);
    case A(items) =>
      var i :| 0 <= i < |items| && Collects(items[i], filters, level + 1, key);
      var rest := PathTo(items[i], filters, level + 1, key);
      path := [Item] + rest;
      assert path[1..] == rest;
  }

  lemma {:induction false} DocPathTo(doc: Doc, filters: seq<Filter>, level: nat, key: string) returns (path: seq<Hop>)
    requires CollectsDoc(doc, filters, level, key) && level <= MAX_DEPTH_LEVEL
    ensures path != [] && path[0].MapField? && DocHasPath(doc, path[0].key, path[1..])
    ensures Followed(path, filters, level) && EndsAt(path, key) && !IsOperator(key)
    decreases doc
  {
    var k :| k in doc.fields && CollectsField(doc, k, filters, level, key);
    var rest: seq<Hop> := [];
    if !(k == key && !IsOperator(key)) {
      rest := PathTo(doc.fields[k], filters, level + 1, key);
    }
    path := [MapField(k)] + rest;
    assert path[1..] == rest;
  }

  lemma {:induction false} PathCollects(v: Value, path: seq<Hop>, filters: seq<Filter>, level: nat, key: string)
    requires HasPath(v, path) && Followed(path, filters, level) && EndsAt(path, key) && !IsOperator(key)
    ensures Collects(v, filters, level, key)
    decreases |path|, 0
  {
    var rest := path[1..];
    match path[0]
    case Field(k) =>
      var i :| 0 <= i < |v.elems| && ElemHasPath(v.elems[i], k, rest);
      if rest != [] {
        PathCollects(v.elems[i].value, rest, filters, level + 2, key);
      }
      assert CollectsElem(v.elems[i], filters, level + 1, key);
    case MapField(k) =>
      if v.M? {
        DocPathCollects(v.doc, k, rest, filters, level, key);
      } else {
        var i :| 0 <= i < |v.docs| && DocHasPath(v.docs[i], k, rest);
        DocPathCollects(v.docs[i], k, rest, filters, level, key);
      }
    case Item =>
      var i :| 0 <= i < |v.items| && HasPath(v.items[i], rest);
      PathCollects(v.items[i], rest, filters, level + 1, key);
  }

  lemma {:induction false} DocPathCollects(doc: Doc, k: string, rest: seq<Hop>, filters: seq<Filter>, level: nat,
                                           key: string)
    requires DocHasPath(doc, k, rest) && !Skips(filters, k) && Followed(rest, filters, level + 1)
    requires if rest == [] then k == key else EndsAt(rest, key)
    requires !IsOperator(key)
    ensures CollectsDoc(doc, filters, level, key)
    decreases |rest|, 1
  {
    if rest != [] {
      PathCollects(doc.fields[k], rest, filters, level + 1, key);
    }
    assert CollectsField(doc, k, filters, level, key);
  }

  /** A key is collected exactly when some followed path ends at it. */
  lemma CollectsByPath(v: Value, filters: seq<Filter>, level: nat, key: string)
    ensures Collects(v, filters, level, key) <==>
      !("$" <= key) && exists path :: HasPath(v, path) && Followed(path, filters, level) && EndsAt(path, key)
  {
    assert IsOperator(key) <==> "$" <= key;
    if Collects(v, filters, level, key) {
      var path := PathTo(v, filters, level, key);
    }
    if !IsOperator(key) {
      if path :| HasPath(v, path) && Followed(path, filters, level) && EndsAt(path, key) {
        PathCollects(v, path, filters, level, key);
      }
    }
  }

  // ---- documents with the same paths

  ghost predicate SamePaths(a: Value, b: Value) {
    forall path :: HasPath(a, path) <==> HasPath(b, path)
  }

  /** Documents with the same paths mention the same keys. */
  lemma SamePathsSameKeys(a: Value, b: Value, filters: seq<Filter>, level: nat, key: string)
    requires SamePaths(a, b)
    ensures Collects(a, filters, level, key) <==> Collects(b, filters, level, key)
  {
    CollectsByPath(a, filters, level, key);
    CollectsByPath(b, filters, level, key);
  }

  /** Whatever the leaves, they have the same paths. */
  lemma LeavesSamePaths(a: Value, b: Value)
    requires (a.Text? || a.Leaf?) && (b.Text? || b.Leaf?)
    ensures SamePaths(a, b)
  {
  }

  ghost predicate FoundAmong(x: Elem, ys: seq<Elem>) {
    exists j :: 0 <= j < |ys| && x.key == ys[j].key && SamePaths(x.value, ys[j].value)
  }

  lemma PathAmong(xs: seq<Elem>, ys: seq<Elem>, path: seq<Hop>)
    requires forall i :: 0 <= i < |xs| ==> FoundAmong(xs[i], ys)
    requires HasPath(D(xs), path)
    ensures HasPath(D(ys), path)
  {
    if path != [] {
      var i :| 0 <= i < |xs| && ElemHasPath(xs[i], path[0].key, path[1..]);
      var j :| 0 <= j < |ys| && xs[i].key == ys[j].key && SamePaths(xs[i].value, ys[j].value);
      assert HasPath(xs[i].value, path[1..]);
      assert ElemHasPath(ys[j], path[0].key, path[1..]);
    }
  }

  /** Two documents whose fields, in any order, have the same names and the same paths below them. */
  lemma RearrangedSamePaths(xs: seq<Elem>, ys: seq<Elem>)
    requires forall i :: 0 <= i < |xs| ==> FoundAmong(xs[i], ys)
    requires forall j :: 0 <= j < |ys| ==> FoundAmong(ys[j], xs)
    ensures SamePaths(D(xs), D(ys))
  {
    forall path ensures HasPath(D(xs), path) <==> HasPath(D(ys), path) {
      if HasPath(D(xs), path) {
        PathAmong(xs, ys, path);
      }
      if HasPath(D(ys), path) {
        PathAmong(ys, xs, path);
      }
    }
  }

  /** Permuting the fields of a document changes no path. */
  lemma PermutedSamePaths(xs: seq<Elem>, ys: seq<Elem>)
    requires multiset(xs) == multiset(ys)
    ensures SamePaths(D(xs), D(ys))
  {
    forall i | 0 <= i < |xs| ensures FoundAmong(xs[i], ys) {
      assert xs[i] in multiset(ys);
    }
    forall j | 0 <= j < |ys| ensures FoundAmong(ys[j], xs) {
      assert ys[j] in multiset(xs);
    }
    RearrangedSamePaths(xs, ys);
  }

  /** Replacing the items of a list by items with the same paths changes no path. */
  lemma ItemwiseSamePaths(xs: seq<Value>, ys: seq<Value>)
    requires |xs| == |ys| && forall i :: 0 <= i < |xs| ==> SamePaths(xs[i], ys[i])
    ensures SamePaths(A(xs), A(ys))
  {
    forall path: seq<Hop> | path != [] && path[0].Item?
      ensures HasPath(A(xs), path) <==> HasPath(A(ys), path)
    {
      assert forall i :: 0 <= i < |xs| ==> (HasPath(xs[i], path[1..]) <==> HasPath(ys[i], path[1..]));
    }
  }

  ghost predicate SameFields(a: map<string, Value>, b: map<string, Value>) {
    a.Keys == b.Keys && forall k :: k in a ==> SamePaths(a[k], b[k])
  }

  lemma SameFieldsSameDocPaths(a: map<string, Value>, b: map<string, Value>, k: string, rest: seq<Hop>)
    requires SameFields(a, b)
    ensures DocHasPath(Doc(a), k, rest) <==> DocHasPath(Doc(b), k, rest)
  {
    if k in a {
      assert SamePaths(a[k], b[k]);
    }
  }

  /** The same for a list of documents. */
  lemma ListwiseSamePaths(xs: seq<Doc>, ys: seq<Doc>)
    requires |xs| == |ys| && forall i :: 0 <= i < |xs| ==> SameFields(xs[i].fields, ys[i].fields)
    ensures SamePaths(Ms(xs), Ms(ys))
  {
    forall path: seq<Hop> | path != [] && path[0].MapField?
      ensures HasPath(Ms(xs), path) <==> HasPath(Ms(ys), path)
    {
      forall i | 0 <= i < |xs|
        ensures DocHasPath(xs[i], path[0].key, path[1..]) <==> DocHasPath(ys[i], path[0].key, path[1..])
      {
        SameFieldsSameDocPaths(xs[i].fields, ys[i].fields, path[0].key, path[1..]);
      }
    }
  }

  // ---- documents turned into maps

  /** primitive.D's Map: of several fields with one name, the last stays. */
  function MapOf(elems: seq<Elem>): map<string, Value> {
    if elems == [] then map[] else MapOf(elems[..|elems| - 1])[elems[|elems| - 1].key := elems[|elems| - 1].value]
  }

  lemma {:induction false} NameInMap(elems: seq<Elem>, i: nat)
    requires i < |elems|
    ensures elems[i].key in MapOf(elems)
  {
    if i == |elems| - 1 {
    } else {
      NameInMap(elems[..|elems| - 1], i);
    }
  }

  lemma {:induction false} FieldOfMap(elems: seq<Elem>, k: string) returns (i: nat)
    requires k in MapOf(elems)
    ensures i < |elems| && elems[i] == E(k, MapOf(elems)[k])
  {
    var n := |elems| - 1;
    if elems[n].key == k {
      i := n;
    } else {
      i := FieldOfMap(elems[..n], k);
    }
  }

  predicate DistinctNames(elems: seq<Elem>) {
    forall i, j :: 0 <= i < j < |elems| ==> elems[i].key != elems[j].key
  }

  lemma PathBelowName(elems: seq<Elem>, k: string, path: seq<Hop>)
    requires DistinctNames(elems)
    ensures HasPath(D(elems), [Field(k)] + path) <==> k in MapOf(elems) && HasPath(MapOf(elems)[k], path)
  {
    var whole := [Field(k)] + path;
    assert whole[1..] == path;
    if i :| 0 <= i < |elems| && ElemHasPath(elems[i], k, path) {
      NameInMap(elems, i);
    }
    if k in MapOf(elems) {
      var j := FieldOfMap(elems, k);
      assert forall i :: 0 <= i < |elems| && ElemHasPath(elems[i], k, path) ==> i == j;
      assert HasPath(MapOf(elems)[k], path) <==> ElemHasPath(elems[j], k, path);
    }
  }

  lemma NamedPath(xs: seq<Elem>, ys: seq<Elem>, k: string, path: seq<Hop>)
    requires DistinctNames(xs) && DistinctNames(ys)
    requires HasPath(D(xs), [Field(k)] + path) <==> HasPath(D(ys), [Field(k)] + path)
    ensures k in MapOf(xs) && HasPath(MapOf(xs)[k], path) <==> k in MapOf(ys) && HasPath(MapOf(ys)[k], path)
  {
    PathBelowName(xs, k, path);
    PathBelowName(ys, k, path);
  }

  lemma NamedValueSamePaths(xs: seq<Elem>, ys: seq<Elem>, k: string)
    requires DistinctNames(xs) && DistinctNames(ys) && SamePaths(D(xs), D(ys)) && k in MapOf(xs)
    ensures k in MapOf(ys) && SamePaths(MapOf(xs)[k], MapOf(ys)[k])
  {
    NamedPath(xs, ys, k, []);
    assert HasPath(MapOf(xs)[k], []);
    forall path ensures HasPath(MapOf(xs)[k], path) <==> HasPath(MapOf(ys)[k], path) {
      NamedPath(xs, ys, k, path);
    }
  }

  /** While no field name repeats, the map keeps all that the document had: documents with the same paths
      give maps with the same paths. */
  lemma MapKeepsPaths(xs: seq<Elem>, ys: seq<Elem>)
    requires DistinctNames(xs) && DistinctNames(ys) && SamePaths(D(xs), D(ys))
    ensures SameFields(MapOf(xs), MapOf(ys))
  {
    forall k | k in MapOf(xs) ensures k in MapOf(ys) && SamePaths(MapOf(xs)[k], MapOf(ys)[k]) {
      NamedValueSamePaths(xs, ys, k);
    }
    forall k | k in MapOf(ys) ensures k in MapOf(xs) {
      NamedValueSamePaths(ys, xs, k);
    }
  }

  /** Maps with the same paths mention the same keys. */
  lemma SameFieldsSamePaths(a: map<string, Value>, b: map<string, Value>)
    requires SameFields(a, b)
    ensures SamePaths(M(Doc(a)), M(Doc(b)))
  {
    forall path: seq<Hop> | path != [] && path[0].MapField?
      ensures HasPath(M(Doc(a)), path) <==> HasPath(M(Doc(b)), path)
    {
      SameFieldsSameDocPaths(a, b, path[0].key, path[1..]);
    }
  }

  ghost predicate RearrangedField(x: Elem, y: Elem)
    decreases x
  {
    x.key == y.key && Rearranged(x.value, y.value)
  }

  function Without(ys: seq<Elem>, j: nat): (rest: seq<Elem>)
    requires j < |ys|
    ensures |rest| == |ys| - 1
    ensures forall i :: 0 <= i < |ys| && i != j ==> ys[i] in rest
    ensures forall y :: y in rest ==> y in ys
  {
    assert forall i :: 0 <= i < j ==> ys[..j][i] == ys[i];
    assert forall i :: j < i < |ys| ==> ys[j + 1..][i - j - 1] == ys[i];
    ys[..j] + ys[j + 1..]
  }

  /** The fields of one list, rearranged, in any order. */
  ghost predicate RearrangedFields(xs: seq<Elem>, ys: seq<Elem>)
    decreases xs
  {
    if xs == [] then ys == []
    else exists j :: 0 <= j < |ys| && RearrangedField(xs[0], ys[j]) && RearrangedFields(xs[1..], Without(ys, j))
  }

  // ---- documents rearranged

  /** The same document, up to the order of fields in lists of fields, at any depth, and the leaves. */
  ghost predicate Rearranged(a: Value, b: Value)
    decreases a
  {
    match a
    case Text(_) => b.Text? || b.Leaf?
    case Leaf(_) => b.Text? || b.Leaf?
    case M(doc) => b.M? && RearrangedDoc(doc, b.doc)
    case D(elems) => b.D? && RearrangedFields(elems, b.elems)
    case Ms(docs) => b.Ms? && |docs| == |b.docs| && forall i :: 0 <= i < |docs| ==> RearrangedDoc(docs[i], b.docs[i])
    case A(items) => b.A? && |items| == |b.items| && forall i :: 0 <= i < |items| ==> Rearranged(items[i], b.items[i])
  }

  ghost predicate RearrangedDoc(x: Doc, y: Doc)
    decreases x
  {
    x.fields.Keys == y.fields.Keys && forall k :: k in x.fields ==> Rearranged(x.fields[k], y.fields[k])
  }

  /** Every field of the one list has its counterpart in the other. */
  lemma {:induction false} Counterpart(xs: seq<Elem>, ys: seq<Elem>, x: Elem) returns (y: Elem)
    requires RearrangedFields(xs, ys) && x in xs
    ensures y in ys && RearrangedField(x, y)
    decreases xs
  {
    var j :| 0 <= j < |ys| && RearrangedField(xs[0], ys[j]) && RearrangedFields(xs[1..], Without(ys, j));
    if x == xs[0] {
      y := ys[j];
    } else {
      y := Counterpart(xs[1..], Without(ys, j), x);
    }
  }

  lemma {:induction false} CounterpartBack(xs: seq<Elem>, ys: seq<Elem>, y: Elem) returns (x: Elem)
    requires RearrangedFields(xs, ys) && y in ys
    ensures x in xs && RearrangedField(x, y)
    decreases xs
  {
    var j :| 0 <= j < |ys| && RearrangedField(xs[0], ys[j]) && RearrangedFields(xs[1..], Without(ys, j));
    if y == ys[j] {
      x := xs[0];
    } else {
      x := CounterpartBack(xs[1..], Without(ys, j), y);
    }
  }

  lemma {:induction false} SameLength(xs: seq<Elem>, ys: seq<Elem>)
    requires RearrangedFields(xs, ys)
    ensures |xs| == |ys|
    decreases xs
  {
    if xs == [] {
    } else {
      var j :| 0 <= j < |ys| && RearrangedField(xs[0], ys[j]) && RearrangedFields(xs[1..], Without(ys, j));
      SameLength(xs[1..], Without(ys, j));
    }
  }

  lemma {:induction false} RearrangedFieldsKeepPaths(xs: seq<Elem>, ys: seq<Elem>)
    requires RearrangedFields(xs, ys)
    ensures SamePaths(D(xs), D(ys))
    decreases xs
  {
    forall i | 0 <= i < |xs| ensures FoundAmong(xs[i], ys) {
      var y := Counterpart(xs, ys, xs[i]);
      RearrangedKeepsPaths(xs[i].value, y.value);
    }
    forall j | 0 <= j < |ys| ensures FoundAmong(ys[j], xs) {
      var x := CounterpartBack(xs, ys, ys[j]);
      RearrangedKeepsPaths(x.value, ys[j].value);
    }
    RearrangedSamePaths(xs, ys);
  }

  /** Rearranging a document changes no path. */
  lemma {:induction false} RearrangedKeepsPaths(a: Value, b: Value)
    requires Rearranged(a, b)
    ensures SamePaths(a, b)
    decreases a
  {
    match a
    case Text(_) => LeavesSamePaths(a, b);
    case Leaf(_) => LeavesSamePaths(a, b);
    case M(doc) =>
      RearrangedDocKeepsPaths(doc, b.doc);
      SameFieldsSamePaths(doc.fields, b.doc.fields);
    case D(elems) => RearrangedFieldsKeepPaths(elems, b.elems);
    case Ms(docs) =>
      forall i | 0 <= i < |docs| ensures SameFields(docs[i].fields, b.docs[i].fields) {
        RearrangedDocKeepsPaths(docs[i], b.docs[i]);
      }
      ListwiseSamePaths(docs, b.docs);
    case A(items) =>
      forall i | 0 <= i < |items| ensures SamePaths(items[i], b.items[i]) {
        RearrangedKeepsPaths(items[i], b.items[i]);
      }
      ItemwiseSamePaths(items, b.items);
  }

  lemma {:induction false} RearrangedDocKeepsPaths(x: Doc, y: Doc)
    requires RearrangedDoc(x, y)
    ensures SameFields(x.fields, y.fields)
    decreases x
  {
    forall k | k in x.fields ensures SamePaths(x.fields[k], y.fields[k]) {
      RearrangedKeepsPaths(x.fields[k], y.fields[k]);
    }
  }

  lemma NamedOnce(elems: seq<Elem>, e: Elem)
    requires DistinctNames(elems) && e in elems
    ensures e.key in MapOf(elems) && MapOf(elems)[e.key] == e.value
  {
    var i :| 0 <= i < |elems| && elems[i] == e;
    NameInMap(elems, i);
    var j := FieldOfMap(elems, e.key);
    assert i == j;
  }

  lemma NamedRearranged(xs: seq<Elem>, ys: seq<Elem>, k: string)
    requires RearrangedFields(xs, ys) && DistinctNames(ys) && k in MapOf(xs)
    ensures k in MapOf(ys) && Rearranged(MapOf(xs)[k], MapOf(ys)[k])
  {
    var i := FieldOfMap(xs, k);
    var y := Counterpart(xs, ys, xs[i]);
    NamedOnce(ys, y);
  }

  lemma NamedBack(xs: seq<Elem>, ys: seq<Elem>, k: string)
    requires RearrangedFields(xs, ys) && k in MapOf(ys)
    ensures k in MapOf(xs)
  {
    var j := FieldOfMap(ys, k);
    var x := CounterpartBack(xs, ys, ys[j]);
    var i :| 0 <= i < |xs| && xs[i] == x;
    NameInMap(xs, i);
  }

  /** Lists of fields without repeated names, rearranged, are rearranged maps. */
  lemma RearrangedMaps(xs: seq<Elem>, ys: seq<Elem>)
    requires RearrangedFields(xs, ys) && DistinctNames(xs) && DistinctNames(ys)
    ensures RearrangedDoc(Doc(MapOf(xs)), Doc(MapOf(ys)))
  {
    forall k | k in MapOf(xs) ensures k in MapOf(ys) && Rearranged(MapOf(xs)[k], MapOf(ys)[k]) {
      NamedRearranged(xs, ys, k);
    }
    forall k | k in MapOf(ys) ensures k in MapOf(xs) {
      NamedBack(xs, ys, k);
    }
  }

  lemma WithoutOne(xs: seq<Elem>, ys: seq<Elem>, j: nat)
    requires multiset(xs) == multiset(ys) && xs != [] && j < |ys| && ys[j] == xs[0]
    ensures multiset(xs[1..]) == multiset(Without(ys, j))
  {
    assert xs == [xs[0]] + xs[1..];
    assert ys == ys[..j] + [ys[j]] + ys[j + 1..];
    assert multiset(xs[1..]) == multiset(xs) - multiset{xs[0]};
    assert multiset(Without(ys, j)) == multiset(ys) - multiset{ys[j]};
  }

  /** Permuting the fields of a list rearranges it. */
  lemma {:induction false} PermutedIsRearranged(xs: seq<Elem>, ys: seq<Elem>)
    requires multiset(xs) == multiset(ys)
    ensures RearrangedFields(xs, ys)
    decreases xs
  {
    if xs == [] {
      assert |multiset(ys)| == 0;
    } else {
      assert xs[0] in multiset(ys);
      var j :| 0 <= j < |ys| && ys[j] == xs[0];
      RearrangedItself(xs[0].value);
      WithoutOne(xs, ys, j);
      PermutedIsRearranged(xs[1..], Without(ys, j));
      assert RearrangedField(xs[0], ys[j]);
    }
  }

  lemma {:induction false} RearrangedItself(v: Value)
    ensures Rearranged(v, v)
    decreases v
  {
    match v
    case Text(_) =>
    case Leaf(_) =>
    case M(doc) => RearrangedDocItself(doc);
    case D(elems) => PermutedIsRearranged(elems, elems);
    case Ms(docs) =>
      forall i | 0 <= i < |docs| ensures RearrangedDoc(docs[i], docs[i]) {
        RearrangedDocItself(docs[i]);
      }
    case A(items) =>
      forall i | 0 <= i < |items| ensures Rearranged(items[i], items[i]) {
        RearrangedItself(items[i]);
      }
  }

  lemma {:induction false} RearrangedDocItself(doc: Doc)
    ensures RearrangedDoc(doc, doc)
    decreases doc
  {
    forall k | k in doc.fields ensures Rearranged(doc.fields[k], doc.fields[k]) {
      RearrangedItself(doc.fields[k]);
    }
  }
}
