/** Which keys a MongoDB document mentions (mongolib, fingerprinter.go, getKeys and its helpers).  The
    order in which Go walks a map is arbitrary. */
module DocumentKeys {
  datatype Doc = Doc(fields: map<string, Value>)

  /** The value of a field, as the BSON driver decodes it.  Only strings are told apart among the leaves. */
  datatype Value =
    | Text(text: string)
    | Leaf(code: int)
    | M(doc: Doc)
    | D(elems: seq<Elem>)
    | Ms(docs: seq<Doc>)
    | A(items: seq<Value>)

  datatype Elem = E(key: string, value: Value)

  /** A key filter: what regexp.MatchString answers for it. */
  type Filter = string -> bool

  const MAX_DEPTH_LEVEL := 10

  predicate IsOperator(key: string) { key != "" && key[0] == '$' }

  predicate Skips(filters: seq<Filter>, key: string) {
    exists i :: 0 <= i < |filters| && filters[i](key)
  }

  ghost predicate CollectsField(doc: Doc, k: string, filters: seq<Filter>, level: nat, key: string)
    requires k in doc.fields
    decreases doc, 0
  {
    !Skips(filters, k) && ((k == key && !IsOperator(key)) || Collects(doc.fields[k], filters, level + 1, key))
  }

  ghost predicate CollectsDoc(doc: Doc, filters: seq<Filter>, level: nat, key: string)
    decreases doc
  {
    exists k :: k in doc.fields && CollectsField(doc, k, filters, level, key)
  }

  /** Is the key collected from the value?  Documents decoded as maps are not entered below the depth
      limit, and their filtered keys hide what is below them; lists of fields know neither. */
  ghost predicate Collects(v: Value, filters: seq<Filter>, level: nat, key: string)
    decreases v
  {
    match v
    case Text(_) => false
    case Leaf(_) => false
    case M(doc) => level <= MAX_DEPTH_LEVEL && CollectsDoc(doc, filters, level, key)
    case D(elems) => exists i :: 0 <= i < |elems| && CollectsElem(elems[i], filters, level + 1, key)
    case Ms(docs) =>
      level <= MAX_DEPTH_LEVEL && exists i :: 0 <= i < |docs| && CollectsDoc(docs[i], filters, level, key)
    case A(items) => exists i :: 0 <= i < |items| && Collects(items[i], filters, level + 1, key)
  }

  ghost predicate CollectsElem(e: Elem, filters: seq<Filter>, level: nat, key: string)
    decreases e
  {
    (e.key == key && !IsOperator(key)) || Collects(e.value, filters, level + 1, key)
  }

  method ShouldSkipKey(key: string, filters: seq<Filter>) returns (skip: bool)
    ensures skip == Skips(filters, key)
  {
    for i := 0 to |filters|
      invariant forall j :: 0 <= j < i ==> !filters[j](key)
    {
      if filters[i](key) {
        return true;
      }
    }
    return false;
  }

  method GetDocKeys(doc: Doc, filters: seq<Filter>, level: nat) returns (ks: seq<string>)
    ensures forall key :: key in ks <==> CollectsDoc(doc, filters, level, key)
    decreases doc
  {
    ks := [];
    var rest := doc.fields.Keys;
    while rest != {}
      invariant rest <= doc.fields.Keys
      invariant forall key :: key in ks <==>
        exists k :: k in doc.fields && k !in rest && CollectsField(doc, k, filters, level, key)
      decreases |rest|
    {
      var k :| k in rest;
      rest := rest - {k};
      var skip := ShouldSkipKey(k, filters);
      if !skip {
        if !IsOperator(k) {
          ks := ks + [k];
        }
        var below := GetKeys(doc.fields[k], filters, level + 1);
        ks := ks + below;
      }
    }
  }

  method GetKeys(v: Value, filters: seq<Filter>, level: nat) returns (ks: seq<string>)
    ensures forall key :: key in ks <==> Collects(v, filters, level, key)
    decreases v
  {
    ks := [];
    var q: seq<Doc> := [];
    match v {
    case Text(_) => return;
    case Leaf(_) => return;
    case M(doc) => q := [doc];
    case Ms(docs) => q := docs;
    case D(elems) =>
      for i := 0 to |elems|
        invariant forall key :: key in ks <==> exists j :: 0 <= j < i && CollectsElem(elems[j], filters, level + 1, key)
      {
        var below := GetElemKeys(elems[i], filters, level + 1);
        ks := ks + below;
      }
      return;
    case A(items) =>
      for i := 0 to |items|
        invariant forall key :: key in ks <==> exists j :: 0 <= j < i && Collects(items[j], filters, level + 1, key)
      {
        var below := GetKeys(items[i], filters, level + 1);
        ks := ks + below;
      }
      return;
    }
    if level <= MAX_DEPTH_LEVEL {
      for i := 0 to |q|
        invariant forall key :: key in ks <==> exists j :: 0 <= j < i && CollectsDoc(q[j], filters, level, key)
      {
        var below := GetDocKeys(q[i], filters, level);
        ks := ks + below;
      }
      assert v.M? ==> q[0] == v.doc;
    }
  }

  method GetElemKeys(e: Elem, filters: seq<Filter>, level: nat) returns (ks: seq<string>)
    ensures forall key :: key in ks <==> CollectsElem(e, filters, level, key)
    decreases e
  {
    ks := [];
    if !IsOperator(e.key) {
      ks := ks + [e.key];
    }
    var below := GetKeys(e.value, filters, level + 1);
    ks := ks + below;
  }
}
