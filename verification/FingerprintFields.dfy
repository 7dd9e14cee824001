/** What the fields of a fingerprint say of the profiled query (mongolib, fingerprinter.go, Fingerprint). */
module FingerprintFields {
  import opened Options
  import opened DocumentKeys
  import opened DocumentPaths
  import opened Fingerprint
  import opened KeyList
  import opened RepeatedNames

  // ---- the target

  lemma {:induction false} NamespaceParts(database: string, collection: string)
    requires '.' !in database
    ensures SplitNamespace(database + "." + collection) == (database, collection)
  {
    var ns := database + "." + collection;
    if database == "" {
      assert ns[1..] == collection;
    } else {
      assert ns[1..] == database[1..] + "." + collection;
      NamespaceParts(database[1..], collection);
      assert [database[0]] + database[1..] == database;
    }
  }

  lemma {:induction false} NamespaceWithoutDot(ns: string)
    requires '.' !in ns
    ensures SplitNamespace(ns) == (ns, "")
  {
    if ns == "" {
    } else {
      NamespaceWithoutDot(ns[1..]);
      assert [ns[0]] + ns[1..] == ns;
    }
  }

  /** The namespace of a document is a database and a collection; without a dot it is a database. */
  predicate IsNamespace(ns: string, database: string, collection: string) {
    '.' !in database && (ns == database + "." + collection || (ns == database && collection == ""))
  }

  lemma NamespaceOf(ns: string, database: string, collection: string)
    requires IsNamespace(ns, database, collection)
    ensures SplitNamespace(ns) == (database, collection)
  {
    if ns == database + "." + collection {
      NamespaceParts(database, collection);
    } else {
      NamespaceWithoutDot(ns);
    }
  }

  lemma {:induction false} NamedInMap(elems: seq<Elem>, name: string)
    ensures name in MapOf(elems) <==> Names(elems, name)
  {
    if name in MapOf(elems) {
      var i := FieldOfMap(elems, name);
    } else if Names(elems, name) {
      var i :| 0 <= i < |elems| && elems[i].key == name;
      NameInMap(elems, i);
    }
  }

  /** A fingerprint names the target of its document. */
  lemma TargetFields(doc: Profile, filters: seq<Filter>, fp: Fingerprint)
    requires IsFingerprint(doc, filters, fp)
    ensures var target := TargetOf(doc);
            fp.operation == ToUpper(target.op) && fp.database == target.database && fp.collection == target.collection
  {
  }

  lemma UpperNames()
    ensures ToUpper("find") == "FIND" && ToUpper("explain") == "EXPLAIN" && ToUpper("eval") == "EVAL"
    ensures ToUpper("group") == "GROUP" && ToUpper("") == ""
  {
  }

  lemma UpperOperations()
    ensures ToUpper("remove") == "REMOVE" && ToUpper("update") == "UPDATE" && ToUpper("insert") == "INSERT"
  {
  }

  /** A find is upper case FIND on the database and the collection of its namespace. */
  lemma FindFields(doc: Profile, filters: seq<Filter>, fp: Fingerprint, database: string, collection: string)
    requires IsFingerprint(doc, filters, fp)
    requires doc.op == "query" && !Names(doc.query, "$explain") && IsNamespace(doc.ns, database, collection)
    ensures fp.operation == "FIND" && fp.database == database && fp.collection == collection
    ensures database != "" && collection != "" ==> fp.namespace == doc.ns
  {
    NamespaceOf(doc.ns, database, collection);
    NamedInMap(doc.query, "$explain");
    TargetFields(doc, filters, fp);
    UpperNames();
    Texts(doc, filters, fp);
  }

  /** A query that is explained has no collection and no database. */
  lemma ExplainFields(doc: Profile, filters: seq<Filter>, fp: Fingerprint)
    requires IsFingerprint(doc, filters, fp) && doc.op == "query" && Names(doc.query, "$explain")
    ensures fp.operation == "EXPLAIN" && fp.database == "" && fp.collection == "" && fp.namespace == ""
  {
    NamedInMap(doc.query, "$explain");
    TargetFields(doc, filters, fp);
    UpperNames();
    Texts(doc, filters, fp);
  }

  /** Removals, updates, insertions and all other operations keep their names. */
  lemma OperationFields(doc: Profile, filters: seq<Filter>, fp: Fingerprint, database: string, collection: string)
    requires IsFingerprint(doc, filters, fp)
    requires doc.op != "query" && doc.op != "command" && IsNamespace(doc.ns, database, collection)
    ensures IsUpper(doc.op, fp.operation) && fp.database == database && fp.collection == collection
    ensures doc.op == "remove" ==> fp.operation == "REMOVE"
    ensures doc.op == "update" ==> fp.operation == "UPDATE"
    ensures doc.op == "insert" ==> fp.operation == "INSERT"
  {
    NamespaceOf(doc.ns, database, collection);
    TargetFields(doc, filters, fp);
    UpperCase(doc.op);
    UpperOperations();
  }

  /** The same text in upper case. */
  predicate IsUpper(s: string, upper: string) {
    |upper| == |s|
    && forall i :: 0 <= i < |s| ==>
         upper[i] == if 'a' <= s[i] <= 'z' then (s[i] as int - 32) as char else s[i]
  }

  lemma UpperCase(s: string)
    ensures IsUpper(s, ToUpper(s))
  {
  }

  /** What a command profiles: its body, or else the query. */
  function Profiled(doc: Profile): seq<Elem> {
    if doc.command == [] then doc.query else doc.command
  }

  /** The field of this name that counts in what is profiled. */
  predicate HasField(doc: Profile, name: string, v: Value) {
    name in MapOf(Profiled(doc)) && MapOf(Profiled(doc))[name] == v
  }

  /** The text of a value, "" if it is none. */
  function TextOf(v: Value): string {
    match v
    case Text(text) => text
    case _ => ""
  }

  /** A command is named by its first field, and works on the collection that this field names, if it is not
      group, explain or $eval. */
  lemma CommandFields(doc: Profile, filters: seq<Filter>, fp: Fingerprint, database: string, collection: string)
    requires IsFingerprint(doc, filters, fp)
    requires doc.op == "command" && Profiled(doc) != [] && IsNamespace(doc.ns, database, collection)
    requires Profiled(doc)[0].key !in {"group", "explain", "$eval"}
    ensures IsUpper(Profiled(doc)[0].key, fp.operation)
    ensures fp.database == database && fp.collection == TextOf(Profiled(doc)[0].value)
  {
    NamespaceOf(doc.ns, database, collection);
    TargetFields(doc, filters, fp);
    UpperCase(Profiled(doc)[0].key);
  }

  /** An explained command has neither database nor collection, an evaluated one has no collection; without a
      body a command has no name. */
  lemma NamelessCommandFields(doc: Profile, filters: seq<Filter>, fp: Fingerprint, database: string, collection: string)
    requires IsFingerprint(doc, filters, fp) && doc.op == "command" && IsNamespace(doc.ns, database, collection)
    ensures Profiled(doc) != [] && Profiled(doc)[0].key == "explain" ==>
              fp.operation == "EXPLAIN" && fp.database == "" && fp.collection == "" && fp.namespace == ""
    ensures Profiled(doc) != [] && Profiled(doc)[0].key == "$eval" ==>
              fp.operation == "EVAL" && fp.database == database && fp.collection == "" && fp.namespace == database
    ensures Profiled(doc) == [] ==> fp.operation == "" && fp.database == database && fp.collection == collection
  {
    NamespaceOf(doc.ns, database, collection);
    TargetFields(doc, filters, fp);
    UpperNames();
    Texts(doc, filters, fp);
  }

  /** The document that a value is, if it is one. */
  predicate IsDocument(v: Value, fields: Fields) {
    v == M(Doc(fields)) || (v.D? && fields == MapOf(v.elems))
  }

  /** A group command works on the collection that its argument names as `ns`, or else on what its first field
      names. */
  lemma GroupFields(doc: Profile, filters: seq<Filter>, fp: Fingerprint, database: string, collection: string,
                    v: Value, group: Fields)
    requires IsFingerprint(doc, filters, fp) && doc.op == "command" && IsNamespace(doc.ns, database, collection)
    requires Profiled(doc) != [] && Profiled(doc)[0].key == "group" && HasField(doc, "group", v) && IsDocument(v, group)
    ensures fp.operation == "GROUP" && fp.database == database
    ensures fp.collection == if "ns" in group && group["ns"].Text? then group["ns"].text
                             else TextOf(Profiled(doc)[0].value)
  {
    NamespaceOf(doc.ns, database, collection);
    TargetFields(doc, filters, fp);
    UpperNames();
  }

  // ---- the texts

  /** Two texts with a separator, or the one that is not empty. */
  function Beside(a: string, sep: string, b: string): string {
    if a == "" then b else if b == "" then a else a + sep + b
  }

  lemma JoinTwo(a: string, b: string, sep: string)
    ensures Join(NonEmpty([a, b]), sep) == Beside(a, sep, b)
  {
    assert [a, b][1..] == [b] && [b][1..] == [];
    assert NonEmpty([b]) == if b == "" then [] else [b];
  }

  lemma JoinThree(a: string, b: string, c: string, sep: string)
    ensures Join(NonEmpty([a, b, c]), sep) == Beside(a, sep, Beside(b, sep, c))
  {
    assert [a, b, c][1..] == [b, c];
    JoinTwo(b, c, sep);
    var rest := NonEmpty([b, c]);
    assert [b, c][1..] == [c] && [c][1..] == [];
    assert NonEmpty([c]) == if c == "" then [] else [c];
    if a != "" && rest != [] {
      assert ([a] + rest)[1..] == rest;
      assert rest[0] != "";
    }
  }

  /** The namespace is the database and the collection, and the fingerprint the operation, the collection and
      the keys, in this order and without those that are empty. */
  lemma Texts(doc: Profile, filters: seq<Filter>, fp: Fingerprint)
    requires IsFingerprint(doc, filters, fp)
    ensures fp.namespace == Beside(fp.database, ".", fp.collection)
    ensures fp.fingerprint == Beside(fp.operation, " ", Beside(fp.collection, " ", fp.keys))
  {
    JoinTwo(fp.database, fp.collection, ".");
    JoinThree(fp.operation, fp.collection, fp.keys, " ");
  }

  // ---- the keys

  /** The parts of a text between the separators. */
  function SplitAt(s: string, sep: char): (parts: seq<string>)
    ensures parts != []
  {
    if s == "" then [""]
    else
      var rest := SplitAt(s[1..], sep);
      if s[0] == sep then [""] + rest else [[s[0]] + rest[0]] + rest[1..]
  }

  lemma {:induction false} SplitPart(part: string, sep: char, rest: string)
    requires sep !in part
    ensures SplitAt(part, sep) == [part]
    ensures SplitAt(part + [sep] + rest, sep) == [part] + SplitAt(rest, sep)
  {
    var s := part + [sep] + rest;
    if part == "" {
      assert s[1..] == rest;
    } else {
      assert s[1..] == part[1..] + [sep] + rest;
      SplitPart(part[1..], sep, rest);
      assert [part[0]] + part[1..] == part;
    }
  }

  /** Splitting undoes joining. */
  lemma {:induction false} SplitJoined(parts: seq<string>, sep: char)
    requires parts != [] && forall i :: 0 <= i < |parts| ==> sep !in parts[i]
    ensures SplitAt(Join(parts, [sep]), sep) == parts
  {
    if |parts| == 1 {
      SplitPart(parts[0], sep, "");
    } else {
      SplitJoined(parts[1..], sep);
      SplitPart(parts[0], sep, Join(parts[1..], [sep]));
      assert parts == [parts[0]] + parts[1..];
    }
  }

  /** The keys are the sorted list of those that the document mentions, each once, with commas between them. */
  lemma KeysOfFingerprint(doc: Profile, filters: seq<Filter>, fp: Fingerprint) returns (list: seq<string>)
    requires IsFingerprint(doc, filters, fp)
    ensures IsKeyList(doc, filters, list)
    ensures list == [] ==> fp.keys == ""
    ensures list != [] && (forall i :: 0 <= i < |list| ==> ',' !in list[i]) ==> SplitAt(fp.keys, ',') == list
  {
    list :| IsKeyList(doc, filters, list) && fp == Render(TargetOf(doc), list);
    if list != [] && forall i :: 0 <= i < |list| ==> ',' !in list[i] {
      SplitJoined(list, ',');
      assert [','] == ",";
    }
  }

  /** The operations and commands that list no keys. */
  predicate ListsNothing(doc: Profile) {
    if doc.op == "command" then
      Profiled(doc) != [] && Profiled(doc)[0].key in {"geoNear", "explain", "$eval", "drop", "createIndexes"}
    else
      doc.op !in {"query", "update", "remove"}
  }

  lemma NoKeysFields(doc: Profile, filters: seq<Filter>, fp: Fingerprint)
    requires IsFingerprint(doc, filters, fp) && ListsNothing(doc)
    ensures fp.keys == ""
  {
    var list := KeysOfFingerprint(doc, filters, fp);
    NoMembers(list);
  }

  /** An aggregation lists the keys of its pipeline, which no filter hides. */
  lemma PipelineListed(doc: Profile, filters: seq<Filter>, key: string)
    requires doc.op == "command" && Profiled(doc) != [] && Profiled(doc)[0].key == "aggregate" && !Fails(doc)
    ensures Lists(doc, filters, key) <==>
      exists v :: HasField(doc, "pipeline", v) && Collects(v, [], 0, key)
  {
    if Lists(doc, filters, key) {
      assert HasField(doc, "pipeline", MapOf(Profiled(doc))["pipeline"]);
    }
  }

  /** A group lists what it groups by and its condition, which no filter hides either. */
  lemma GroupListed(doc: Profile, filters: seq<Filter>, v: Value, group: Fields, key: string)
    requires doc.op == "command" && Profiled(doc) != [] && Profiled(doc)[0].key == "group" && !Fails(doc)
    requires HasField(doc, "group", v) && IsDocument(v, group)
    ensures Lists(doc, filters, key) <==>
      || ("key" in group && Collects(group["key"], [], 0, key))
      || ("cond" in group && Collects(group["cond"], [], 0, key))
  {
    assert GroupOf(doc) == Some(group);
  }

  /** The operations and commands that list the keys of their query. */
  predicate ListsQuery(doc: Profile) {
    || doc.op in {"query", "update", "remove"}
    || (doc.op == "command"
        && (Profiled(doc) == [] || Profiled(doc)[0].key !in
              {"group", "aggregate", "geoNear", "explain", "$eval", "drop", "createIndexes"}))
  }

  /** They list its keys and what the document sorts by, and a distinct also the key that it asks for. */
  lemma QueryListed(doc: Profile, filters: seq<Filter>, key: string)
    requires ListsQuery(doc) && !Fails(doc)
    ensures GetQueryFieldD(doc).Some?
    ensures var m := MapOf(Profiled(doc));
            Lists(doc, filters, key) <==>
              || Collects(M(Doc(GetQueryFieldD(doc).value)), filters, 0, key)
              || ("sort" in m && Collects(m["sort"], filters, 0, key))
              || ("orderby" in m && Collects(m["orderby"], filters, 0, key))
              || (doc.op == "command" && Profiled(doc) != [] && Profiled(doc)[0].key == "distinct"
                  && HasField(doc, "key", Text(key)))
  {
  }

  /** The query comes from the field of this name: it must be a document. */
  ghost predicate ComesFrom(doc: Profile, v: Value) {
    && (forall fields :: IsDocument(v, fields) ==> GetQueryFieldD(doc) == Some(fields))
    && (!v.M? && !v.D? ==> Fails(doc))
  }

  lemma FieldIsDocument(v: Value)
    ensures forall fields :: IsDocument(v, fields) ==> AsMap(v) == Some(fields)
    ensures !v.M? && !v.D? ==> AsMap(v) == None
  {
  }

  /** The body is a find without anything else. */
  predicate IsLoneFind(doc: Profile) {
    |Profiled(doc)| == 1 && Profiled(doc)[0].key == "find"
  }

  /** The document whose keys are listed: q of a command that updates or removes, which must be there; elsewhere
      the first of query, filter and the whole body, of which a lone find has nothing. */
  lemma QueryFieldByName(doc: Profile, v: Value)
    ensures var m := MapOf(Profiled(doc));
            if doc.command != [] && doc.op in {"update", "remove"} then
              && ("q" !in m ==> Fails(doc))
              && (HasField(doc, "q", v) ==> ComesFrom(doc, v))
            else
              && (HasField(doc, "query", v) ==> ComesFrom(doc, v))
              && ("query" !in m && HasField(doc, "filter", v) ==> ComesFrom(doc, v))
              && ("query" !in m && "filter" !in m && !IsLoneFind(doc) ==>
                    GetQueryFieldD(doc) == Some(m))
  {
    FieldIsDocument(v);
  }

  lemma LoneFind(doc: Profile)
    requires IsLoneFind(doc) && !(doc.command != [] && doc.op in {"update", "remove"})
    ensures GetQueryFieldD(doc) == Some(map[])
  {
    var v := Profiled(doc)[0].value;
    assert Profiled(doc) == [E("find", v)];
    OneFieldMap("find", v);
  }

  // ---- an example

  /** A find of {a: 1} in the collection c of the database t. */
  const FIND_A := Profile("query", "t.c", [E("filter", D([E("a", Leaf(1))]))], [])

  lemma FindAListsA(key: string)
    ensures Lists(FIND_A, [], key) <==> key == "a"
  {
    var elems := [E("a", Leaf(1))];
    OneFieldMap("filter", D(elems));
    OneFieldMap("a", Leaf(1));
    assert MapOf(Body(FIND_A)) == map["filter" := D(elems)];
    assert GetQueryFieldD(FIND_A) == Some(map["a" := Leaf(1)]);
    var none: Fields := map[];
    KeysOfField(none, "a", Leaf(1), [], key);
    assert none["a" := Leaf(1)] == map["a" := Leaf(1)] && none - {"a"} == none;
    assert !CollectsDoc(Doc(none), [], 0, key);
  }

  lemma FindAKeys(fp: Fingerprint)
    requires IsFingerprint(FIND_A, [], fp)
    ensures fp.keys == "a"
  {
    var list :| IsKeyList(FIND_A, [], list) && fp == Render(TargetOf(FIND_A), list);
    forall key
      ensures key in list <==> key in ["a"]
    {
      FindAListsA(key);
    }
    StrictlySortedUnique(list, ["a"]);
  }

  lemma FindATexts(fp: Fingerprint)
    requires fp.operation == "FIND" && fp.collection == "c" && fp.database == "t" && fp.keys == "a"
    requires fp.namespace == Beside(fp.database, ".", fp.collection)
    requires fp.fingerprint == Beside(fp.operation, " ", Beside(fp.collection, " ", fp.keys))
    ensures fp == Fingerprint("t.c", "FIND", "c", "t", "a", "FIND c a")
  {
    assert fp.fingerprint == "FIND" + " " + ("c" + " " + "a");
  }

  lemma FindAFields(fp: Fingerprint)
    requires IsFingerprint(FIND_A, [], fp)
    ensures fp == Fingerprint("t.c", "FIND", "c", "t", "a", "FIND c a")
  {
    assert FIND_A.ns == "t" + "." + "c";
    assert !Names(FIND_A.query, "$explain") by { assert "filter"[0] != "$explain"[0]; }
    FindFields(FIND_A, [], fp, "t", "c");
    Texts(FIND_A, [], fp);
    FindAKeys(fp);
    FindATexts(fp);
  }
}
