/** Fingerprints of profiled MongoDB queries (mongolib, fingerprinter.go, Fingerprint and
    GetQueryFieldD). */
module Fingerprint {
  import opened Options
  import opened DocumentKeys
  import opened DocumentPaths
  import opened KeyList

  datatype Profile = Profile(op: string, ns: string, query: seq<Elem>, command: seq<Elem>)

  datatype Fingerprint = Fingerprint(
    namespace: string,
    operation: string,
    collection: string,
    database: string,
    keys: string,
    fingerprint: string)

  type Fields = map<string, Value>

  function AsText(v: Value): Option<string> {
    if v.Text? then Some(v.text) else None
  }

  /** Fails, with None, on whatever is not a document. */
  function AsMap(v: Value): Option<Fields> {
    match v
    case M(doc) => Some(doc.fields)
    case D(elems) => Some(MapOf(elems))
    case Text(_) => None
    case Leaf(_) => None
    case Ms(_) => None
    case A(_) => None
  }

  /** What the profiled document calls its query, or its command. */
  function Body(doc: Profile): seq<Elem> {
    if doc.command != [] then doc.command else doc.query
  }

  /** The part of the body whose keys the fingerprint lists. */
  function GetQueryFieldD(doc: Profile): Option<Fields> {
    var body := MapOf(Body(doc));
    if doc.command != [] && (doc.op == "update" || doc.op == "remove") then
      if "q" in body then AsMap(body["q"]) else None
    else if "query" in body then AsMap(body["query"])
    else if "filter" in body then AsMap(body["filter"])
    else if |Body(doc)| == 1 && Body(doc)[0].key == "find" then Some(map[])
    else Some(body)
  }

  /** Which keys a fingerprint lists. */
  datatype Listing = QueryKeys | NoKeys | GroupKeys | DistinctKeys | PipelineKeys

  function CommandListing(command: string): Listing {
    match command
    case "group" => GroupKeys
    case "distinct" => DistinctKeys
    case "aggregate" => PipelineKeys
    case "geoNear" => NoKeys
    case "explain" => NoKeys
    case "$eval" => NoKeys
    case "drop" => NoKeys
    case "createIndexes" => NoKeys
    case _ => QueryKeys
  }

  function ListingOf(doc: Profile): Listing {
    match doc.op
    case "remove" => QueryKeys
    case "update" => QueryKeys
    case "query" => QueryKeys
    case "command" => if Body(doc) == [] then QueryKeys else CommandListing(Body(doc)[0].key)
    case _ => NoKeys
  }

  /** The first argument of a group command. */
  function GroupOf(doc: Profile): Option<Fields> {
    var body := MapOf(Body(doc));
    if "group" in body then AsMap(body["group"]) else Some(map[])
  }

  datatype Target = Target(op: string, database: string, collection: string)

  /** strings.SplitN at the first dot. */
  function SplitNamespace(ns: string): (string, string) {
    if ns == "" || ns[0] == '.' then ("", if ns == "" then "" else ns[1..])
    else var rest := SplitNamespace(ns[1..]); ([ns[0]] + rest.0, rest.1)
  }

  function GroupCollection(doc: Profile, collection: string): string {
    var group := GroupOf(doc);
    if group.None? || "ns" !in group.value then collection
    else var ns := AsText(group.value["ns"]); if ns.Some? then ns.value else collection
  }

  function CommandTarget(doc: Profile, database: string): Target
    requires Body(doc) != []
  {
    var first := Body(doc)[0];
    var name := AsText(first.value);
    var collection := if name.Some? then name.value else "";
    match first.key
    case "group" => Target("group", database, GroupCollection(doc, collection))
    case "explain" => Target("explain", "", "")
    case "$eval" => Target("eval", database, "")
    case op => Target(op, database, collection)
  }

  function TargetOf(doc: Profile): Target {
    var (database, collection) := SplitNamespace(doc.ns);
    match doc.op
    case "query" =>
      if "$explain" in MapOf(doc.query) then Target("explain", "", "") else Target("find", database, collection)
    case "command" => if Body(doc) == [] then Target("", database, collection) else CommandTarget(doc, database)
    case op => Target(op, database, collection)
  }

  /** strings.ToUpper, on ASCII. */
  function ToUpper(s: string): string {
    seq(|s|, i requires 0 <= i < |s| => if 'a' <= s[i] <= 'z' then s[i] - 'a' + 'A' else s[i])
  }

  function NonEmpty(parts: seq<string>): seq<string> {
    if parts == [] then [] else (if parts[0] == "" then [] else [parts[0]]) + NonEmpty(parts[1..])
  }

  function Render(target: Target, list: seq<string>): Fingerprint {
    var keys := Join(list, ",");
    var op := ToUpper(target.op);
    Fingerprint(Join(NonEmpty([target.database, target.collection]), "."), op, target.collection, target.database, keys,
                Join(NonEmpty([op, target.collection, keys]), " "))
  }

  ghost predicate Mentioned(m: Fields, name: string, filters: seq<Filter>, key: string) {
    name in m && Collects(m[name], filters, 0, key)
  }

  /** The keys of the query itself, and those it sorts by. */
  ghost predicate InQuery(doc: Profile, field: Fields, filters: seq<Filter>, key: string) {
    || Collects(M(Doc(field)), filters, 0, key)
    || Mentioned(MapOf(Body(doc)), "sort", filters, key)
    || Mentioned(MapOf(Body(doc)), "orderby", filters, key)
  }

  ghost predicate IsDistinctKey(doc: Profile, key: string) {
    "key" in MapOf(Body(doc)) && AsText(MapOf(Body(doc))["key"]) == Some(key)
  }

  /** Does the fingerprint of the document list the key? */
  ghost predicate Lists(doc: Profile, filters: seq<Filter>, key: string) {
    var field := GetQueryFieldD(doc);
    && field.Some?
    && match ListingOf(doc)
       case NoKeys => false
       case QueryKeys => InQuery(doc, field.value, filters, key)
       case DistinctKeys => InQuery(doc, field.value, filters, key) || IsDistinctKey(doc, key)
       case PipelineKeys => Mentioned(MapOf(Body(doc)), "pipeline", [], key)
       case GroupKeys =>
         GroupOf(doc).Some?
         && (Mentioned(GroupOf(doc).value, "key", [], key) || Mentioned(GroupOf(doc).value, "cond", [], key))
  }

  predicate Fails(doc: Profile) {
    GetQueryFieldD(doc).None? || (ListingOf(doc).GroupKeys? && GroupOf(doc).None?)
  }

  ghost predicate IsKeyList(doc: Profile, filters: seq<Filter>, list: seq<string>) {
    StrictlySorted(list) && forall key :: key in list <==> Lists(doc, filters, key)
  }

  /** The document's operation and target, followed by the strictly sorted list of its keys. */
  ghost predicate IsFingerprint(doc: Profile, filters: seq<Filter>, fp: Fingerprint) {
    exists list :: IsKeyList(doc, filters, list) && fp == Render(TargetOf(doc), list)
  }

  method AppendKeys(ks: seq<string>, m: Fields, name: string, filters: seq<Filter>) returns (r: seq<string>)
    ensures forall key :: key in r <==> key in ks || Mentioned(m, name, filters, key)
  {
    r := ks;
    if name in m {
      var more := GetKeys(m[name], filters, 0);
      r := r + more;
    }
  }

  method ListKeys(doc: Profile, filters: seq<Filter>) returns (retKeys: seq<string>)
    requires !Fails(doc)
    ensures forall key :: key in retKeys <==> Lists(doc, filters, key)
  {
    var body := MapOf(Body(doc));
    retKeys := GetKeys(M(Doc(GetQueryFieldD(doc).value)), filters, 0);
    retKeys := AppendKeys(retKeys, body, "sort", filters);
    retKeys := AppendKeys(retKeys, body, "orderby", filters);
    match ListingOf(doc)
    case QueryKeys =>
    case NoKeys => retKeys := [];
    case DistinctKeys =>
      if "key" in body && body["key"].Text? {
        retKeys := retKeys + [body["key"].text];
      }
    case PipelineKeys => retKeys := AppendKeys([], body, "pipeline", []);
    case GroupKeys =>
      retKeys := AppendKeys([], GroupOf(doc).value, "key", []);
      retKeys := AppendKeys(retKeys, GroupOf(doc).value, "cond", []);
  }

  method FingerprintOf(doc: Profile, filters: seq<Filter>) returns (r: Option<Fingerprint>)
    ensures r.None? <==> Fails(doc)
    ensures r.Some? ==> IsFingerprint(doc, filters, r.value)
  {
    if Fails(doc) {
      return None;
    }
    var retKeys := ListKeys(doc, filters);
    var sorted := SortStrings(retKeys);
    assert forall key :: key in sorted <==> key in multiset(sorted);
    assert forall key :: key in retKeys <==> key in multiset(retKeys);
    var list := Deduplicate(sorted);
    FirstsOfSorted(sorted);
    assert IsKeyList(doc, filters, list);
    return Some(Render(TargetOf(doc), list));
  }

  /** A document has one fingerprint, in whatever order its maps are walked. */
  lemma FingerprintIsUnique(doc: Profile, filters: seq<Filter>, fp: Fingerprint, fp': Fingerprint)
    requires IsFingerprint(doc, filters, fp) && IsFingerprint(doc, filters, fp')
    ensures fp == fp'
  {
    var list :| IsKeyList(doc, filters, list) && fp == Render(TargetOf(doc), list);
    var list' :| IsKeyList(doc, filters, list') && fp' == Render(TargetOf(doc), list');
    StrictlySortedUnique(list, list');
  }
}
