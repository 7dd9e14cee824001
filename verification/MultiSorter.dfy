/** Ordering queries by several keys (pt-mongodb-query-digest, main.go, multiSorter and the
    comparators of sortQueries).  Floats are modelled as reals. */
module MultiSorter {
  import opened Options
  import opened Sorting

  datatype QueryStats = QueryStats(
    count: int,
    ratio: real,
    queryTimeMax: real,
    docsExaminedMax: real,
    returnedMax: real)

  type Less = (QueryStats, QueryStats) -> bool

  ghost predicate Tied(less: Less, p: QueryStats, q: QueryStats) {
    !less(p, q) && !less(q, p)
  }

  /** What sorting needs of a comparator: it is irreflexive and transitive, and so are ties. */
  ghost predicate StrictWeakOrder(less: Less) {
    && (forall p :: !less(p, p))
    && (forall p, q, r :: less(p, q) && less(q, r) ==> less(p, r))
    && (forall p, q, r :: Tied(less, p, q) && Tied(less, q, r) ==> Tied(less, p, r))
  }

  ghost predicate AllOrders(less: seq<Less>) {
    forall k :: 0 <= k < |less| ==> StrictWeakOrder(less[k])
  }

  /** The order in which the comparators are asked; only the last one's word is final. */
  predicate Compare(less: seq<Less>, p: QueryStats, q: QueryStats)
    requires less != []
  {
    if |less| == 1 || less[0](p, q) then less[0](p, q)
    else !less[0](q, p) && Compare(less[1..], p, q)
  }

  /** Nothing is less than something before it. */
  ghost predicate NoInversion(less: seq<Less>, queries: seq<QueryStats>)
    requires less != []
  {
    forall i, j :: 0 <= i < j < |queries| ==> !Compare(less, queries[j], queries[i])
  }

  lemma TieThenLess(less: Less, p: QueryStats, q: QueryStats, r: QueryStats)
    requires StrictWeakOrder(less)
    ensures less(p, q) && Tied(less, q, r) ==> less(p, r)
    ensures Tied(less, p, q) && less(q, r) ==> less(p, r)
  {
    if less(p, q) && Tied(less, q, r) && !less(p, r) {
      assert !less(r, p);
      assert Tied(less, p, r) && Tied(less, r, q);
    }
    if Tied(less, p, q) && less(q, r) && !less(p, r) {
      assert !less(r, p);
      assert Tied(less, q, p) && Tied(less, p, r);
    }
  }

  /** Comparing by a list of strict weak orders is a strict weak order. */
  lemma {:induction false} LexicographicOrder(less: seq<Less>, p: QueryStats, q: QueryStats, r: QueryStats)
    requires less != [] && AllOrders(less)
    ensures !Compare(less, p, p)
    ensures Compare(less, p, q) && Compare(less, q, r) ==> Compare(less, p, r)
    ensures !Compare(less, p, q) && !Compare(less, q, p) && !Compare(less, q, r) && !Compare(less, r, q) ==>
              !Compare(less, p, r) && !Compare(less, r, p)
  {
    var first := less[0];
    assert StrictWeakOrder(first);
    TieThenLess(first, p, q, r);
    TieThenLess(first, r, q, p);
    if |less| > 1 {
      LexicographicOrder(less[1..], p, q, r);
      assert Tied(first, p, q) && Tied(first, q, r) ==> Tied(first, p, r);
    } else {
      assert Tied(first, p, q) && Tied(first, q, r) ==> Tied(first, p, r);
    }
  }

  /** What sorting asks of a comparison holds of lists of strict weak orders. */
  lemma CompareOrders(less: seq<Less>, compare: Less)
    requires less != [] && AllOrders(less)
    requires forall p, q :: compare(p, q) == Compare(less, p, q)
    ensures Orders(compare)
  {
    forall p, q | compare(p, q) ensures !compare(q, p) {
      LexicographicOrder(less, p, q, p);
    }
    forall p, q, r | !compare(q, p) && !compare(r, q) ensures !compare(r, p) {
      LexicographicOrder(less, p, q, r);
      LexicographicOrder(less, q, r, p);
      LexicographicOrder(less, r, p, q);
    }
  }

  class Sorter {
    var queries: seq<QueryStats>
    const less: seq<Less>

    constructor (less: seq<Less>)
      ensures this.less == less && queries == []
    {
      this.less, queries := less, [];
    }

    /** Less of sort.Interface.  It panics if there is no comparator. */
    method LessAt(i: nat, j: nat) returns (lt: bool)
      requires i < |queries| && j < |queries| && less != []
      ensures lt == Compare(less, queries[i], queries[j])
    {
      var p, q := queries[i], queries[j];
      var k := 0;
      while k < |less| - 1
        invariant 0 <= k <= |less| - 1
        invariant Compare(less, p, q) == Compare(less[k..], p, q)
      {
        if less[k](p, q) {
          return true;
        } else if less[k](q, p) {
          return false;
        }
        k := k + 1;
      }
      lt := less[k](p, q);
    }

    method Swap(i: nat, j: nat)
      requires i < |queries| && j < |queries|
      modifies this`queries
      ensures queries == old(queries)[i := old(queries)[j]][j := old(queries)[i]]
      ensures multiset(queries) == multiset(old(queries))
    {
      queries := queries[i := queries[j]][j := queries[i]];
    }

    /** With comparators that are strict weak orders, sort.Sort leaves the queries without inversion. */
    method Sort(queries: seq<QueryStats>)
      requires less != []
      modifies this
      ensures multiset(this.queries) == multiset(queries)
      ensures AllOrders(less) ==> NoInversion(less, this.queries)
    {
      var comparators := less;
      var compare := (p: QueryStats, q: QueryStats) => Compare(comparators, p, q);
      this.queries := SortBy(compare, queries);
      if AllOrders(less) {
        CompareOrders(less, compare);
        SortByOrders(compare, queries);
      }
    }
  }

  /** A comparator list orders two queries exactly by the first comparator that tells them apart. */
  lemma {:induction false} FirstDifferenceDecides(less: seq<Less>, p: QueryStats, q: QueryStats)
    requires less != [] && AllOrders(less)
    ensures Compare(less, p, q) <==>
            exists k :: 0 <= k < |less| && less[k](p, q) && forall j :: 0 <= j < k ==> Tied(less[j], p, q)
  {
    assert StrictWeakOrder(less[0]);
    var rest := less[1..];
    if |less| > 1 && Tied(less[0], p, q) {
      FirstDifferenceDecides(rest, p, q);
      if k :| 0 <= k < |rest| && rest[k](p, q) && forall j :: 0 <= j < k ==> Tied(rest[j], p, q) {
        assert less[k + 1] == rest[k];
        forall j | 0 <= j < k + 1
          ensures Tied(less[j], p, q)
        {
          assert 0 < j ==> less[j] == rest[j - 1];
        }
      }
      if k :| 0 <= k < |less| && less[k](p, q) && forall j :: 0 <= j < k ==> Tied(less[j], p, q) {
        assert 0 < k && rest[k - 1] == less[k];
        forall j | 0 <= j < k - 1
          ensures Tied(rest[j], p, q)
        {
          assert rest[j] == less[j + 1];
        }
      }
    }
  }

  /** The queries are sorted by the first key, those that tie on it by the second, and so on. */
  lemma SortedKeyByKey(less: seq<Less>, queries: seq<QueryStats>, i: nat, j: nat, k: nat)
    requires less != [] && AllOrders(less) && NoInversion(less, queries)
    requires i < j < |queries| && k < |less| && forall n :: 0 <= n < k ==> Tied(less[n], queries[i], queries[j])
    ensures !less[k](queries[j], queries[i])
  {
    FirstDifferenceDecides(less, queries[j], queries[i]);
    assert forall n :: 0 <= n < k ==> Tied(less[n], queries[i], queries[j]) ==> Tied(less[n], queries[j], queries[i]);
  }

  /** The comparator of a field; sortQueries has none for a field it does not know. */
  function Comparator(field: string): Option<Less> {
    match field
    case "count" => Some((c1: QueryStats, c2: QueryStats) => c1.count < c2.count)
    case "-count" => Some((c1: QueryStats, c2: QueryStats) => c1.count > c2.count)
    case "ratio" => Some((c1: QueryStats, c2: QueryStats) => c1.ratio < c2.ratio)
    case "-ratio" => Some((c1: QueryStats, c2: QueryStats) => c1.ratio > c2.ratio)
    case "query-time" => Some((c1: QueryStats, c2: QueryStats) => c1.queryTimeMax < c2.queryTimeMax)
    case "-query-time" => Some((c1: QueryStats, c2: QueryStats) => c1.queryTimeMax > c2.queryTimeMax)
    case "docs-examined" => Some((c1: QueryStats, c2: QueryStats) => c1.docsExaminedMax < c2.docsExaminedMax)
    case "-docs-examined" => Some((c1: QueryStats, c2: QueryStats) => c1.docsExaminedMax > c2.docsExaminedMax)
    case "docs-returned" => Some((c1: QueryStats, c2: QueryStats) => c1.returnedMax < c2.docsExaminedMax)
    case "-docs-returned" => Some((c1: QueryStats, c2: QueryStats) => c1.returnedMax > c2.docsExaminedMax)
    case _ => None
  }

  /** Each comparator sortQueries knows is a strict weak order, but not those of docs-returned,
      which compare the documents returned by one query with those examined by the other. */
  lemma ComparatorIsOrder(field: string)
    requires Comparator(field).Some?
    ensures StrictWeakOrder(Comparator(field).value) <==> field != "docs-returned" && field != "-docs-returned"
  {
    var less := Comparator(field).value;
    var p := QueryStats(0, 0.0, 0.0, 1.0, 0.0);
    var q := QueryStats(0, 0.0, 0.0, 0.0, 1.0);
    if field == "docs-returned" {
      assert less(p, p);
    } else if field == "-docs-returned" {
      assert less(q, q);
    }
  }

  /** "docs-returned" puts a query before itself exactly if it returned less than it examined. */
  lemma DocsReturnedIsReflexive(p: QueryStats)
    ensures Comparator("docs-returned").value(p, p) <==> p.returnedMax < p.docsExaminedMax
  {
  }

  /** Whether the field `less` compares is that of `value`, upwards. */
  ghost predicate ComparesBy(field: string, value: QueryStats -> real) {
    && Comparator(field).Some? && Comparator("-" + field).Some?
    && forall p, q ::
      && (Comparator(field).value(p, q) <==> value(p) < value(q))
      && (Comparator("-" + field).value(p, q) <==> value(q) < value(p))
  }

  lemma MinusFields()
    ensures "-" + "count" == "-count" && "-" + "ratio" == "-ratio" && "-" + "query-time" == "-query-time"
    ensures "-" + "docs-examined" == "-docs-examined"
  {
  }

  /** Each field is compared upwards, and with a minus before it downwards; what docs-returned compares comes
      from two fields. */
  lemma FieldsCompared()
    ensures ComparesBy("count", (q: QueryStats) => q.count as real)
    ensures ComparesBy("ratio", (q: QueryStats) => q.ratio)
    ensures ComparesBy("query-time", (q: QueryStats) => q.queryTimeMax)
    ensures ComparesBy("docs-examined", (q: QueryStats) => q.docsExaminedMax)
    ensures forall p, q ::
              && (Comparator("docs-returned").value(p, q) <==> p.returnedMax < q.docsExaminedMax)
              && (Comparator("-docs-returned").value(p, q) <==> q.docsExaminedMax < p.returnedMax)
  {
    MinusFields();
  }

  /** Sorted by a field first, the queries have its values in ascending order, and with a minus in descending. */
  lemma SortedByField(field: string, value: QueryStats -> real, rest: seq<Less>, queries: seq<QueryStats>, down: bool)
    requires ComparesBy(field, value)
    requires var less := [Comparator(if down then "-" + field else field).value] + rest;
             AllOrders(less) && NoInversion(less, queries)
    ensures forall i, j :: 0 <= i < j < |queries| ==>
              if down then value(queries[j]) <= value(queries[i]) else value(queries[i]) <= value(queries[j])
  {
    var less := [Comparator(if down then "-" + field else field).value] + rest;
    forall i: nat, j: nat | i < j < |queries|
      ensures if down then value(queries[j]) <= value(queries[i]) else value(queries[i]) <= value(queries[j])
    {
      SortedKeyByKey(less, queries, i, j, 0);
    }
  }
}
