/** Sorting by a comparison, which stands for the sorts of the libraries. */
module Sorting {
  /** What sorting needs: no two elements before each other, and "not before" is transitive. */
  ghost predicate Orders<T(!new)>(less: (T, T) -> bool) {
    && (forall a, b :: less(a, b) ==> !less(b, a))
    && (forall a, b, c {:trigger less(b, a), less(c, b)} :: !less(b, a) && !less(c, b) ==> !less(c, a))
  }

  /** No later element is before an earlier one. */
  ghost predicate InOrder<T(!new)>(less: (T, T) -> bool, s: seq<T>) {
    forall i, j :: 0 <= i < j < |s| ==> !less(s[j], s[i])
  }

  function Insert<T(==)>(less: (T, T) -> bool, x: T, s: seq<T>): (r: seq<T>)
    ensures multiset(r) == multiset(s) + multiset{x}
  {
    if s == [] || !less(s[0], x) then [x] + s
    else assert s == [s[0]] + s[1..]; [s[0]] + Insert(less, x, s[1..])
  }

  lemma {:induction false} InsertKeepsOrder<T(!new)>(less: (T, T) -> bool, x: T, s: seq<T>)
    requires Orders(less) && InOrder(less, s)
    ensures InOrder(less, Insert(less, x, s))
  {
    if s != [] && less(s[0], x) {
      InsertKeepsOrder(less, x, s[1..]);
      var rest := Insert(less, x, s[1..]);
      forall j | 0 <= j < |rest| ensures !less(rest[j], s[0]) {
        assert rest[j] in multiset(rest);
        assert rest[j] == x || rest[j] in multiset(s[1..]);
      }
    } else if s != [] {
      forall j | 0 <= j < |s| ensures !less(s[j], x) {
        assert j == 0 || !less(s[j], s[0]);
      }
    }
  }

  /** Stands for the library sorts: a permutation in order. */
  function SortBy<T(==)>(less: (T, T) -> bool, s: seq<T>): (r: seq<T>)
    ensures multiset(r) == multiset(s)
  {
    if s == [] then [] else
      assert s == [s[0]] + s[1..];
      Insert(less, s[0], SortBy(less, s[1..]))
  }

  lemma {:induction false} SortByOrders<T(!new)>(less: (T, T) -> bool, s: seq<T>)
    requires Orders(less)
    ensures InOrder(less, SortBy(less, s))
  {
    if s == [] {
    } else {
      SortByOrders(less, s[1..]);
      InsertKeepsOrder(less, s[0], SortBy(less, s[1..]));
    }
  }
}
