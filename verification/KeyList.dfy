/** Sorted lists of names: sort.Strings, and the deduplicate of mongolib's fingerprinter.go. */
module KeyList {
  import opened Sorting

  /** The order of strings, character by character. */
  predicate Before(a: string, b: string) {
    b != "" && (a == "" || a[0] < b[0] || (a[0] == b[0] && Before(a[1..], b[1..])))
  }

  lemma {:induction false} BeforeOrders(a: string, b: string)
    ensures !(Before(a, b) && Before(b, a))
    ensures Before(a, b) || Before(b, a) || a == b
    ensures !Before(a, a)
  {
    if a == "" {
    } else if b == "" {
      BeforeOrders(a[1..], "");
    } else {
      BeforeOrders(a[1..], b[1..]);
      assert a == [a[0]] + a[1..] && b == [b[0]] + b[1..];
    }
  }

  lemma {:induction false} BeforeChains(a: string, b: string, c: string)
    requires Before(a, b) && Before(b, c)
    ensures Before(a, c)
  {
    if a == "" || !(a[0] == b[0] == c[0]) {
    } else {
      BeforeChains(a[1..], b[1..], c[1..]);
    }
  }

  ghost predicate Sorted(s: seq<string>) {
    forall i, j :: 0 <= i < j < |s| ==> s[i] == s[j] || Before(s[i], s[j])
  }

  ghost predicate StrictlySorted(s: seq<string>) {
    forall i, j :: 0 <= i < j < |s| ==> Before(s[i], s[j])
  }

  lemma NoMembers(s: seq<string>)
    ensures s == [] <==> forall key :: key !in s
  {
    if s != [] {
      assert s[0] in s;
    }
  }

  ghost predicate SameMembers(a: seq<string>, b: seq<string>) {
    forall key :: key in a <==> key in b
  }

  lemma SameHeads(a: seq<string>, b: seq<string>)
    requires StrictlySorted(a) && StrictlySorted(b) && SameMembers(a, b) && a != [] && b != []
    ensures a[0] == b[0]
  {
    assert a[0] in b && b[0] in a;
    BeforeOrders(a[0], b[0]);
  }

  lemma TailMembers(a: seq<string>, key: string)
    requires StrictlySorted(a) && a != []
    ensures key in a[1..] <==> key in a && key != a[0]
  {
    BeforeOrders(a[0], a[0]);
    if key in a && key != a[0] {
      var i :| 0 <= i < |a| && a[i] == key;
      assert a[1..][i - 1] == key;
    }
    assert forall i :: 0 <= i < |a| - 1 ==> a[1..][i] == a[i + 1];
  }

  lemma SameTails(a: seq<string>, b: seq<string>)
    requires StrictlySorted(a) && StrictlySorted(b) && SameMembers(a, b) && a != [] && b != []
    ensures SameMembers(a[1..], b[1..])
  {
    SameHeads(a, b);
    forall key ensures key in a[1..] <==> key in b[1..] {
      TailMembers(a, key);
      TailMembers(b, key);
    }
  }

  /** A strictly sorted list is the only one of its members. */
  lemma {:induction false} StrictlySortedUnique(a: seq<string>, b: seq<string>)
    requires StrictlySorted(a) && StrictlySorted(b) && SameMembers(a, b)
    ensures a == b
  {
    NoMembers(a);
    NoMembers(b);
    if a == [] {
    } else {
      SameHeads(a, b);
      SameTails(a, b);
      StrictlySortedUnique(a[1..], b[1..]);
      assert a == [a[0]] + a[1..] && b == [b[0]] + b[1..];
    }
  }

  lemma NotBeforeChains(a: string, b: string, c: string)
    requires !Before(b, a) && !Before(c, b)
    ensures !Before(c, a)
  {
    BeforeOrders(b, a);
    BeforeOrders(c, b);
    if Before(c, a) && a != b {
      BeforeChains(c, a, b);
    }
  }

  lemma BeforeIsOrder()
    ensures Orders(Before)
  {
    forall a, b | Before(a, b) ensures !Before(b, a) {
      BeforeOrders(a, b);
    }
    forall a, b, c | !Before(b, a) && !Before(c, b) ensures !Before(c, a) {
      NotBeforeChains(a, b, c);
    }
  }

  lemma InOrderIsSorted(s: seq<string>)
    requires InOrder(Before, s)
    ensures Sorted(s)
  {
    forall i, j | 0 <= i < j < |s| ensures s[i] == s[j] || Before(s[i], s[j]) {
      BeforeOrders(s[i], s[j]);
    }
  }

  function SortStrings(s: seq<string>): (r: seq<string>)
    ensures multiset(r) == multiset(s)
    ensures Sorted(r)
  {
    BeforeIsOrder();
    SortByOrders(Before, s);
    InOrderIsSorted(SortBy(Before, s));
    SortBy(Before, s)
  }

  /** The first occurrence of each string. */
  function Firsts(s: seq<string>): (r: seq<string>)
    ensures forall key :: key in r <==> key in s
  {
    if s == [] then []
    else
      var front := Firsts(s[..|s| - 1]);
      assert s == s[..|s| - 1] + [s[|s| - 1]];
      if s[|s| - 1] in front then front else front + [s[|s| - 1]]
  }

  method Deduplicate(s: seq<string>) returns (r: seq<string>)
    ensures r == Firsts(s)
  {
    var m: set<string> := {};
    r := [];
    for i := 0 to |s|
      invariant r == Firsts(s[..i])
      invariant forall key :: key in m <==> key in r
    {
      assert s[..i + 1][..i] == s[..i];
      if s[i] !in m {
        r := r + [s[i]];
        m := m + {s[i]};
      }
    }
    assert s[..|s|] == s;
  }

  /** Without its repetitions, a sorted list is strictly sorted. */
  lemma {:induction false} FirstsOfSorted(s: seq<string>)
    requires Sorted(s)
    ensures StrictlySorted(Firsts(s))
  {
    if s == [] {
    } else {
      var front, last := s[..|s| - 1], s[|s| - 1];
      FirstsOfSorted(front);
      if last !in Firsts(front) {
        forall i | 0 <= i < |Firsts(front)| ensures Before(Firsts(front)[i], last) {
          assert Firsts(front)[i] in front;
          var j :| 0 <= j < |front| && front[j] == Firsts(front)[i];
          assert s[j] == last || Before(s[j], last);
        }
      }
    }
  }

  /** strings.Join */
  function Join(parts: seq<string>, sep: string): string {
    if parts == [] then "" else if |parts| == 1 then parts[0] else parts[0] + sep + Join(parts[1..], sep)
  }
}
