/** Merging timelines that hold any events of one error log, not just stretches of it (types/timeline.go,
    MergeTimeline): what the merge keeps, and when it keeps everything. */
module MergeSubsets {
  import opened LogTypes
  import opened MergeTimeline

  /** The events of the log with the given positions, from position `k` on. */
  function KeptFrom(log: Timeline, s: set<nat>, k: nat): Timeline
    requires k <= |log|
    decreases |log| - k
  {
    if k == |log| then [] else (if k in s then [log[k]] else []) + KeptFrom(log, s, k + 1)
  }

  /** The timeline holds the events of the log with the given positions, in order. */
  ghost predicate Holds(t: Timeline, log: Timeline, s: set<nat>) {
    SameEvents(t, KeptFrom(log, s, 0))
  }

  /** Positions of the log, from `lo` to `hi`. */
  ghost predicate Positions(log: Timeline, s: set<nat>, lo: nat, hi: nat) {
    lo in s && hi in s && hi < |log| && forall i :: i in s ==> lo <= i <= hi
  }

  lemma {:induction false} KeptNone(log: Timeline, s: set<nat>, k: nat)
    requires k <= |log| && forall i :: i in s ==> i < k
    ensures KeptFrom(log, s, k) == []
    decreases |log| - k
  {
    if k == |log| {
    } else {
      KeptNone(log, s, k + 1);
    }
  }

  lemma {:induction false} KeptFirst(log: Timeline, s: set<nat>, lo: nat, k: nat)
    requires k <= lo < |log| && lo in s && forall i :: i in s ==> lo <= i
    ensures KeptFrom(log, s, k) != [] && KeptFrom(log, s, k)[0] == log[lo]
    decreases |log| - k
  {
    if k == lo {
    } else {
      KeptFirst(log, s, lo, k + 1);
    }
  }

  lemma {:induction false} KeptLast(log: Timeline, s: set<nat>, hi: nat, k: nat)
    requires k <= hi < |log| && hi in s && forall i :: i in s ==> i <= hi
    ensures var kept := KeptFrom(log, s, k); kept != [] && kept[|kept| - 1] == log[hi]
    decreases |log| - k
  {
    if k == hi {
      KeptNone(log, s, k + 1);
    } else {
      KeptLast(log, s, hi, k + 1);
    }
  }

  ghost function From(s: set<nat>, k: nat): set<nat> { set i | i in s && k <= i }

  lemma {:induction false} KeptLength(log: Timeline, s: set<nat>, k: nat)
    requires k <= |log| && forall i :: i in s ==> i < |log|
    ensures |KeptFrom(log, s, k)| == |From(s, k)|
    decreases |log| - k
  {
    if k == |log| {
      assert From(s, k) == {};
    } else {
      KeptLength(log, s, k + 1);
      if k in s {
        assert From(s, k) == From(s, k + 1) + {k};
      } else {
        assert From(s, k) == From(s, k + 1);
      }
    }
  }

  lemma HeldLength(t: Timeline, log: Timeline, s: set<nat>)
    requires Holds(t, log, s) && forall i :: i in s ==> i < |log|
    ensures |t| == |s|
  {
    KeptLength(log, s, 0);
    assert s == From(s, 0);
  }

  lemma HeldTimes(t: Timeline, log: Timeline, s: set<nat>, lo: nat, hi: nat)
    requires ErrorLog(log) && Holds(t, log, s) && Positions(log, s, lo, hi)
    ensures t != [] && FirstTime(t) == log[lo].date.value && LastTime(t) == log[hi].date.value
  {
    var kept := KeptFrom(log, s, 0);
    KeptFirst(log, s, lo, 0);
    KeptLast(log, s, hi, 0);
    assert SameEvent(t[0], kept[0]) && SameEvent(t[|t| - 1], kept[|t| - 1]);
  }

  ghost function Behind(s: set<nat>, j: nat): set<nat> { set i | i in s && j < i }

  lemma {:induction false} SameBehind(log: Timeline, s: set<nat>, s': set<nat>, k: nat)
    requires k <= |log| && forall i :: k <= i < |log| ==> (i in s <==> i in s')
    ensures KeptFrom(log, s, k) == KeptFrom(log, s', k)
    decreases |log| - k
  {
    if k == |log| {
    } else {
      SameBehind(log, s, s', k + 1);
    }
  }

  /** Cutting keeps the events behind the cut. */
  lemma {:induction false} CutKept(t: Timeline, log: Timeline, s: set<nat>, k: nat, j: nat)
    requires ErrorLog(log) && k <= |log| && j < |log| && SameEvents(t, KeptFrom(log, s, k))
    ensures SameEvents(Cut(t, log[j].date.value), KeptFrom(log, Behind(s, j), k))
    decreases |log| - k
  {
    if k == |log| {
    } else if k !in s {
      CutKept(t, log, s, k + 1, j);
    } else {
      assert SameEvent(t[0], KeptFrom(log, s, k)[0]);
      TimesOfLog(log, j, k);
      if j < k {
        SameBehind(log, s, Behind(s, j), k);
      } else {
        var kept, rest := KeptFrom(log, s, k), KeptFrom(log, s, k + 1);
        forall i | 0 <= i < |rest| ensures SameEvent(t[1..][i], rest[i]) {
          assert SameEvent(t[i + 1], kept[i + 1]);
        }
        CutKept(t[1..], log, s, k + 1, j);
      }
    }
  }

  lemma {:induction false} KeptJoin(log: Timeline, s: set<nat>, s': set<nat>, k: nat)
    requires k <= |log| && forall i, j :: i in s && j in s' ==> i < j
    ensures KeptFrom(log, s, k) + KeptFrom(log, s', k) == KeptFrom(log, s + s', k)
    decreases |log| - k
  {
    if k == |log| {
    } else if k in s' {
      KeptNone(log, s, k);
      SameBehind(log, s', s + s', k);
    } else {
      KeptJoin(log, s, s', k + 1);
    }
  }

  lemma HeldAppended(t: Timeline, t': Timeline, kept: Timeline, kept': Timeline)
    requires t != [] && t' != [] && SameEvents(t, kept) && SameEvents(t', kept')
    ensures SameEvents(Appended(t, t'), kept + kept')
  {
  }

  /** The positions that a merge keeps, of two timelines the first of which does not start later. */
  ghost function Merged(s: set<nat>, lo: nat, hi: nat, s': set<nat>, lo': nat, hi': nat): set<nat> {
    if lo == lo' then (if hi < hi' then s' else s)
    else if hi' <= hi then s
    else s + Behind(s', hi)
  }

  lemma MergeInOrderHolds(log: Timeline, t: Timeline, s: set<nat>, lo: nat, hi: nat,
                          t': Timeline, s': set<nat>, lo': nat, hi': nat)
    requires ErrorLog(log) && Holds(t, log, s) && Holds(t', log, s')
    requires Positions(log, s, lo, hi) && Positions(log, s', lo', hi') && lo <= lo'
    ensures lo == lo' || hi != lo' || hi' <= hi ==> Holds(Merge(t, t'), log, Merged(s, lo, hi, s', lo', hi'))
    ensures lo < lo' && hi == lo' && hi < hi' ==> |Merge(t, t')| == |s| + |s'|
  {
    HeldTimes(t, log, s, lo, hi);
    HeldTimes(t', log, s', lo', hi');
    TimesOfLog(log, lo, lo');
    TimesOfLog(log, hi, hi');
    TimesOfLog(log, lo', hi);
    if lo < lo' && hi < hi' {
      if lo' < hi {
        var rest := Cut(t', log[hi].date.value);
        CutKeepsLast(t', LastTime(t));
        CutKept(t', log, s', 0, hi);
        HeldAppended(t, rest, KeptFrom(log, s, 0), KeptFrom(log, Behind(s', hi), 0));
        KeptJoin(log, s, Behind(s', hi), 0);
      } else {
        HeldAppended(t, t', KeptFrom(log, s, 0), KeptFrom(log, s', 0));
        HeldLength(t, log, s);
        HeldLength(t', log, s');
        if hi < lo' {
          KeptJoin(log, s, s', 0);
          assert Behind(s', hi) == s';
        }
      }
    }
  }

  /** The later timeline shares just the last event of the earlier one, as its first. */
  predicate ShareEnd(lo: nat, hi: nat, lo': nat, hi': nat) {
    lo < lo' && hi == lo' && hi < hi'
  }

  lemma SharedCountsOnce(a: set<nat>, b: set<nat>, i: nat)
    requires i in a && i in b
    ensures |a + b| < |a| + |b|
  {
    assert i in a * b;
    assert |a + b| + |a * b| == |a| + |b|;
  }

  lemma SubsetOfSameSize(a: set<nat>, b: set<nat>)
    requires a <= b && |a| == |b|
    ensures a == b
  {
    assert b == a + (b - a);
    assert |b| == |a| + |b - a|;
  }

  lemma MergeInOrderIsUnion(log: Timeline, t: Timeline, s: set<nat>, lo: nat, hi: nat,
                            t': Timeline, s': set<nat>, lo': nat, hi': nat)
    requires ErrorLog(log) && Holds(t, log, s) && Holds(t', log, s')
    requires Positions(log, s, lo, hi) && Positions(log, s', lo', hi') && lo <= lo'
    ensures Holds(Merge(t, t'), log, s + s') <==>
      !ShareEnd(lo, hi, lo', hi') && Merged(s, lo, hi, s', lo', hi') == s + s'
  {
    MergeInOrderHolds(log, t, s, lo, hi, t', s', lo', hi');
    if hi == lo' {
      SharedCountsOnce(s, s', hi);
    }
    if Holds(Merge(t, t'), log, s + s') {
      HeldLength(Merge(t, t'), log, s + s');
      if !ShareEnd(lo, hi, lo', hi') {
        var kept := Merged(s, lo, hi, s', lo', hi');
        HeldLength(Merge(t, t'), log, kept);
        SubsetOfSameSize(kept, s + s');
      }
    }
  }

  /** What a merge can keep of the second timeline: of two that start together, the one that ends later holds
      the other; otherwise, up to its end, the first has everything that the second has. */
  ghost predicate NothingMissing(s: set<nat>, lo: nat, hi: nat, s': set<nat>, lo': nat, hi': nat) {
    if lo == lo' && hi < hi' then s <= s' else forall i :: i in s' && i <= hi ==> i in s
  }

  lemma MergedIsUnion(log: Timeline, s: set<nat>, lo: nat, hi: nat, s': set<nat>, lo': nat, hi': nat)
    requires Positions(log, s, lo, hi) && Positions(log, s', lo', hi') && lo <= lo'
    ensures Merged(s, lo, hi, s', lo', hi') == s + s' <==> NothingMissing(s, lo, hi, s', lo', hi')
  {
    var merged := Merged(s, lo, hi, s', lo', hi');
    if merged == s + s' {
      assert forall i :: i in s' ==> i in merged;
      assert forall i :: i in s ==> i in merged;
    }
  }

  /** Merging timelines of one log gives their ordered union, whichever comes first, exactly if the one that
      starts later does not just begin with the last event of the other, and nothing is missing from the
      timeline that the merge starts from. */
  lemma MergeIsUnionExactly(log: Timeline, t: Timeline, s: set<nat>, lo: nat, hi: nat,
                            t': Timeline, s': set<nat>, lo': nat, hi': nat)
    requires ErrorLog(log) && Holds(t, log, s) && Holds(t', log, s')
    requires Positions(log, s, lo, hi) && Positions(log, s', lo', hi')
    ensures Holds(Merge(t, t'), log, s + s') <==>
      if lo <= lo' then !ShareEnd(lo, hi, lo', hi') && NothingMissing(s, lo, hi, s', lo', hi')
      else !ShareEnd(lo', hi', lo, hi) && NothingMissing(s', lo', hi', s, lo, hi)
  {
    if lo <= lo' {
      MergeInOrderIsUnion(log, t, s, lo, hi, t', s', lo', hi');
      MergedIsUnion(log, s, lo, hi, s', lo', hi');
    } else {
      HeldTimes(t, log, s, lo, hi);
      HeldTimes(t', log, s', lo', hi');
      TimesOfLog(log, lo', lo);
      assert Merge(t, t') == Merge(t', t);
      MergeInOrderIsUnion(log, t', s', lo', hi', t, s, lo, hi);
      MergedIsUnion(log, s', lo', hi', s, lo, hi);
      assert s + s' == s' + s;
    }
  }

  // ---- a third file, merged into two with a gap between them

  function Range(from: nat, to: nat): (s: set<nat>)
    ensures forall i :: i in s <==> from <= i < to
  {
    if to <= from then {} else Range(from, to - 1) + {to - 1}
  }

  lemma {:induction false} KeptRange(log: Timeline, from: nat, to: nat, k: nat)
    requires from <= to <= |log| && k <= |log|
    ensures KeptFrom(log, Range(from, to), k) == if to <= k then [] else log[Max(from, k)..to]
    decreases |log| - k
  {
    if k == |log| {
    } else {
      KeptRange(log, from, to, k + 1);
      var rest := KeptFrom(log, Range(from, to), k + 1);
      if from <= k < to {
        assert KeptFrom(log, Range(from, to), k) == [log[k]] + rest;
        assert log[k..to] == [log[k]] + log[k + 1..to];
      } else {
        assert KeptFrom(log, Range(from, to), k) == [] + rest;
      }
    }
  }

  lemma WindowHolds(t: Timeline, log: Timeline, from: nat, to: nat)
    requires Window(t, log, from, to)
    ensures Holds(t, log, Range(from, to)) && Positions(log, Range(from, to), from, to - 1)
  {
    KeptRange(log, from, to, 0);
  }

  lemma TwoWindowsHold(log: Timeline, t1: Timeline, a: nat, b: nat, t2: Timeline, c: nat, d: nat)
    requires ErrorLog(log) && Window(t1, log, a, b) && Window(t2, log, c, d) && b < c
    ensures Holds(Merge(t1, t2), log, Range(a, b) + Range(c, d)) && Positions(log, Range(a, b) + Range(c, d), a, d - 1)
  {
    WindowHolds(t1, log, a, b);
    WindowHolds(t2, log, c, d);
    var first, second := Range(a, b), Range(c, d);
    assert Behind(second, b - 1) == second;
    MergeInOrderHolds(log, t1, first, a, b - 1, t2, second, c, d - 1);
  }

  /** Something of the third file that lies in the gap is lost: it does not start before the first file,
      nor start with it and reach behind the second. */
  predicate LosesGap(a: nat, b: nat, c: nat, d: nat, from: nat, to: nat) {
    from < c && b < to && (a < from || (a == from && to <= d))
  }

  /** The third file shares just its last event with the first file, or just its first with the second. */
  predicate SharesEnd(a: nat, d: nat, from: nat, to: nat) {
    (from < a && to == a + 1) || (from + 1 == d && d < to)
  }

  lemma ThirdBehind(a: nat, b: nat, c: nat, d: nat, from: nat, to: nat)
    requires a < b < c < d && from < to && a <= from
    ensures var s, s' := Range(a, b) + Range(c, d), Range(from, to);
            NothingMissing(s, a, d - 1, s', from, to - 1) <==> !LosesGap(a, b, c, d, from, to)
  {
    if LosesGap(a, b, c, d, from, to) {
      var lost := Max(from, b);
      assert lost in Range(from, to) && lost !in Range(a, b) + Range(c, d);
    }
  }

  lemma ThirdBefore(a: nat, b: nat, c: nat, d: nat, from: nat, to: nat)
    requires a < b < c < d && from < to && from < a
    ensures var s, s' := Range(a, b) + Range(c, d), Range(from, to); NothingMissing(s', from, to - 1, s, a, d - 1)
  {
  }

  /** Merging a third file into two with a gap between them gives the union of the three exactly if nothing
      of it that lies in the gap is lost, and it does not share just an end event. */
  lemma ThirdFileExactly(log: Timeline, t1: Timeline, a: nat, b: nat, t2: Timeline, c: nat, d: nat,
                         t: Timeline, from: nat, to: nat)
    requires ErrorLog(log) && Window(t1, log, a, b) && Window(t2, log, c, d) && Window(t, log, from, to) && b < c
    ensures Holds(Merge(Merge(t1, t2), t), log, Range(a, b) + Range(c, d) + Range(from, to)) <==>
      !LosesGap(a, b, c, d, from, to) && !SharesEnd(a, d, from, to)
  {
    var s, s' := Range(a, b) + Range(c, d), Range(from, to);
    TwoWindowsHold(log, t1, a, b, t2, c, d);
    WindowHolds(t, log, from, to);
    MergeIsUnionExactly(log, Merge(t1, t2), s, a, d - 1, t, s', from, to - 1);
    if a <= from {
      ThirdBehind(a, b, c, d, from, to);
    } else {
      ThirdBefore(a, b, c, d, from, to);
    }
  }
}
