/** Merging the timelines of several log files of one node (types/timeline.go). */
module MergeTimeline {
  import opened Options
  import opened LogTypes

  type Timeline = seq<LogInfo>

  /** Only the dates of the error log count. */
  predicate Dated(li: LogInfo) {
    li.date.Some? && (li.logCtx.fileType == "error.log" || li.logCtx.fileType == "")
  }

  function FirstTime(l: Timeline): int {
    if l == [] then 0 else if Dated(l[0]) then l[0].date.value else FirstTime(l[1..])
  }

  function LastTime(l: Timeline): int {
    if l == [] then 0 else
      var last := l[|l| - 1];
      if Dated(last) then last.date.value else LastTime(l[..|l| - 1])
  }

  predicate After(li: LogInfo, at: int) {
    li.date.Some? && at < li.date.value
  }

  function Cut(l: Timeline, at: int): Timeline {
    if l == [] || After(l[0], at) then l else Cut(l[1..], at)
  }

  /** The events from the first one that is dated after `at`. */
  method CutTimelineAt(t: Timeline, at: int) returns (rest: Timeline)
    ensures rest == Cut(t, at)
  {
    var i := 0;
    while i < |t| && !After(t[i], at)
      invariant i <= |t| && Cut(t, at) == Cut(t[i..], at)
    {
      i := i + 1;
    }
    rest := t[i..];
  }

  /** `t1` followed by `t2`, whose last event takes over the context that `t1` ends with. */
  function Appended(t1: Timeline, t2: Timeline): Timeline
    requires t1 != [] && t2 != []
  {
    var last := t2[|t2| - 1];
    t1 + t2[|t2| - 1 := last.(logCtx := last.logCtx.Inherit(t1[|t1| - 1].logCtx))]
  }

  lemma {:induction false} CutStops(t: Timeline, at: int, k: nat)
    requires k < |t| && After(t[k], at)
    ensures Cut(t, at) != []
  {
    if After(t[0], at) {
    } else {
      CutStops(t[1..], at, k - 1);
    }
  }

  lemma {:induction false} NoDateNoTime(t: Timeline)
    ensures (forall k :: 0 <= k < |t| ==> !Dated(t[k])) ==> FirstTime(t) == 0
  {
    if t == [] {
    } else {
      NoDateNoTime(t[1..]);
    }
  }

  /** The last time is that of some event, or there is no dated event at all. */
  lemma {:induction false} LastTimeIsSomeTime(t: Timeline)
    ensures (exists k :: 0 <= k < |t| && Dated(t[k]) && t[k].date.value == LastTime(t))
         || (LastTime(t) == 0 && forall k :: 0 <= k < |t| ==> !Dated(t[k]))
    ensures (forall k :: 0 <= k < |t| ==> !Dated(t[k])) ==> FirstTime(t) == 0
  {
    if t == [] {
    } else {
      var front := t[..|t| - 1];
      LastTimeIsSomeTime(front);
      if !Dated(t[|t| - 1])
         && exists k :: 0 <= k < |front| && Dated(front[k]) && front[k].date.value == LastTime(front) {
        var k :| 0 <= k < |front| && Dated(front[k]) && front[k].date.value == LastTime(front);
        assert t[k] == front[k];
      }
      NoDateNoTime(t);
    }
  }

  lemma {:induction false} CutKeepsLast(t: Timeline, at: int)
    requires FirstTime(t) < at < LastTime(t)
    ensures Cut(t, at) != []
  {
    if k :| 0 <= k < |t| && After(t[k], at) {
      CutStops(t, at, k);
    } else {
      LastTimeIsSomeTime(t);
    }
  }

  /** MergeTimeline.  Swapping the arguments happens at most once, and the index of the last event
      of the cut timeline is always in range. */
  function Merge(t1: Timeline, t2: Timeline): Timeline
    decreases FirstTime(t1) > FirstTime(t2)
  {
    if t1 == [] then t2
    else if t2 == [] then t1
    else if FirstTime(t1) > FirstTime(t2) then Merge(t2, t1)
    else if FirstTime(t1) == FirstTime(t2) then (if LastTime(t1) < LastTime(t2) then t2 else t1)
    else if LastTime(t1) >= LastTime(t2) then t1
    else if LastTime(t1) > FirstTime(t2) then
      CutKeepsLast(t2, LastTime(t1));
      Appended(t1, Cut(t2, LastTime(t1)))
    else Appended(t1, t2)
  }

  /** The same event, whatever the context that came with it. */
  predicate SameEvent(a: LogInfo, b: LogInfo) {
    a.(logCtx := b.logCtx) == b && a.logCtx.fileType == b.logCtx.fileType
  }

  predicate SameEvents(a: Timeline, b: Timeline) {
    |a| == |b| && forall i :: 0 <= i < |a| ==> SameEvent(a[i], b[i])
  }

  /** An error log: every event is dated, and no two at the same time. */
  predicate ErrorLog(log: Timeline) {
    && (forall i :: 0 <= i < |log| ==> Dated(log[i]))
    && (forall i, j :: 0 <= i < j < |log| ==> log[i].date.value < log[j].date.value)
  }

  /** A file that holds the events `a` to `b` of the log. */
  predicate Window(t: Timeline, log: Timeline, a: nat, b: nat) {
    a < b <= |log| && SameEvents(t, log[a..b])
  }

  lemma WindowTimes(t: Timeline, log: Timeline, a: nat, b: nat)
    requires ErrorLog(log) && Window(t, log, a, b)
    ensures t != [] && FirstTime(t) == log[a].date.value && LastTime(t) == log[b - 1].date.value
  {
    assert SameEvent(t[0], log[a..b][0]) && SameEvent(t[|t| - 1], log[a..b][|t| - 1]);
  }

  lemma {:induction false} CutWindow(t: Timeline, log: Timeline, c: nat, d: nat, k: nat)
    requires ErrorLog(log) && Window(t, log, c, d) && c <= k < d
    ensures k + 1 < d ==> Window(Cut(t, log[k].date.value), log, k + 1, d)
    decreases d - c
  {
    var at := log[k].date.value;
    assert SameEvent(t[0], log[c..d][0]);
    if k + 1 == d {
    } else {
      assert log[c..d][1..] == log[c + 1..d];
      assert forall i :: 0 <= i < |t[1..]| ==> SameEvent(t[1..][i], log[c..d][i + 1]);
      if c < k {
        CutWindow(t[1..], log, c + 1, d, k);
      } else {
        assert After(t[1], at) by { assert SameEvent(t[1], log[c..d][1]); }
        assert Cut(t[1..], at) == t[1..];
      }
    }
  }

  lemma AppendedWindows(t1: Timeline, t2: Timeline, log: Timeline, a: nat, b: nat, c: nat, d: nat)
    requires Window(t1, log, a, b) && Window(t2, log, c, d)
    ensures SameEvents(Appended(t1, t2), log[a..b] + log[c..d])
  {
  }

  predicate Covered(a: nat, b: nat, c: nat, d: nat, k: int) {
    a <= k < b || c <= k < d
  }

  /** The events of the log that lie in at least one of two windows. */
  function Union(log: Timeline, a: nat, b: nat, c: nat, d: nat, k: nat): Timeline
    requires k <= |log|
  {
    if k == 0 then [] else
      Union(log, a, b, c, d, k - 1) + if Covered(a, b, c, d, k - 1) then [log[k - 1]] else []
  }

  lemma {:induction false} UnionIsSymmetric(log: Timeline, a: nat, b: nat, c: nat, d: nat, k: nat)
    requires k <= |log|
    ensures Union(log, a, b, c, d, k) == Union(log, c, d, a, b, k)
  {
    if k == 0 {
    } else {
      UnionIsSymmetric(log, a, b, c, d, k - 1);
    }
  }

  /** A stretch that is in the windows, or outside of them. */
  lemma {:induction false} UnionStretch(log: Timeline, a: nat, b: nat, c: nat, d: nat, from: nat, to: nat, inside: bool)
    requires from <= to <= |log|
    requires forall k :: from <= k < to ==> (inside <==> Covered(a, b, c, d, k))
    ensures Union(log, a, b, c, d, to) == Union(log, a, b, c, d, from) + if inside then log[from..to] else []
  {
    if from == to {
    } else {
      UnionStretch(log, a, b, c, d, from, to - 1, inside);
      assert log[from..to] == log[from..to - 1] + [log[to - 1]];
    }
  }

  function Max(a: nat, b: nat): nat { if a < b then b else a }

  function Later(b: nat, c: nat, d: nat): nat { if d <= b then d else Max(b, c) }

  /** The union of two windows, the first of which does not start later. */
  lemma UnionOfWindows(log: Timeline, a: nat, b: nat, c: nat, d: nat)
    requires a < b <= |log| && c < d <= |log| && a <= c
    ensures Union(log, a, b, c, d, |log|) == log[a..b] + log[Later(b, c, d)..d]
  {
    UnionStretch(log, a, b, c, d, 0, a, false);
    UnionStretch(log, a, b, c, d, a, b, true);
    assert Union(log, a, b, c, d, b) == log[a..b];
    if b < d {
      UnionStretch(log, a, b, c, d, b, Max(b, c), false);
      assert Union(log, a, b, c, d, Max(b, c)) == log[a..b];
      UnionStretch(log, a, b, c, d, Max(b, c), d, true);
    } else {
      assert log[d..d] == [];
    }
    UnionStretch(log, a, b, c, d, Max(b, d), |log|, false);
  }

  /** The windows share exactly one event, the last of one and the first of the other, and neither
      holds the other. */
  predicate ShareOneEvent(a: nat, b: nat, c: nat, d: nat) {
    (a < c && b < d && c + 1 == b) || (c < a && d < b && a + 1 == d)
  }

  lemma TimesOfLog(log: Timeline, i: nat, j: nat)
    requires ErrorLog(log) && i < |log| && j < |log|
    ensures log[i].date.value < log[j].date.value <==> i < j
    ensures log[i].date.value == log[j].date.value <==> i == j
  {
  }

  /** What the merge of two windows holds, the first of which does not start later. */
  function MergedWindows(log: Timeline, a: nat, b: nat, c: nat, d: nat): Timeline
    requires a < b <= |log| && c < d <= |log| && a <= c
  {
    if ShareOneEvent(a, b, c, d) then log[a..b] + log[c..d] else log[a..b] + log[Later(b, c, d)..d]
  }

  lemma MergeHolding(log: Timeline, t1: Timeline, a: nat, b: nat, t2: Timeline, c: nat, d: nat)
    requires ErrorLog(log) && Window(t1, log, a, b) && Window(t2, log, c, d) && a <= c
    requires a == c || d <= b
    ensures Merge(t1, t2) == if b < d then t2 else t1
  {
    WindowTimes(t1, log, a, b);
    WindowTimes(t2, log, c, d);
    TimesOfLog(log, a, c);
    TimesOfLog(log, b - 1, d - 1);
  }

  lemma OverlapTimes(log: Timeline, t1: Timeline, a: nat, b: nat, t2: Timeline, c: nat, d: nat)
    requires ErrorLog(log) && Window(t1, log, a, b) && Window(t2, log, c, d)
    requires a < c && b < d
    ensures t1 != [] && t2 != [] && FirstTime(t1) < FirstTime(t2) && LastTime(t1) < LastTime(t2)
    ensures LastTime(t1) == log[b - 1].date.value
    ensures LastTime(t1) > FirstTime(t2) <==> c + 1 < b
  {
    WindowTimes(t1, log, a, b);
    WindowTimes(t2, log, c, d);
    TimesOfLog(log, a, c);
    TimesOfLog(log, b - 1, d - 1);
    TimesOfLog(log, c, b - 1);
  }

  lemma MergeOverlapping(log: Timeline, t1: Timeline, a: nat, b: nat, t2: Timeline, c: nat, d: nat)
    requires ErrorLog(log) && Window(t1, log, a, b) && Window(t2, log, c, d)
    requires a < c && b < d
    ensures LastTime(t1) == log[b - 1].date.value
    ensures var rest := if c + 1 < b then Cut(t2, LastTime(t1)) else t2;
            t1 != [] && rest != [] && Merge(t1, t2) == Appended(t1, rest)
  {
    OverlapTimes(log, t1, a, b, t2, c, d);
    if c + 1 < b {
      CutKeepsLast(t2, LastTime(t1));
    }
  }

  lemma AppendedRest(log: Timeline, t1: Timeline, a: nat, b: nat, t2: Timeline, c: nat, d: nat, rest: Timeline)
    requires ErrorLog(log) && Window(t1, log, a, b) && Window(t2, log, c, d) && a < c && b < d
    requires rest != [] && rest == if c + 1 < b then Cut(t2, log[b - 1].date.value) else t2
    ensures SameEvents(Appended(t1, rest), MergedWindows(log, a, b, c, d))
  {
    if c + 1 < b {
      CutWindow(t2, log, c, d, b - 1);
      AppendedWindows(t1, rest, log, a, b, b, d);
    } else {
      AppendedWindows(t1, rest, log, a, b, c, d);
    }
  }

  lemma MergedHolding(log: Timeline, a: nat, b: nat, c: nat, d: nat)
    requires a < b <= |log| && c < d <= |log| && a <= c && (a == c || d <= b)
    ensures MergedWindows(log, a, b, c, d) == if b < d then log[c..d] else log[a..b]
  {
    if b < d {
      assert log[a..b] + log[b..d] == log[a..d];
    } else {
      assert log[d..d] == [] && log[a..b] + [] == log[a..b];
    }
  }

  lemma MergeInOrder(log: Timeline, t1: Timeline, a: nat, b: nat, t2: Timeline, c: nat, d: nat)
    requires ErrorLog(log) && Window(t1, log, a, b) && Window(t2, log, c, d) && a <= c
    ensures SameEvents(Merge(t1, t2), MergedWindows(log, a, b, c, d))
  {
    if a == c || d <= b {
      MergeHolding(log, t1, a, b, t2, c, d);
      MergedHolding(log, a, b, c, d);
    } else {
      MergeOverlapping(log, t1, a, b, t2, c, d);
      AppendedRest(log, t1, a, b, t2, c, d, if c + 1 < b then Cut(t2, LastTime(t1)) else t2);
    }
  }

  lemma UnionLength(log: Timeline, a: nat, b: nat, c: nat, d: nat)
    requires a < b <= |log| && c < d <= |log| && a <= c
    ensures ShareOneEvent(a, b, c, d) ==> |MergedWindows(log, a, b, c, d)| == |Union(log, a, b, c, d, |log|)| + 1
    ensures !ShareOneEvent(a, b, c, d) ==> MergedWindows(log, a, b, c, d) == Union(log, a, b, c, d, |log|)
  {
    UnionOfWindows(log, a, b, c, d);
  }

  lemma MergeFlipped(log: Timeline, t1: Timeline, a: nat, b: nat, t2: Timeline, c: nat, d: nat)
    requires ErrorLog(log) && Window(t1, log, a, b) && Window(t2, log, c, d) && c < a
    ensures Merge(t1, t2) == Merge(t2, t1)
  {
    WindowTimes(t1, log, a, b);
    WindowTimes(t2, log, c, d);
    TimesOfLog(log, c, a);
  }

  /** Merging two windows of one log gives their ordered union, whichever comes first, exactly if
      they do not share a single event: then this event comes out twice. */
  lemma MergeIsUnion(log: Timeline, t1: Timeline, a: nat, b: nat, t2: Timeline, c: nat, d: nat)
    requires ErrorLog(log) && Window(t1, log, a, b) && Window(t2, log, c, d)
    ensures SameEvents(Merge(t1, t2), Union(log, a, b, c, d, |log|)) <==> !ShareOneEvent(a, b, c, d)
  {
    if a <= c {
      MergeInOrder(log, t1, a, b, t2, c, d);
      UnionLength(log, a, b, c, d);
    } else {
      MergeFlipped(log, t1, a, b, t2, c, d);
      MergeInOrder(log, t2, c, d, t1, a, b);
      UnionLength(log, c, d, a, b);
      UnionIsSymmetric(log, a, b, c, d, |log|);
    }
  }

  /** Whichever window comes first, the merge has the same events. */
  lemma OrderDoesNotMatter(log: Timeline, t1: Timeline, a: nat, b: nat, t2: Timeline, c: nat, d: nat)
    requires ErrorLog(log) && Window(t1, log, a, b) && Window(t2, log, c, d)
    ensures SameEvents(Merge(t1, t2), Merge(t2, t1))
  {
    if a < c {
      MergeFlipped(log, t2, c, d, t1, a, b);
    } else if c < a {
      MergeFlipped(log, t1, a, b, t2, c, d);
    } else {
      MergeHolding(log, t1, a, b, t2, c, d);
      MergeHolding(log, t2, c, d, t1, a, b);
      if b == d {
        var events := log[a..b];
        assert forall i :: 0 <= i < |events| ==> SameEvent(t1[i], events[i]) && SameEvent(t2[i], events[i]);
      }
    }
  }

  datatype File = File(events: Timeline, from: nat, to: nat)

  /** The files of one log, one after the other: each holds a window that starts no later than the
      events known so far end, and that does not share just the last of them. */
  predicate Chronological(log: Timeline, files: seq<File>, known: nat) {
    files == [] ||
    var file := files[0];
    && Window(file.events, log, file.from, file.to)
    && file.from <= known
    && !(known != 0 && ShareOneEvent(0, known, file.from, file.to))
    && Chronological(log, files[1..], Max(known, file.to))
  }

  function MergeAll(merged: Timeline, files: seq<File>): Timeline
    decreases |files|
  {
    if files == [] then merged else MergeAll(Merge(merged, files[0].events), files[1..])
  }

  function Known(files: seq<File>, known: nat): nat
    decreases |files|
  {
    if files == [] then known else Known(files[1..], Max(known, files[0].to))
  }

  lemma MergedPrefix(log: Timeline, known: nat, from: nat, to: nat)
    requires 0 < known <= |log| && from < to <= |log| && from <= known && !ShareOneEvent(0, known, from, to)
    ensures MergedWindows(log, 0, known, from, to) == log[..Max(known, to)]
  {
    if to <= known {
      assert log[to..to] == [] && log[0..known] == log[..known];
    } else {
      assert log[0..known] + log[known..to] == log[..to];
    }
  }

  /** Merging the files of a log one after the other rebuilds the log, up to the end of the file
      that reaches furthest. */
  lemma {:induction false} MergeAllRebuildsLog(log: Timeline, merged: Timeline, files: seq<File>, known: nat)
    requires ErrorLog(log) && known <= |log| && SameEvents(merged, log[..known])
    requires Chronological(log, files, known)
    ensures Known(files, known) <= |log| && SameEvents(MergeAll(merged, files), log[..Known(files, known)])
    decreases |files|
  {
    if files == [] {
    } else {
      var file := files[0];
      if known != 0 {
        assert log[0..known] == log[..known];
        MergeInOrder(log, merged, 0, known, file.events, file.from, file.to);
        var to := Max(known, file.to);
        MergedPrefix(log, known, file.from, file.to);
      } else {
        assert merged == [] && log[0..file.to] == log[..file.to];
      }
      MergeAllRebuildsLog(log, Merge(merged, file.events), files[1..], Max(known, file.to));
    }
  }

  /** The order matters: a file that falls in a gap between two files already merged is dropped. */
  lemma FileInGapIsLost(log: Timeline, t1: Timeline, a: nat, b: nat, t2: Timeline, c: nat, d: nat,
                        t: Timeline, from: nat, to: nat)
    requires ErrorLog(log) && Window(t1, log, a, b) && Window(t2, log, c, d) && Window(t, log, from, to)
    requires b <= from && to <= c
    ensures Merge(Merge(t1, t2), t) == Merge(t1, t2)
    ensures SameEvents(Merge(Merge(t1, t2), t), log[a..b] + log[c..d])
  {
    MergeInOrder(log, t1, a, b, t2, c, d);
    WindowTimes(t1, log, a, b);
    WindowTimes(t2, log, c, d);
    WindowTimes(t, log, from, to);
    TimesOfLog(log, a, from);
    TimesOfLog(log, to - 1, d - 1);
    var merged, both := Merge(t1, t2), log[a..b] + log[c..d];
    assert SameEvent(merged[0], both[0]) && SameEvent(merged[|merged| - 1], both[|both| - 1]);
  }

  // ---- the contexts of a merge

  lemma {:induction false} CutIsSuffix(t: Timeline, at: int)
    ensures |Cut(t, at)| <= |t| && Cut(t, at) == t[|t| - |Cut(t, at)|..]
  {
    if t == [] || After(t[0], at) {
    } else {
      CutIsSuffix(t[1..], at);
    }
  }

  /** What the last event of a timeline knows is what was known before, followed by what it knew itself. */
  predicate Knows(ctx: LogCtx, before: LogCtx, own: LogCtx) {
    && ctx.ownIPs == before.ownIPs + own.ownIPs
    && ctx.ownHashes == before.ownHashes + own.ownHashes
    && ctx.ownNames == before.ownNames + own.ownNames
    && ctx.conflicts == before.conflicts + own.conflicts
    && (own.version != "" ==> ctx.version == own.version)
    && (own.version == "" ==> ctx.version == before.version)
    && ctx.filePath == own.filePath && ctx.fileType == own.fileType
  }

  /** Whether the merge appends `t2` to `t1`. */
  predicate Appends(t1: Timeline, t2: Timeline) {
    t1 != [] && t2 != [] && FirstTime(t1) < FirstTime(t2) && LastTime(t1) < LastTime(t2)
  }

  /** Where one timeline is appended to another, the merge is all of the first and the end of the second, event
      by event and with their contexts, except that the last event also knows what the first one ends with. */
  lemma ContextsOfMerge(t1: Timeline, t2: Timeline)
    requires Appends(t1, t2)
    ensures var m := Merge(t1, t2);
            && Merge(t2, t1) == m
            && |t1| < |m| <= |t1| + |t2|
            && (forall i :: 0 <= i < |t1| ==> m[i] == t1[i])
            && (forall i :: |t1| <= i < |m| - 1 ==> m[i] == t2[|t2| - |m| + i])
            && SameEvent(m[|m| - 1], t2[|t2| - 1])
            && Knows(m[|m| - 1].logCtx, t1[|t1| - 1].logCtx, t2[|t2| - 1].logCtx)
  {
    if LastTime(t1) > FirstTime(t2) {
      CutKeepsLast(t2, LastTime(t1));
      CutIsSuffix(t2, LastTime(t1));
    }
  }

  /** Otherwise it is one of the two as it was, with all its contexts. */
  lemma ContextsStay(t1: Timeline, t2: Timeline)
    requires !Appends(t1, t2) && !Appends(t2, t1)
    ensures Merge(t1, t2) == t1 || Merge(t1, t2) == t2
    ensures t1 != [] && t2 != [] ==>
              FirstTime(Merge(t1, t2)) <= FirstTime(t1) && FirstTime(Merge(t1, t2)) <= FirstTime(t2)
              && LastTime(Merge(t1, t2)) >= LastTime(t1) && LastTime(Merge(t1, t2)) >= LastTime(t2)
  {
  }

  /** The value that a list ends with, "" if there is none. */
  function LastOf(values: seq<string>): string {
    if values == [] then "" else values[|values| - 1]
  }

  /** What is known last is what the later file knew last, or what the earlier one did if it knew nothing. */
  lemma LatestIsKept(log: Timeline, t1: Timeline, a: nat, b: nat, t2: Timeline, c: nat, d: nat)
    requires ErrorLog(log) && Window(t1, log, a, b) && Window(t2, log, c, d) && a < c && b < d
    ensures t1 != [] && t2 != [] && Merge(t1, t2) != [] && Merge(t2, t1) == Merge(t1, t2)
    ensures var ctx, before, own :=
              Merge(t1, t2)[|Merge(t1, t2)| - 1].logCtx, t1[|t1| - 1].logCtx, t2[|t2| - 1].logCtx;
            && LastOf(ctx.ownIPs) == LastOf(if own.ownIPs != [] then own.ownIPs else before.ownIPs)
            && LastOf(ctx.ownNames) == LastOf(if own.ownNames != [] then own.ownNames else before.ownNames)
            && LastOf(ctx.ownHashes) == LastOf(if own.ownHashes != [] then own.ownHashes else before.ownHashes)
  {
    OverlapTimes(log, t1, a, b, t2, c, d);
    ContextsOfMerge(t1, t2);
  }

  // ---- what counts as a time

  /** The times of a timeline are those of the first and the last event that have a date and come from an error
      log, or from a file of no known type. */
  lemma {:induction false} TimesOfEvents(t: Timeline, i: nat, j: nat)
    requires i < |t| && j < |t|
    requires t[i].date.Some? && t[i].logCtx.fileType in {"error.log", ""}
    requires t[j].date.Some? && t[j].logCtx.fileType in {"error.log", ""}
    requires forall k :: 0 <= k < i ==> t[k].date.None? || t[k].logCtx.fileType !in {"error.log", ""}
    requires forall k :: j < k < |t| ==> t[k].date.None? || t[k].logCtx.fileType !in {"error.log", ""}
    ensures FirstTime(t) == t[i].date.value && LastTime(t) == t[j].date.value
    decreases |t|
  {
    if 0 < i {
      TimesOfEvents(t[1..], i - 1, j - 1);
    }
    if j < |t| - 1 {
      TimesOfEvents(t[..|t| - 1], i, j);
    }
  }
}
