/** Compressing repeated events while a timeline is built (types/timeline.go, Add;
    types/loginfo.go, IsDuplicatedEvent).  The message of an event is taken not to change. */
module RunLength {
  import opened Options
  import opened LogTypes

  /** Both events are shown, by the same regex, with the same message. */
  predicate Same(a: LogInfo, b: LogInfo) {
    a.regexUsed == b.regexUsed && a.message.Some? && b.message.Some? && a.message == b.message
  }

  predicate IsDuplicatedEvent(base: LogInfo, previous: LogInfo, current: LogInfo) {
    && base.regexUsed == previous.regexUsed
    && base.message.Some?
    && previous.message.Some?
    && current.message.Some?
    && base.message == previous.message
    && previous.regexUsed == current.regexUsed
    && previous.message == current.message
  }

  type DuplicateTest = (LogInfo, LogInfo, LogInfo) -> bool

  /** The timeline after one more event, for any test of what is a duplicate. */
  function Added(dup: DuplicateTest, lt: seq<LogInfo>, li: LogInfo): seq<LogInfo> {
    var n := |lt|;
    if 1 < n && dup(lt[n - 2], lt[n - 1], li) then
      lt[..n - 2] + [lt[n - 2].(repetitionCount := lt[n - 2].repetitionCount + 1), li]
    else
      lt + [li]
  }

  function AddAll(dup: DuplicateTest, events: seq<LogInfo>): seq<LogInfo> {
    if events == [] then [] else Added(dup, AddAll(dup, events[..|events| - 1]), events[|events| - 1])
  }

  class LocalTimeline {
    var lt: seq<LogInfo>

    constructor ()
      ensures lt == []
    {
      lt := [];
    }

    /** Keeps two events of a repetition: the first, which counts the events left out, and the last. */
    method Add(li: LogInfo)
      modifies this
      ensures lt == Added(IsDuplicatedEvent, old(lt), li)
    {
      if 1 < |lt| && IsDuplicatedEvent(lt[|lt| - 2], lt[|lt| - 1], li) {
        lt := lt[|lt| - 2 := lt[|lt| - 2].(repetitionCount := lt[|lt| - 2].repetitionCount + 1)];
        lt := lt[|lt| - 1 := li];
      } else {
        lt := lt + [li];
      }
    }
  }

  /** Events come in with no repetition counted. */
  predicate Fresh(events: seq<LogInfo>) {
    forall i :: 0 <= i < |events| ==> events[i].repetitionCount == 0
  }

  /** The events an entry of the timeline stands for, summed up. */
  function Total(lt: seq<LogInfo>): nat {
    if lt == [] then 0 else Total(lt[..|lt| - 1]) + 1 + lt[|lt| - 1].repetitionCount
  }

  /** Whatever is taken for a duplicate, no event is lost from the count. */
  lemma {:induction false} TotalIsAdds(dup: DuplicateTest, events: seq<LogInfo>)
    requires Fresh(events)
    ensures Total(AddAll(dup, events)) == |events|
    ensures events != [] ==>
              AddAll(dup, events) != [] && AddAll(dup, events)[|AddAll(dup, events)| - 1] == events[|events| - 1]
  {
    if events == [] {
    } else {
      var front, li := events[..|events| - 1], events[|events| - 1];
      TotalIsAdds(dup, front);
      var lt, lt' := AddAll(dup, front), AddAll(dup, events);
      var n := |lt|;
      if 1 < n && dup(lt[n - 2], lt[n - 1], li) {
        assert lt[..n - 1][..n - 2] == lt[..n - 2];
        assert lt'[..n - 1] == lt[..n - 2] + [lt'[n - 2]];
        assert lt'[..n - 1][..n - 2] == lt[..n - 2];
      } else {
        assert lt'[..n] == lt;
      }
    }
  }

  /** A non-empty run of equal events, as they come in. */
  ghost predicate IsRun(run: seq<LogInfo>) {
    && run != []
    && (forall i :: 0 <= i < |run| ==> run[i].repetitionCount == 0)
    && (forall i :: 0 < i < |run| ==> Same(run[0], run[i]))
  }

  function Last(run: seq<LogInfo>): LogInfo
    requires run != []
  {
    run[|run| - 1]
  }

  /** The runs after one more event, which continues the last run or starts a new one. */
  function Continued(runs: seq<seq<LogInfo>>, x: LogInfo): seq<seq<LogInfo>> {
    var n := |runs|;
    if n != 0 && runs[n - 1] != [] && Same(Last(runs[n - 1]), x) then runs[..n - 1] + [runs[n - 1] + [x]]
    else runs + [[x]]
  }

  function Runs(events: seq<LogInfo>): seq<seq<LogInfo>> {
    if events == [] then [] else Continued(Runs(events[..|events| - 1]), events[|events| - 1])
  }

  function Join(runs: seq<seq<LogInfo>>): seq<LogInfo> {
    if runs == [] then [] else Join(runs[..|runs| - 1]) + runs[|runs| - 1]
  }

  /** Runs, none of which continues the one before it. */
  ghost predicate Maximal(runs: seq<seq<LogInfo>>) {
    runs == [] ||
    var front, run := runs[..|runs| - 1], runs[|runs| - 1];
    && Maximal(front)
    && IsRun(run)
    && (front != [] ==> !Same(Last(front[|front| - 1]), run[0]))
  }

  lemma MaximalNext(front: seq<seq<LogInfo>>, run: seq<LogInfo>)
    requires Maximal(front) && IsRun(run)
    requires front != [] ==> !Same(Last(front[|front| - 1]), run[0])
    ensures Maximal(front + [run]) && Join(front + [run]) == Join(front) + run
  {
    var runs := front + [run];
    assert runs[..|runs| - 1] == front && runs[|runs| - 1] == run;
  }

  lemma LongerRun(run: seq<LogInfo>, x: LogInfo)
    requires IsRun(run) && x.repetitionCount == 0 && Same(Last(run), x)
    ensures IsRun(run + [x])
  {
    assert |run| > 1 ==> Same(run[0], run[|run| - 1]);
  }

  lemma ContinuedIsMaximal(runs: seq<seq<LogInfo>>, x: LogInfo)
    requires Maximal(runs) && x.repetitionCount == 0
    ensures Maximal(Continued(runs, x)) && Join(Continued(runs, x)) == Join(runs) + [x]
  {
    if runs != [] && Same(Last(runs[|runs| - 1]), x) {
      var front, run := runs[..|runs| - 1], runs[|runs| - 1];
      LongerRun(run, x);
      MaximalNext(front, run + [x]);
      assert Join(front) + (run + [x]) == (Join(front) + run) + [x];
    } else {
      MaximalNext(runs, [x]);
    }
  }

  lemma {:induction false} RunsAreMaximal(events: seq<LogInfo>)
    requires Fresh(events)
    ensures Join(Runs(events)) == events && Maximal(Runs(events))
  {
    if events == [] {
    } else {
      RunsAreMaximal(events[..|events| - 1]);
      ContinuedIsMaximal(Runs(events[..|events| - 1]), events[|events| - 1]);
    }
  }

  /** A run of one event is kept; of a longer run the first, counting those left out, and the last. */
  function Compressed(run: seq<LogInfo>): seq<LogInfo> {
    if |run| <= 1 then run else [run[0].(repetitionCount := |run| - 2), Last(run)]
  }

  function CompressedRuns(runs: seq<seq<LogInfo>>): seq<LogInfo> {
    if runs == [] then [] else CompressedRuns(runs[..|runs| - 1]) + Compressed(runs[|runs| - 1])
  }

  lemma LastCompressed(runs: seq<seq<LogInfo>>)
    requires Maximal(runs) && runs != []
    ensures CompressedRuns(runs) != [] && Last(CompressedRuns(runs)) == Last(runs[|runs| - 1])
  {
  }

  lemma AddToEvent(done: seq<LogInfo>, event: LogInfo, x: LogInfo)
    requires event.repetitionCount == 0 && (done != [] ==> !Same(Last(done), event))
    ensures Added(IsDuplicatedEvent, done + [event], x) == done + [event, x]
  {
    assert done != [] ==> !IsDuplicatedEvent(Last(done), event, x);
    assert done + [event] + [x] == done + [event, x];
  }

  lemma AddToLongRun(done: seq<LogInfo>, run: seq<LogInfo>, x: LogInfo)
    requires IsRun(run) && 1 < |run|
    ensures Added(IsDuplicatedEvent, done + Compressed(run), x)
         == if Same(Last(run), x) then done + Compressed(run + [x]) else done + Compressed(run) + [x]
  {
    var lt, first := done + Compressed(run), run[0].(repetitionCount := |run| - 2);
    assert lt[..|lt| - 2] == done && lt[|lt| - 2] == first && lt[|lt| - 1] == Last(run);
    assert Same(run[0], Last(run));
    assert Same(Last(run), x) <==> IsDuplicatedEvent(first, Last(run), x);
  }

  /** Adding an event after the compressed run `run`, which does not continue `done`. */
  lemma AddToRun(done: seq<LogInfo>, run: seq<LogInfo>, x: LogInfo)
    requires IsRun(run) && (done != [] ==> !Same(Last(done), run[0]))
    ensures Added(IsDuplicatedEvent, done + Compressed(run), x)
         == if Same(Last(run), x) then done + Compressed(run + [x]) else done + Compressed(run) + [x]
  {
    if |run| == 1 {
      AddToEvent(done, run[0], x);
    } else {
      AddToLongRun(done, run, x);
    }
  }

  lemma CompressedNext(front: seq<seq<LogInfo>>, run: seq<LogInfo>)
    ensures CompressedRuns(front + [run]) == CompressedRuns(front) + Compressed(run)
  {
    var runs := front + [run];
    assert runs[..|runs| - 1] == front && runs[|runs| - 1] == run;
  }

  lemma AddToRuns(runs: seq<seq<LogInfo>>, x: LogInfo)
    requires Maximal(runs) && x.repetitionCount == 0
    ensures Added(IsDuplicatedEvent, CompressedRuns(runs), x) == CompressedRuns(Continued(runs, x))
  {
    if runs == [] {
      CompressedNext([], [x]);
    } else {
      var front, run := runs[..|runs| - 1], runs[|runs| - 1];
      if front != [] {
        LastCompressed(front);
      }
      AddToRun(CompressedRuns(front), run, x);
      if Same(Last(run), x) {
        CompressedNext(front, run + [x]);
      } else {
        CompressedNext(runs, [x]);
      }
    }
  }

  /** Event by event, Add compresses exactly the maximal runs. */
  lemma {:induction false} AddCompressesRuns(events: seq<LogInfo>)
    requires Fresh(events)
    ensures AddAll(IsDuplicatedEvent, events) == CompressedRuns(Runs(events))
  {
    if events == [] {
    } else {
      var front := events[..|events| - 1];
      AddCompressesRuns(front);
      RunsAreMaximal(front);
      AddToRuns(Runs(front), events[|events| - 1]);
    }
  }

  /** What an event shows. */
  datatype Shown = Shown(regexUsed: string, message: Option<string>)

  function Key(li: LogInfo): Shown { Shown(li.regexUsed, li.message) }

  function Keys(events: seq<LogInfo>): (keys: seq<Shown>)
    ensures |keys| == |events|
  {
    seq(|events|, i requires 0 <= i < |events| => Key(events[i]))
  }

  /** The timeline with every entry repeated as often as it counts. */
  function Unfolded(lt: seq<LogInfo>): seq<Shown> {
    if lt == [] then [] else
      var last := lt[|lt| - 1];
      Unfolded(lt[..|lt| - 1]) + seq(last.repetitionCount + 1, i => Key(last))
  }

  lemma {:induction false} UnfoldedConcat(a: seq<LogInfo>, b: seq<LogInfo>)
    ensures Unfolded(a + b) == Unfolded(a) + Unfolded(b)
  {
    if b == [] {
      assert a + b == a;
    } else {
      assert (a + b)[..|a + b| - 1] == a + b[..|b| - 1];
      UnfoldedConcat(a, b[..|b| - 1]);
    }
  }

  lemma UnfoldedRun(run: seq<LogInfo>)
    requires IsRun(run)
    ensures Unfolded(Compressed(run)) == Keys(run)
  {
    var c := Compressed(run);
    assert c[..|c| - 1] == if |run| == 1 then [] else [c[0]];
    if |run| > 1 {
      assert [c[0]][..0] == [];
      assert Unfolded([c[0]]) == seq(|run| - 1, i => Key(c[0]));
    }
  }

  lemma KeysConcat(a: seq<LogInfo>, b: seq<LogInfo>)
    ensures Keys(a + b) == Keys(a) + Keys(b)
  {
  }

  lemma {:induction false} UnfoldedRuns(runs: seq<seq<LogInfo>>)
    requires Maximal(runs)
    ensures Unfolded(CompressedRuns(runs)) == Keys(Join(runs))
  {
    if runs == [] {
    } else {
      var front, run := runs[..|runs| - 1], runs[|runs| - 1];
      UnfoldedRuns(front);
      UnfoldedRun(run);
      UnfoldedConcat(CompressedRuns(front), Compressed(run));
      KeysConcat(Join(front), run);
    }
  }

  /** Repeating each entry as often as it counts gives back what was shown, event by event. */
  lemma CompressionIsLossless(events: seq<LogInfo>)
    requires Fresh(events)
    ensures Unfolded(AddAll(IsDuplicatedEvent, events)) == Keys(events)
  {
    AddCompressesRuns(events);
    RunsAreMaximal(events);
    UnfoldedRuns(Runs(events));
  }

  /** The timeline never shows three equal events in a row. */
  lemma {:induction false} NoThreeInARow(events: seq<LogInfo>, i: nat)
    ensures var lt := AddAll(IsDuplicatedEvent, events);
            i + 2 < |lt| ==> !(Same(lt[i], lt[i + 1]) && Same(lt[i + 1], lt[i + 2]))
  {
    if events == [] {
    } else {
      NoThreeInARow(events[..|events| - 1], i);
    }
  }
}
