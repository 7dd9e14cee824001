/** What every run of the worker pool comes to: where it can stop, how long it can be, and what it
    leaves in the archive. */
module WorkerPoolRuns {
  import opened Options
  import opened WorkerPool

  // ---- once closed, the channel takes no more pods

  lemma {:induction false} ClosedForGood(c: Config, run: seq<Step>)
    requires IsRun(c, run) && Close in run
    ensures Closed(After(c, run))
  {
    var front, step := run[..|run| - 1], run[|run| - 1];
    if step == Close {
    } else {
      assert run == front + [step];
      ClosedForGood(c, front);
    }
  }

  lemma {:induction false} PrefixIsRun(c: Config, run: seq<Step>, k: nat)
    requires IsRun(c, run) && k <= |run|
    ensures IsRun(c, run[..k])
  {
    if k < |run| {
      var front := run[..|run| - 1];
      PrefixIsRun(c, front, k);
      assert front[..k] == run[..k];
    } else {
      assert run[..k] == run;
    }
  }

  /** No send follows the close. */
  lemma NoSendAfterClose(c: Config, run: seq<Step>, i: nat, j: nat)
    requires IsRun(c, run) && i < j < |run| && run[i] == Close
    ensures run[j] != Send
  {
    PrefixIsRun(c, run, j + 1);
    var prefix := run[..j + 1];
    assert prefix[..j] == run[..j];
    assert run[..j][i] == Close;
    ClosedForGood(c, run[..j]);
  }

  // ---- where a run can stop

  /** DumpCluster has returned and every worker has left. */
  predicate Over(s: State) {
    (s.dispatcher.Done? || s.dispatcher.Failed?) && forall w :: 0 <= w < |s.workers| ==> s.workers[w].Exited?
  }

  /** The dispatcher blocks on a full channel that no worker reads any more. */
  predicate Abandoned(c: Config, s: State) {
    && s.dispatcher.Sending? && s.sent < c.pods && |s.queue| == c.capacity
    && forall w :: 0 <= w < |s.workers| ==> s.workers[w].Exited?
  }

  ghost predicate Stuck(c: Config, s: State) {
    forall step :: !Enabled(c, s, step)
  }

  /** A worker that has not left, in a pool that is past its start, can move; one that waits for the
      mutex lets its holder move. */
  lemma LiveWorkerMoves(c: Config, s: State, w: nat)
    requires Inv(c, s) && w < |s.workers| && !s.workers[w].Exited?
    requires s.queue != [] || Closed(s) || s.cancelled
    ensures !Stuck(c, s)
  {
    var worker := s.workers[w];
    if worker.Idle? {
      assert Enabled(c, s, if s.queue != [] then Receive(w) else if s.cancelled then SeeCancelled(w) else SeeClosed(w));
    } else if worker.Writing? {
      assert Enabled(c, s, if worker.headerDone then WriteBody(w) else WriteHeader(w));
    } else if worker.left == 0 {
      assert Enabled(c, s, Finish(w));
    } else if s.owner == None {
      assert Enabled(c, s, Lock(w));
    } else {
      var holder := s.owner.value;
      assert Enabled(c, s, if s.workers[holder].headerDone then WriteBody(holder) else WriteHeader(holder));
    }
  }

  /** In a pool of at least one worker, nothing can move exactly when all is over, or when the dispatcher
      was abandoned before a full channel. */
  lemma StuckWhen(c: Config, run: seq<Step>)
    requires IsRun(c, run) && 0 < c.workers && 0 < c.capacity
    ensures Stuck(c, After(c, run)) <==> Over(After(c, run)) || Abandoned(c, After(c, run))
  {
    var s := After(c, run);
    RunInv(c, run);
    if Over(s) || Abandoned(c, s) {
      forall step ensures !Enabled(c, s, step) {
      }
    } else if s.dispatcher.Syncing? {
      assert Enabled(c, s, Sync);
    } else if s.dispatcher.Sending? && s.sent == c.pods {
      assert Enabled(c, s, Close);
    } else if s.dispatcher.Sending? && |s.queue| < c.capacity {
      assert Enabled(c, s, Send);
    } else if exists w :: 0 <= w < |s.workers| && !s.workers[w].Exited? {
      var w :| 0 <= w < |s.workers| && !s.workers[w].Exited?;
      LiveWorkerMoves(c, s, w);
    } else {
      assert Enabled(c, s, WaitPasses);
    }
  }

  /** Only a cancelled pool abandons its dispatcher. */
  lemma AbandonedOnlyIfCancelled(c: Config, run: seq<Step>)
    requires IsRun(c, run) && 0 < c.workers && Abandoned(c, After(c, run))
    ensures After(c, run).cancelled
  {
    RunInv(c, run);
    assert After(c, run).workers[0].Exited?;
  }

  /** When DumpCluster returns from a run that was not cancelled, every pod was handled exactly once. */
  lemma DoneMeansHandled(c: Config, run: seq<Step>, job: nat)
    requires IsRun(c, run) && 0 < c.workers
    requires After(c, run).dispatcher.Done? && !After(c, run).cancelled
    ensures multiset(After(c, run).handled)[job] == if job < c.pods then 1 else 0
  {
    var s := After(c, run);
    RunInv(c, run);
    assert s.workers[0].Exited?;
    NothingInFlight(s.workers, job);
    assert Places(s, job) == if job < s.sent then 1 else 0;
  }

  // ---- how long a run can be

  function JobWork(c: Config, job: nat): nat { 3 * c.files(job) + 2 }

  function WorkerWork(worker: Worker): nat {
    match worker
    case Idle => 1
    case Exporting(_, left) => 3 * left + 2
    case Writing(_, left, headerDone) => 3 * left + if headerDone then 3 else 4
    case Exited => 0
  }

  function DispatcherWork(dispatcher: Dispatcher): nat {
    match dispatcher
    case Syncing => 3
    case Sending => 2
    case Waiting => 1
    case Done => 0
    case Failed => 0
  }

  function WorkersWork(workers: seq<Worker>): nat {
    if workers == [] then 0 else WorkersWork(workers[..|workers| - 1]) + WorkerWork(workers[|workers| - 1])
  }

  function QueueWork(c: Config, queue: seq<nat>): nat {
    if queue == [] then 0 else QueueWork(c, queue[..|queue| - 1]) + JobWork(c, queue[|queue| - 1])
  }

  function PendingWork(c: Config, sent: nat): nat
    decreases c.pods - sent
  {
    if c.pods <= sent then 0 else 1 + JobWork(c, sent) + PendingWork(c, sent + 1)
  }

  /** A bound on the number of steps still to come. */
  function Work(c: Config, s: State): nat {
    DispatcherWork(s.dispatcher) + PendingWork(c, s.sent) + QueueWork(c, s.queue) + WorkersWork(s.workers)
  }

  lemma {:induction false} WorkersWorkUpdate(workers: seq<Worker>, w: nat, worker: Worker)
    requires w < |workers|
    ensures WorkersWork(workers[w := worker]) + WorkerWork(workers[w]) == WorkersWork(workers) + WorkerWork(worker)
  {
    var n := |workers| - 1;
    var changed := workers[w := worker];
    if w == n {
      assert changed[..n] == workers[..n];
    } else {
      WorkersWorkUpdate(workers[..n], w, worker);
      assert changed[..n] == workers[..n][w := worker];
    }
  }

  lemma {:induction false} QueueWorkFirst(c: Config, queue: seq<nat>)
    requires queue != []
    ensures QueueWork(c, queue) == JobWork(c, queue[0]) + QueueWork(c, queue[1..])
  {
    var n := |queue| - 1;
    if n == 0 {
      assert queue[..n] == queue[1..] == [];
    } else {
      QueueWorkFirst(c, queue[..n]);
      assert queue[..n][1..] == queue[1..][..n - 1];
    }
  }

  lemma StepWorks(c: Config, s: State, step: Step)
    requires Enabled(c, s, step)
    ensures Work(c, Next(c, s, step)) < Work(c, s)
  {
    var s' := Next(c, s, step);
    if step.Send? {
      assert s'.queue[..|s'.queue| - 1] == s.queue;
    } else if !ByDispatcher(step) {
      WorkersWorkUpdate(s.workers, step.w, s'.workers[step.w]);
      if step.Receive? {
        QueueWorkFirst(c, s.queue);
      }
    }
  }

  /** No run is longer than what the start has to do. */
  lemma {:induction false} RunsAreBounded(c: Config, run: seq<Step>)
    requires IsRun(c, run)
    ensures |run| + Work(c, After(c, run)) <= Work(c, Init(c))
  {
    if run == [] {
    } else {
      RunsAreBounded(c, run[..|run| - 1]);
      StepWorks(c, After(c, run[..|run| - 1]), run[|run| - 1]);
    }
  }

  /** Any run that is not cancelled, continued for as long as a step is possible, returns from DumpCluster
      with every pod handled exactly once. */
  lemma UncancelledRunsComplete(c: Config, run: seq<Step>)
    requires IsRun(c, run) && 0 < c.workers && 0 < c.capacity
    requires Stuck(c, After(c, run)) && !After(c, run).cancelled
    ensures After(c, run).dispatcher.Done?
    ensures forall job: nat :: multiset(After(c, run).handled)[job] == if job < c.pods then 1 else 0
  {
    StuckWhen(c, run);
    RunInv(c, run);
    if Abandoned(c, After(c, run)) {
      AbandonedOnlyIfCancelled(c, run);
    }
    forall job: nat ensures multiset(After(c, run).handled)[job] == if job < c.pods then 1 else 0 {
      DoneMeansHandled(c, run, job);
    }
  }

  lemma LatestAreQueued(s: State, job: nat)
    requires Fifo(s)
    ensures s.sent - |s.queue| <= job < s.sent ==> job in s.queue
  {
    if s.sent - |s.queue| <= job < s.sent {
      assert s.queue[job - (s.sent - |s.queue|)] == job;
    }
  }

  // ---- a cancelled run can hang

  /** An abandoned dispatcher has filled the channel behind a pod that was given up, and has more to send. */
  lemma AbandonedNeedsPods(c: Config, run: seq<Step>)
    requires IsRun(c, run) && 0 < c.workers && Abandoned(c, After(c, run))
    ensures c.capacity + 2 <= c.pods
  {
    var s := After(c, run);
    RunInv(c, run);
    AbandonedOnlyIfCancelled(c, run);
    var job := s.aborted[0];
    assert Places(s, job) == 1 by {
      assert job in multiset(s.aborted);
      assert Places(s, job) == if job < s.sent then 1 else 0;
    }
    assert job !in s.queue by {
      assert job in multiset(s.aborted);
      assert multiset(s.queue)[job] == 0;
    }
    LatestAreQueued(s, job);
  }

  /** Worker 0 takes one pod, and the channel fills up behind it. */
  function FillingRun(sends: nat): seq<Step> {
    [Sync, Send, Receive(0)] + seq(sends, i => Send)
  }

  ghost predicate Filling(c: Config, s: State, sends: nat) {
    && s.dispatcher.Sending? && s.sent == sends + 1 && |s.queue| == sends && |s.workers| == c.workers
    && 0 < c.workers && s.workers[0].Exporting?
    && forall w :: 0 < w < |s.workers| ==> s.workers[w].Idle?
  }

  lemma {:induction false} FillingRunIsRun(c: Config, sends: nat)
    requires 0 < c.workers && 0 < c.capacity && c.capacity + 2 <= c.pods && sends <= c.capacity
    ensures IsRun(c, FillingRun(sends)) && Filling(c, After(c, FillingRun(sends)), sends)
  {
    var run := FillingRun(sends);
    if sends == 0 {
      assert run == [Sync, Send, Receive(0)];
      assert [Sync, Send][..1] == [Sync];
      assert run[..2] == [Sync, Send];
      assert [Sync][..0] == [];
      assert IsRun(c, []);
      assert IsRun(c, [Sync]);
      assert After(c, [Sync]).dispatcher.Sending?;
      assert IsRun(c, [Sync, Send]);
      assert After(c, [Sync, Send]).queue == [0];
    } else {
      FillingRunIsRun(c, sends - 1);
      assert run[..|run| - 1] == FillingRun(sends - 1);
      assert run[|run| - 1] == Send;
    }
  }

  /** Then worker 0 finds the disk full, and the first `k` others see that the pool was cancelled. */
  function LeavingRun(sends: nat, k: nat): seq<Step> {
    FillingRun(sends) + [SpaceError(0)] + seq(k, (i: nat) => SeeCancelled(i + 1))
  }

  ghost predicate Leaving(c: Config, s: State, sends: nat, k: nat) {
    && s.dispatcher.Sending? && s.sent == sends + 1 && |s.queue| == sends && |s.workers| == c.workers && s.cancelled
    && forall w :: 0 <= w < |s.workers| ==> if w <= k then s.workers[w].Exited? else s.workers[w].Idle?
  }

  lemma {:induction false} LeavingRunIsRun(c: Config, k: nat)
    requires k < c.workers && 0 < c.capacity && c.capacity + 2 <= c.pods
    ensures IsRun(c, LeavingRun(c.capacity, k)) && Leaving(c, After(c, LeavingRun(c.capacity, k)), c.capacity, k)
  {
    var run := LeavingRun(c.capacity, k);
    if k == 0 {
      FillingRunIsRun(c, c.capacity);
      assert run[..|run| - 1] == FillingRun(c.capacity) && run[|run| - 1] == SpaceError(0);
    } else {
      LeavingRunIsRun(c, k - 1);
      assert run[..|run| - 1] == LeavingRun(c.capacity, k - 1) && run[|run| - 1] == SeeCancelled(k);
    }
  }

  /** A full disk can leave the dispatcher blocked forever, whatever the number of workers. */
  lemma CancelledRunMayHang(c: Config) returns (run: seq<Step>)
    requires 0 < c.workers && 0 < c.capacity && c.capacity + 2 <= c.pods
    ensures IsRun(c, run) && Stuck(c, After(c, run)) && After(c, run).dispatcher.Sending? && Abandoned(c, After(c, run))
  {
    run := LeavingRun(c.capacity, c.workers - 1);
    LeavingRunIsRun(c, c.workers - 1);
    StuckWhen(c, run);
  }

  /** DumpCluster can hang exactly if there are two pods more than the channel holds: if not, every run that
      goes on for as long as it can returns from it. */
  lemma MayHangExactly(c: Config)
    requires 0 < c.workers && 0 < c.capacity
    ensures c.capacity + 2 <= c.pods <==>
      exists run :: IsRun(c, run) && Stuck(c, After(c, run)) && !Over(After(c, run))
  {
    if c.capacity + 2 <= c.pods {
      var run := CancelledRunMayHang(c);
      assert IsRun(c, run) && Stuck(c, After(c, run)) && !Over(After(c, run));
    }
    if run :| IsRun(c, run) && Stuck(c, After(c, run)) && !Over(After(c, run)) {
      StuckWhen(c, run);
      AbandonedNeedsPods(c, run);
    }
  }

  // ---- what is left in the archive

  predicate Clean(step: Step) {
    !step.HeaderFails? && !step.BodyFails? && !step.GiveUp? && !step.SpaceError?
  }

  /** Has the worker, in its present pod, written the file? */
  predicate Wrote(c: Config, worker: Worker, job: nat, file: nat) {
    && Exports(worker, job)
    && file < c.files(job)
    && if worker.Writing? then worker.left < file else worker.left <= file
  }

  function WroteCount(c: Config, workers: seq<Worker>, job: nat, file: nat): nat {
    if workers == [] then 0
    else WroteCount(c, workers[..|workers| - 1], job, file)
         + if Wrote(c, workers[|workers| - 1], job, file) then 1 else 0
  }

  predicate InRange(c: Config, workers: seq<Worker>) {
    forall w :: 0 <= w < |workers| ==>
      && (workers[w].Exporting? ==> workers[w].left <= c.files(workers[w].job))
      && (workers[w].Writing? ==> workers[w].left < c.files(workers[w].job))
  }

  /** How often the archive should hold the file of the pod. */
  function Expected(c: Config, s: State, job: nat, file: nat): nat {
    WroteCount(c, s.workers, job, file) + if file < c.files(job) then multiset(s.handled)[job] else 0
  }

  ghost predicate Filed(c: Config, s: State) {
    InRange(c, s.workers) && forall job: nat, file: nat ::
      multiset(s.archive)[Body(job, file)] == Expected(c, s, job, file)
  }

  lemma {:induction false} WroteCountUpdate(c: Config, workers: seq<Worker>, w: nat, worker: Worker, job: nat,
                                            file: nat)
    requires w < |workers|
    ensures WroteCount(c, workers[w := worker], job, file) + (if Wrote(c, workers[w], job, file) then 1 else 0)
         == WroteCount(c, workers, job, file) + if Wrote(c, worker, job, file) then 1 else 0
  {
    var n := |workers| - 1;
    var changed := workers[w := worker];
    if w == n {
      assert changed[..n] == workers[..n];
    } else {
      WroteCountUpdate(c, workers[..n], w, worker, job, file);
      assert changed[..n] == workers[..n][w := worker];
    }
  }

  lemma {:induction false} NothingWritten(c: Config, workers: seq<Worker>, job: nat, file: nat)
    requires forall w :: 0 <= w < |workers| ==> !Exports(workers[w], job)
    ensures WroteCount(c, workers, job, file) == 0
  {
    if workers == [] {
    } else {
      NothingWritten(c, workers[..|workers| - 1], job, file);
    }
  }

  lemma StepFiles(c: Config, s: State, step: Step, job: nat, file: nat)
    requires Enabled(c, s, step) && Clean(step) && Filed(c, s)
    ensures multiset(Next(c, s, step).archive)[Body(job, file)] == Expected(c, Next(c, s, step), job, file)
  {
    var s' := Next(c, s, step);
    assert multiset(s.archive)[Body(job, file)] == Expected(c, s, job, file);
    if !ByDispatcher(step) {
      WroteCountUpdate(c, s.workers, step.w, s'.workers[step.w], job, file);
    }
  }

  lemma StepFiled(c: Config, s: State, step: Step)
    requires Enabled(c, s, step) && Clean(step) && Filed(c, s)
    ensures Filed(c, Next(c, s, step))
  {
    forall job: nat, file: nat
      ensures multiset(Next(c, s, step).archive)[Body(job, file)] == Expected(c, Next(c, s, step), job, file)
    {
      StepFiles(c, s, step, job, file);
    }
  }

  lemma {:induction false} CleanRunsFile(c: Config, run: seq<Step>)
    requires IsRun(c, run) && forall i :: 0 <= i < |run| ==> Clean(run[i])
    ensures Filed(c, After(c, run))
  {
    if run == [] {
      forall job: nat, file: nat ensures Expected(c, Init(c), job, file) == 0 {
        NothingWritten(c, Init(c).workers, job, file);
      }
    } else {
      CleanRunsFile(c, run[..|run| - 1]);
      StepFiled(c, After(c, run[..|run| - 1]), run[|run| - 1]);
    }
  }

  /** While no body fails, nothing in the archive is broken. */
  lemma {:induction false} NothingBroken(c: Config, run: seq<Step>)
    requires IsRun(c, run) && forall i :: 0 <= i < |run| ==> !run[i].BodyFails?
    ensures forall i :: 0 <= i < |After(c, run).archive| ==> !After(c, run).archive[i].Broken?
  {
    if run == [] {
    } else {
      NothingBroken(c, run[..|run| - 1]);
    }
  }

  /** Whenever the mutex is free in a run without a failed body, the archive is a sequence of whole entries. */
  lemma ArchiveIsWhole(c: Config, run: seq<Step>)
    requires IsRun(c, run) && forall i :: 0 <= i < |run| ==> !run[i].BodyFails?
    requires After(c, run).owner == None
    ensures var archive := After(c, run).archive;
            Entries(archive) && forall i :: 0 <= i < |archive| ==> archive[i].Header? || archive[i].Body?
  {
    RunInv(c, run);
    NothingBroken(c, run);
  }

  /** When DumpCluster returns from a run in which nothing failed, the archive holds every file of every
      pod exactly once, and no other. */
  lemma ArchiveIsComplete(c: Config, run: seq<Step>, job: nat, file: nat)
    requires IsRun(c, run) && forall i :: 0 <= i < |run| ==> Clean(run[i])
    requires 0 < c.workers && After(c, run).dispatcher.Done? && !After(c, run).cancelled
    ensures multiset(After(c, run).archive)[Body(job, file)] == if job < c.pods && file < c.files(job) then 1 else 0
  {
    var s := After(c, run);
    RunInv(c, run);
    CleanRunsFile(c, run);
    DoneMeansHandled(c, run, job);
    NothingWritten(c, s.workers, job, file);
    assert multiset(s.archive)[Body(job, file)] == Expected(c, s, job, file);
  }
}
