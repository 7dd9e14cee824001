/** The worker pool that exports pods (pt-k8s-debug-collector, dumper.go, DumpCluster and
    resilientWorker; tar.go, WriteFile), as a machine whose steps interleave in any way.
    Pods are numbered in the order in which they are dispatched. */
module WorkerPool {
  import opened Options

  /** The pool's size, the number of pods, the channel's capacity, and how many files a pod has. */
  datatype Config = Config(workers: nat, pods: nat, capacity: nat, files: nat -> nat)

  datatype Dispatcher = Syncing | Sending | Waiting | Done | Failed

  /** `left` counts the files still to be written after the one being written.  A worker that is
      writing holds the mutex of the archive. */
  datatype Worker =
    | Idle
    | Exporting(job: nat, left: nat)
    | Writing(job: nat, left: nat, headerDone: bool)
    | Exited

  datatype Record = Header(job: nat, file: nat) | Body(job: nat, file: nat) | Broken(job: nat, file: nat)

  datatype State = State(
    dispatcher: Dispatcher,
    sent: nat,
    queue: seq<nat>,
    workers: seq<Worker>,
    cancelled: bool,
    handled: seq<nat>,
    aborted: seq<nat>,
    owner: Option<nat>,
    archive: seq<Record>)

  datatype Step =
    | Sync | SyncFails | Send | Close | WaitPasses
    | Receive(w: nat) | SeeClosed(w: nat) | SeeCancelled(w: nat)
    | Lock(w: nat) | WriteHeader(w: nat) | HeaderFails(w: nat) | WriteBody(w: nat) | BodyFails(w: nat)
    | GiveUp(w: nat) | SpaceError(w: nat) | Finish(w: nat)

  function Init(c: Config): State {
    State(Syncing, 0, [], seq(c.workers, i => Idle), false, [], [], None, [])
  }

  predicate Closed(s: State) { s.dispatcher.Waiting? || s.dispatcher.Done? }

  predicate Enabled(c: Config, s: State, step: Step) {
    match step
    case Sync => s.dispatcher.Syncing?
    case SyncFails => s.dispatcher.Syncing?
    case Send => s.dispatcher.Sending? && s.sent < c.pods && |s.queue| < c.capacity
    case Close => s.dispatcher.Sending? && s.sent == c.pods
    case WaitPasses => s.dispatcher.Waiting? && forall w :: 0 <= w < |s.workers| ==> s.workers[w].Exited?
    case Receive(w) => w < |s.workers| && s.workers[w].Idle? && s.queue != []
    case SeeClosed(w) => w < |s.workers| && s.workers[w].Idle? && s.queue == [] && Closed(s)
    case SeeCancelled(w) => w < |s.workers| && s.workers[w].Idle? && s.cancelled
    case Lock(w) => w < |s.workers| && s.workers[w].Exporting? && 0 < s.workers[w].left && s.owner == None
    case WriteHeader(w) => w < |s.workers| && s.workers[w].Writing? && !s.workers[w].headerDone
    case HeaderFails(w) => w < |s.workers| && s.workers[w].Writing? && !s.workers[w].headerDone
    case WriteBody(w) => w < |s.workers| && s.workers[w].Writing? && s.workers[w].headerDone
    case BodyFails(w) => w < |s.workers| && s.workers[w].Writing? && s.workers[w].headerDone
    case GiveUp(w) => w < |s.workers| && s.workers[w].Exporting? && 0 < s.workers[w].left
    case SpaceError(w) => w < |s.workers| && s.workers[w].Exporting?
    case Finish(w) => w < |s.workers| && s.workers[w].Exporting? && s.workers[w].left == 0
  }

  function Next(c: Config, s: State, step: Step): State
    requires Enabled(c, s, step)
  {
    match step
    case Sync => s.(dispatcher := Sending)
    case SyncFails => s.(dispatcher := Failed, cancelled := true)
    case Send => s.(queue := s.queue + [s.sent], sent := s.sent + 1)
    case Close => s.(dispatcher := Waiting)
    case WaitPasses => s.(dispatcher := Done)
    case Receive(w) => s.(workers := s.workers[w := Exporting(s.queue[0], c.files(s.queue[0]))], queue := s.queue[1..])
    case SeeClosed(w) => s.(workers := s.workers[w := Exited])
    case SeeCancelled(w) => s.(workers := s.workers[w := Exited])
    case Lock(w) => s.(workers := s.workers[w := Writing(s.workers[w].job, s.workers[w].left - 1, false)],
                       owner := Some(w))
    case WriteHeader(w) => s.(workers := s.workers[w := s.workers[w].(headerDone := true)],
                              archive := s.archive + [Header(s.workers[w].job, s.workers[w].left)])
    case HeaderFails(w) => s.(workers := s.workers[w := Exporting(s.workers[w].job, s.workers[w].left)], owner := None)
    case WriteBody(w) => s.(workers := s.workers[w := Exporting(s.workers[w].job, s.workers[w].left)], owner := None,
                            archive := s.archive + [Body(s.workers[w].job, s.workers[w].left)])
    case BodyFails(w) => s.(workers := s.workers[w := Exporting(s.workers[w].job, s.workers[w].left)], owner := None,
                            archive := s.archive + [Broken(s.workers[w].job, s.workers[w].left)])
    case GiveUp(w) => s.(workers := s.workers[w := Exporting(s.workers[w].job, 0)])
    case SpaceError(w) => s.(workers := s.workers[w := Exited], cancelled := true,
                             aborted := s.aborted + [s.workers[w].job])
    case Finish(w) => s.(workers := s.workers[w := Idle], handled := s.handled + [s.workers[w].job])
  }

  /** A run is a list of steps, each enabled where it is taken. */
  predicate IsRun(c: Config, run: seq<Step>)
    decreases |run|, 0
  {
    run == [] || (IsRun(c, run[..|run| - 1]) && Enabled(c, After(c, run[..|run| - 1]), run[|run| - 1]))
  }

  function After(c: Config, run: seq<Step>): State
    requires IsRun(c, run)
    decreases |run|, 1
  {
    if run == [] then Init(c) else Next(c, After(c, run[..|run| - 1]), run[|run| - 1])
  }

  predicate Exports(worker: Worker, job: nat) {
    (worker.Exporting? || worker.Writing?) && worker.job == job
  }

  /** How many workers are exporting the pod. */
  function InFlight(workers: seq<Worker>, job: nat): nat {
    if workers == [] then 0
    else InFlight(workers[..|workers| - 1], job) + if Exports(workers[|workers| - 1], job) then 1 else 0
  }

  lemma {:induction false} InFlightUpdate(workers: seq<Worker>, w: nat, worker: Worker, job: nat)
    requires w < |workers|
    ensures InFlight(workers[w := worker], job) + (if Exports(workers[w], job) then 1 else 0)
         == InFlight(workers, job) + if Exports(worker, job) then 1 else 0
  {
    var n := |workers| - 1;
    var changed := workers[w := worker];
    if w == n {
      assert changed[..n] == workers[..n];
    } else {
      InFlightUpdate(workers[..n], w, worker, job);
      assert changed[..n] == workers[..n][w := worker];
    }
  }

  lemma {:induction false} NothingInFlight(workers: seq<Worker>, job: nat)
    requires forall w :: 0 <= w < |workers| ==> !Exports(workers[w], job)
    ensures InFlight(workers, job) == 0
  {
    if workers == [] {
    } else {
      NothingInFlight(workers[..|workers| - 1], job);
    }
  }

  /** How often the pod is queued, in flight, handled, or was given up for lack of space. */
  function Places(s: State, job: nat): nat {
    multiset(s.queue)[job] + InFlight(s.workers, job) + multiset(s.handled)[job] + multiset(s.aborted)[job]
  }

  /** Every dispatched pod is in exactly one place, and no other pod is anywhere. */
  ghost predicate Conserved(s: State) {
    forall job: nat :: Places(s, job) == if job < s.sent then 1 else 0
  }

  /** The channel holds the pods sent last, in order. */
  predicate Fifo(s: State) {
    |s.queue| <= s.sent && forall i :: 0 <= i < |s.queue| ==> s.queue[i] == s.sent - |s.queue| + i
  }

  /** The archive is a sequence of entries: a header, directly followed by what was written of its body. */
  predicate Entries(archive: seq<Record>) {
    archive == [] ||
    var n := |archive|;
    && 2 <= n
    && archive[n - 2].Header?
    && !archive[n - 1].Header?
    && archive[n - 1].job == archive[n - 2].job
    && archive[n - 1].file == archive[n - 2].file
    && Entries(archive[..n - 2])
  }

  /** Only the holder of the mutex is in an entry. */
  predicate ArchiveOk(s: State) {
    && (forall w :: 0 <= w < |s.workers| && s.workers[w].Writing? ==> s.owner == Some(w))
    && (s.owner.Some? ==> s.owner.value < |s.workers| && s.workers[s.owner.value].Writing?)
    && if s.owner.Some? && s.workers[s.owner.value].headerDone then
         && s.archive != []
         && s.archive[|s.archive| - 1] == Header(s.workers[s.owner.value].job, s.workers[s.owner.value].left)
         && Entries(s.archive[..|s.archive| - 1])
       else Entries(s.archive)
  }

  predicate Control(c: Config, s: State) {
    && |s.workers| == c.workers
    && s.sent <= c.pods
    && |s.queue| <= c.capacity
    && (s.dispatcher.Syncing? || s.dispatcher.Failed? ==> s.sent == 0)
    && (Closed(s) ==> s.sent == c.pods)
    && (s.cancelled <==> s.dispatcher.Failed? || s.aborted != [])
    && (forall w :: 0 <= w < |s.workers| && s.workers[w].Exited? ==> s.cancelled || (Closed(s) && s.queue == []))
    && (s.dispatcher.Done? ==> forall w :: 0 <= w < |s.workers| ==> s.workers[w].Exited?)
  }

  ghost predicate Inv(c: Config, s: State) {
    Control(c, s) && Conserved(s) && Fifo(s) && ArchiveOk(s)
  }

  lemma InitInv(c: Config)
    ensures Inv(c, Init(c))
  {
    forall job: nat ensures Places(Init(c), job) == 0 {
      NothingInFlight(Init(c).workers, job);
    }
  }

  lemma ReceiveMovesPod(c: Config, s: State, w: nat, job: nat)
    requires Enabled(c, s, Receive(w))
    ensures Places(Next(c, s, Receive(w)), job) == Places(s, job)
  {
    var s' := Next(c, s, Receive(w));
    assert s.queue == [s.queue[0]] + s'.queue;
    InFlightUpdate(s.workers, w, s'.workers[w], job);
  }

  lemma FinishMovesPod(c: Config, s: State, w: nat, job: nat)
    requires Enabled(c, s, Finish(w))
    ensures Places(Next(c, s, Finish(w)), job) == Places(s, job)
  {
    InFlightUpdate(s.workers, w, Idle, job);
  }

  lemma SpaceErrorMovesPod(c: Config, s: State, w: nat, job: nat)
    requires Enabled(c, s, SpaceError(w))
    ensures Places(Next(c, s, SpaceError(w)), job) == Places(s, job)
  {
    InFlightUpdate(s.workers, w, Exited, job);
  }

  predicate ByDispatcher(step: Step) {
    step.Sync? || step.SyncFails? || step.Send? || step.Close? || step.WaitPasses?
  }

  lemma WorkingMovesNoPod(c: Config, s: State, step: Step, job: nat)
    requires Enabled(c, s, step)
    requires !ByDispatcher(step) && !step.Receive? && !step.Finish? && !step.SpaceError?
    ensures Places(Next(c, s, step), job) == Places(s, job)
  {
    InFlightUpdate(s.workers, step.w, Next(c, s, step).workers[step.w], job);
  }

  lemma MovesPod(c: Config, s: State, step: Step, job: nat)
    requires Enabled(c, s, step)
    ensures Places(Next(c, s, step), job) == Places(s, job) + if step.Send? && job == s.sent then 1 else 0
  {
    if step.Receive? {
      ReceiveMovesPod(c, s, step.w, job);
    } else if step.Finish? {
      FinishMovesPod(c, s, step.w, job);
    } else if step.SpaceError? {
      SpaceErrorMovesPod(c, s, step.w, job);
    } else if !ByDispatcher(step) {
      WorkingMovesNoPod(c, s, step, job);
    }
  }

  lemma StepConserved(c: Config, s: State, step: Step)
    requires Conserved(s) && Enabled(c, s, step)
    ensures Conserved(Next(c, s, step))
  {
    forall job: nat
      ensures Places(Next(c, s, step), job) == if job < Next(c, s, step).sent then 1 else 0
    {
      MovesPod(c, s, step, job);
    }
  }

  lemma StepFifo(c: Config, s: State, step: Step)
    requires Fifo(s) && Enabled(c, s, step)
    ensures Fifo(Next(c, s, step))
  {
  }

  lemma WriteBodyKeepsArchive(c: Config, s: State, step: Step)
    requires ArchiveOk(s) && Enabled(c, s, step) && (step.WriteBody? || step.BodyFails?)
    ensures ArchiveOk(Next(c, s, step))
  {
    var s' := Next(c, s, step);
    assert s.owner == Some(step.w);
    assert s'.archive[..|s'.archive| - 2] == s.archive[..|s.archive| - 1];
    assert s'.archive[|s'.archive| - 2] == s.archive[|s.archive| - 1];
  }

  lemma WriteHeaderKeepsArchive(c: Config, s: State, w: nat)
    requires ArchiveOk(s) && Enabled(c, s, WriteHeader(w))
    ensures ArchiveOk(Next(c, s, WriteHeader(w)))
  {
    var s' := Next(c, s, WriteHeader(w));
    assert s.owner == Some(w);
    assert s'.archive[..|s'.archive| - 1] == s.archive;
  }

  lemma StepArchive(c: Config, s: State, step: Step)
    requires ArchiveOk(s) && Enabled(c, s, step)
    ensures ArchiveOk(Next(c, s, step))
  {
    if step.WriteBody? || step.BodyFails? {
      WriteBodyKeepsArchive(c, s, step);
    } else if step.WriteHeader? {
      WriteHeaderKeepsArchive(c, s, step.w);
    }
  }

  lemma StepControl(c: Config, s: State, step: Step)
    requires Control(c, s) && Enabled(c, s, step)
    ensures Control(c, Next(c, s, step))
  {
  }

  /** In every interleaving, at every moment. */
  lemma {:induction false} RunInv(c: Config, run: seq<Step>)
    requires IsRun(c, run)
    ensures Inv(c, After(c, run))
  {
    if run == [] {
      InitInv(c);
    } else {
      var front, step := run[..|run| - 1], run[|run| - 1];
      RunInv(c, front);
      StepControl(c, After(c, front), step);
      StepConserved(c, After(c, front), step);
      StepFifo(c, After(c, front), step);
      StepArchive(c, After(c, front), step);
    }
  }
}
