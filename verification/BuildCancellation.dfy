/** The build manager's requests, cancellation threads and output threads interleaving freely;
    requests are served one at a time (src/sqltide/dev_server/classes/build_process.py). */
module BuildCancellation {
  import opened Chars
  import opened BuildProcess

  /** Where a cancellation thread is.  The two timed waits before the interim section are one
      stage: the child may exit, or both may time out. */
  datatype Stage = NotStarted | Asking | Waiting | Interim | WaitingOn | Finishing | Reporting | Clearing | Ended

  datatype Worker = Worker(process: nat, invocation: nat, query: Option<Text>, answer: Option<Answer>, stage: Stage)

  /** A thread reading a child's output; `done` once it has left. */
  datatype Reader = Reader(process: nat, invocation: nat, done: bool)

  /** The request being served, between two of its atomic parts. */
  datatype Request =
    | Idle
    | Launching(process: nat, invocation: nat)
    | Signalling(process: nat, invocation: nat, query: Option<Text>)
    | Storing(process: nat, invocation: nat, query: Option<Text>)
    | Starting(worker: nat)
    | Killing(process: nat)
    | Killed

  /** `children` holds exit codes; `confirmed` the queries the warehouse confirmed terminated, by
      invocation. */
  datatype World = World(
    m: Manager, children: seq<Option<int>>, workers: seq<Worker>, readers: seq<Reader>,
    request: Request, launches: nat, confirmed: set<(nat, Text)>)

  const Start: World := World(NewManager, [], [], [], Idle, 0, {})

  datatype Step =
    | StartRequest(spawns: bool)
    | LaunchReader
    | CancelRequest(invocation: nat)
    | SendSignal
    | StoreThread
    | StartThread
    | KillRequest(invocation: nat)
    | SendKill
    | FinishKill
    | ChildExits(process: nat, code: int)
    | WorkerStep(worker: nat, answer: Option<Answer>, exited: bool, reported: bool)
    | ReadEvent(reader: nat, event: ReportedEvent)
    | ReadEnd(reader: nat)

  predicate IsLive(w: World, process: nat) {
    process < |w.children| && w.children[process].None?
  }

  predicate IsAlive(w: World, worker: nat) {
    worker < |w.workers| && w.workers[worker].stage != NotStarted && w.workers[worker].stage != Ended
  }

  predicate IsBusy(w: World) {
    (w.m.thread.Some? && IsAlive(w, w.m.thread.value)) || (w.m.process.Some? && IsLive(w, w.m.process.value))
  }

  predicate Owns(w: World, invocation: nat) {
    w.m.invocation == Some(invocation) && w.m.process.Some? && IsLive(w, w.m.process.value)
  }

  function Moved(w: World, k: nat, worker: Worker): World
    requires k < |w.workers|
  {
    w.(workers := w.workers[k := worker])
  }

  /** One part of a cancellation thread. */
  ghost predicate WorkerMoves(w: World, w': World, k: nat, answer: Option<Answer>, exited: bool, reported: bool) {
    k < |w.workers| &&
    var t := w.workers[k];
    match t.stage
    case Asking =>
      // a warehouse is only asked about a query
      && t.query.Some?
      && w' == Moved(w, k, t.(answer := answer, stage := Waiting)).(confirmed :=
          if WarehouseFailed(t.query, answer) then w.confirmed else w.confirmed + {(t.invocation, t.query.value)})
    case Waiting =>
      && (exited ==> !IsLive(w, t.process))
      && w' == Moved(w, k, t.(stage := if exited then Finishing else Interim))
    case Interim =>
      if IsCurrent(w.m, t.process, t.invocation)
      then w' == Moved(w, k, t.(stage := WaitingOn)).(m := InterimNoted(w.m, t.query, t.answer))
      else w' == Moved(w, k, t.(stage := Ended))
    case WaitingOn => !IsLive(w, t.process) && w' == Moved(w, k, t.(stage := Finishing))
    case Finishing =>
      t.process < |w.children| && w.children[t.process].Some? &&
      if IsCurrent(w.m, t.process, t.invocation)
      then w' == Moved(w, k, t.(stage := Reporting)).(m := CancelFinished(w.m, t.query, t.answer, w.children[t.process].value))
      else w' == Moved(w, k, t.(stage := Ended))
    case Reporting =>
      if reported then w' == Moved(w, k, t.(stage := Clearing))
      else w' == Moved(w, k, t.(stage := Clearing)).(m := w.m.(status := CancellationFailed))
    case Clearing =>
      w' == Moved(w, k, t.(stage := Ended)).(m := if w.m.thread == Some(k) then w.m.(thread := None) else w.m)
    case _ => false
  }

  ghost predicate NextBy(w: World, w': World, step: Step) {
    match step
    case StartRequest(spawns) =>
      && w.request == Idle
      && w' == if IsBusy(w) then w
               else if spawns then
                 w.(m := Launched(w.m, |w.children|, w.launches), children := w.children + [None],
                    launches := w.launches + 1, request := Launching(|w.children|, w.launches))
               else w.(m := Reset(w.m, None), launches := w.launches + 1)
    case LaunchReader =>
      && w.request.Launching?
      && w' == w.(readers := w.readers + [Reader(w.request.process, w.request.invocation, false)], request := Idle)
    case CancelRequest(id) =>
      && w.request == Idle
      && w' == if w.m.cancelling == Some(id) || !Owns(w, id) then w
               else w.(m := CancelBegun(w.m, id), request := Signalling(w.m.process.value, id, w.m.activeQuery))
    case SendSignal =>
      && w.request.Signalling?
      && w' == w.(request := Storing(w.request.process, w.request.invocation, w.request.query))
    case StoreThread =>
      && w.request.Storing?
      && w' == w.(workers := w.workers + [Worker(w.request.process, w.request.invocation, w.request.query, None, NotStarted)],
                  m := w.m.(thread := Some(|w.workers|)), request := Starting(|w.workers|))
    case StartThread =>
      && w.request.Starting? && w.request.worker < |w.workers|
      && var t := w.workers[w.request.worker];
         w' == Moved(w, w.request.worker, t.(stage := if t.query.Some? then Asking else Waiting)).(request := Idle)
    case KillRequest(id) =>
      && w.request == Idle
      && w' == if Owns(w, id) then w.(request := Killing(w.m.process.value)) else w
    case SendKill => w.request.Killing? && w' == w.(request := Killed)
    case FinishKill => w.request == Killed && w' == w.(m := w.m.(forceAvailable := false), request := Idle)
    case ChildExits(p, code) => IsLive(w, p) && w' == w.(children := w.children[p := Some(code)])
    case WorkerStep(k, answer, exited, reported) => WorkerMoves(w, w', k, answer, exited, reported)
    case ReadEvent(k, event) =>
      && k < |w.readers| && !w.readers[k].done
      && w' == if IsCurrent(w.m, w.readers[k].process, w.readers[k].invocation)
               then w.(m := EventRead(w.m, event)) else w
    case ReadEnd(k) =>
      && k < |w.readers| && !w.readers[k].done
      && var r := w.readers[k];
         && r.process < |w.children| && w.children[r.process].Some?
         && w' == w.(readers := w.readers[k := r.(done := true)],
                     m := if IsCurrent(w.m, r.process, r.invocation)
                          then OutputEnded(w.m, w.children[r.process].value) else w.m)
  }

  ghost predicate Next(w: World, w': World) {
    exists step :: NextBy(w, w', step)
  }

  // ------------------------------------------------------------------------------------------
  // The invariant

  /** A thread that has not ended is the manager's, and works on its process and invocation. */
  ghost predicate WorkerHolds(w: World, k: nat)
    requires k < |w.workers|
  {
    var t := w.workers[k];
    t.stage != Ended ==>
      && w.m.thread == Some(k) && IsCurrent(w.m, t.process, t.invocation)
      && w.m.cancelling == Some(t.invocation) && w.m.cancellationQuery == t.query
      && (t.stage == NotStarted ==> w.request == Starting(k) && w.m.status == Cancelling)
      && (t.stage == Asking || t.stage == Waiting || t.stage == Interim ==> w.m.status == Cancelling)
      && (t.stage == WaitingOn || t.stage == Finishing ==>
            w.m.status == Cancelling || (w.m.status == CancellationFailed && WarehouseFailed(t.query, t.answer)))
      && (t.stage == Reporting ==> w.m.status == FinalStatus(t.query, t.answer))
      && (t.stage == Clearing ==> w.m.status == FinalStatus(t.query, t.answer) || w.m.status == CancellationFailed)
      && (t.stage == Finishing || t.stage == Reporting || t.stage == Clearing ==> !IsLive(w, t.process))
      && (t.query.Some? && !WarehouseFailed(t.query, t.answer) ==> (t.invocation, t.query.value) in w.confirmed)
  }

  ghost predicate RequestHolds(w: World) {
    match w.request
    case Signalling(p, i, q) => BeingCancelled(w, p, i, q)
    case Storing(p, i, q) => BeingCancelled(w, p, i, q)
    case Starting(k) => k < |w.workers| && w.workers[k].stage == NotStarted
    case _ => true
  }

  ghost predicate BeingCancelled(w: World, process: nat, invocation: nat, query: Option<Text>) {
    && IsCurrent(w.m, process, invocation) && w.m.cancelling == Some(invocation)
    && w.m.cancellationQuery == query && w.m.status == Cancelling
    && forall k :: 0 <= k < |w.workers| ==> w.workers[k].stage == Ended
  }

  /** `cancelled` is only shown once it is true. */
  ghost predicate CancelledHolds(w: World) {
    w.m.status == Cancelled ==>
      && w.m.process.Some? && !IsLive(w, w.m.process.value)
      && w.m.invocation.Some? && w.m.cancelling == w.m.invocation
      && (w.m.cancellationQuery.Some? ==> (w.m.invocation.value, w.m.cancellationQuery.value) in w.confirmed)
  }

  /** A shown exit code is the child's. */
  ghost predicate ExitHolds(w: World) {
    w.m.exitCode.Some? ==>
      w.m.process.Some? && w.m.process.value < |w.children| && w.children[w.m.process.value] == w.m.exitCode
  }

  ghost predicate OneLive(w: World) {
    forall p: nat :: IsLive(w, p) ==> w.m.process == Some(p)
  }

  ghost predicate Inv(w: World) {
    && OneLive(w) && RequestHolds(w) && CancelledHolds(w) && ExitHolds(w)
    && (w.m.process.Some? ==> w.m.process.value < |w.children|)
    && (w.m.invocation.Some? ==> w.m.invocation.value < w.launches)
    && (w.m.cancelling.None? ==> w.m.status == NoStatus)
    && (w.m.cancelling.Some? ==> w.m.cancelling == w.m.invocation)
    && (forall k :: 0 <= k < |w.workers| ==> WorkerHolds(w, k))
  }

  // ------------------------------------------------------------------------------------------
  // Each step keeps it

  /** A thread that has not ended keeps a new build from starting. */
  lemma WorkersEndBeforeStart(w: World)
    requires Inv(w) && w.request == Idle && !IsBusy(w)
    ensures forall k :: 0 <= k < |w.workers| ==> w.workers[k].stage == Ended
  {
    forall k | 0 <= k < |w.workers| ensures w.workers[k].stage == Ended {
      assert WorkerHolds(w, k);
    }
  }

  lemma StartKeeps(w: World, w': World, spawns: bool)
    requires Inv(w) && NextBy(w, w', StartRequest(spawns))
    ensures Inv(w')
  {
    if !IsBusy(w) {
      WorkersEndBeforeStart(w);
    }
  }

  /** Before a cancellation of the running build is accepted, no thread is left. */
  lemma CancelKeeps(w: World, w': World, id: nat)
    requires Inv(w) && NextBy(w, w', CancelRequest(id))
    ensures Inv(w')
  {
    if !(w.m.cancelling == Some(id) || !Owns(w, id)) {
      forall k | 0 <= k < |w.workers| ensures w.workers[k].stage == Ended {
        assert WorkerHolds(w, k);
      }
    }
  }

  lemma StoreKeeps(w: World, w': World)
    requires Inv(w) && NextBy(w, w', StoreThread)
    ensures Inv(w')
  {
    forall k | 0 <= k < |w'.workers| ensures WorkerHolds(w', k) {
      if k < |w.workers| {
        assert w'.workers[k] == w.workers[k];
      }
    }
  }

  lemma StartThreadKeeps(w: World, w': World)
    requires Inv(w) && NextBy(w, w', StartThread)
    ensures Inv(w')
  {
    var k := w.request.worker;
    assert WorkerHolds(w, k);
    forall j | 0 <= j < |w'.workers| ensures WorkerHolds(w', j) {
      assert WorkerHolds(w, j);
    }
  }

  lemma ExitKeeps(w: World, w': World, p: nat, code: int)
    requires Inv(w) && NextBy(w, w', ChildExits(p, code))
    ensures Inv(w')
  {
    forall q: nat | IsLive(w', q) ensures IsLive(w, q) {
    }
    forall k | 0 <= k < |w'.workers| ensures WorkerHolds(w', k) {
      assert WorkerHolds(w, k);
    }
  }

  /** A moving thread is the only one, and still holds afterwards. */
  lemma WorkerHoldsOn(w: World, w': World, k: nat, answer: Option<Answer>, exited: bool, reported: bool)
    requires Inv(w) && WorkerMoves(w, w', k, answer, exited, reported)
    ensures |w'.workers| == |w.workers| && forall j :: 0 <= j < |w'.workers| ==> WorkerHolds(w', j)
  {
    hide CancelledHolds, ExitHolds, OneLive, RequestHolds;
    assert WorkerHolds(w, k);
    forall j | 0 <= j < |w'.workers| ensures WorkerHolds(w', j) {
      assert WorkerHolds(w, j);
    }
  }

  lemma WorkerKeeps(w: World, w': World, k: nat, answer: Option<Answer>, exited: bool, reported: bool)
    requires Inv(w) && WorkerMoves(w, w', k, answer, exited, reported)
    ensures Inv(w')
  {
    assert WorkerHolds(w, k);
    WorkerHoldsOn(w, w', k, answer, exited, reported);
    hide WorkerHolds;
  }

  /** Nothing a thread depends on changes. */
  lemma WorkersStay(w: World, w': World)
    requires forall j :: 0 <= j < |w.workers| ==> WorkerHolds(w, j)
    requires w'.workers == w.workers && w'.children == w.children && w'.request == w.request && w'.confirmed == w.confirmed
    requires w'.m.thread == w.m.thread && w'.m.process == w.m.process && w'.m.invocation == w.m.invocation
    requires w'.m.cancelling == w.m.cancelling && w'.m.cancellationQuery == w.m.cancellationQuery && w'.m.status == w.m.status
    ensures forall j :: 0 <= j < |w'.workers| ==> WorkerHolds(w', j)
  {
    forall j | 0 <= j < |w'.workers| ensures WorkerHolds(w', j) {
      assert WorkerHolds(w, j);
    }
  }

  lemma ReadKeeps(w: World, w': World, step: Step)
    requires Inv(w) && NextBy(w, w', step) && (step.ReadEvent? || step.ReadEnd?)
    ensures Inv(w')
  {
    hide WorkerHolds;
    WorkersStay(w, w');
  }

  lemma RequestKeeps(w: World, w': World, step: Step)
    requires Inv(w) && NextBy(w, w', step)
    requires step.LaunchReader? || step.SendSignal? || step.KillRequest? || step.SendKill? || step.FinishKill?
    ensures Inv(w')
  {
    forall j | 0 <= j < |w'.workers| ensures WorkerHolds(w', j) {
      assert WorkerHolds(w, j);
    }
  }

  lemma StepKeepsInvariant(w: World, w': World, step: Step)
    requires Inv(w) && NextBy(w, w', step)
    ensures Inv(w')
  {
    hide Inv;
    match step
    case StartRequest(spawns) => StartKeeps(w, w', spawns);
    case CancelRequest(id) => CancelKeeps(w, w', id);
    case StoreThread => StoreKeeps(w, w');
    case StartThread => StartThreadKeeps(w, w');
    case ChildExits(p, code) => ExitKeeps(w, w', p, code);
    case WorkerStep(k, answer, exited, reported) => WorkerKeeps(w, w', k, answer, exited, reported);
    case ReadEvent(_, _) => ReadKeeps(w, w', step);
    case ReadEnd(_) => ReadKeeps(w, w', step);
    case _ => RequestKeeps(w, w', step);
  }

  // ------------------------------------------------------------------------------------------
  // Threads of earlier builds

  /** Steps of threads, as opposed to requests and the child itself. */
  predicate IsThreadOf(w: World, step: Step, invocation: nat) {
    match step
    case WorkerStep(k, _, _, _) => k < |w.workers| && w.workers[k].invocation == invocation
    case ReadEvent(k, _) => k < |w.readers| && w.readers[k].invocation == invocation
    case ReadEnd(k) => k < |w.readers| && w.readers[k].invocation == invocation
    case _ => false
  }

  // ------------------------------------------------------------------------------------------
  // Whole runs

  ghost predicate IsRun(ws: seq<World>) {
    && ws != [] && ws[0] == Start
    && forall k :: 0 <= k < |ws| - 1 ==> Next(ws[k], ws[k + 1])
  }

  lemma {:induction false} RunsHold(ws: seq<World>, k: nat)
    requires IsRun(ws) && k < |ws|
    ensures Inv(ws[k])
  {
    hide NextBy;
    if k > 0 {
      hide Inv;
      RunsHold(ws, k - 1);
      var step :| NextBy(ws[k - 1], ws[k], step);
      StepKeepsInvariant(ws[k - 1], ws[k], step);
    }
  }

  /** In every run at most one child is live, and it is the manager's. */
  lemma AtMostOneChild(ws: seq<World>, k: nat, p: nat, q: nat)
    requires IsRun(ws) && k < |ws| && IsLive(ws[k], p) && IsLive(ws[k], q)
    ensures p == q && ws[k].m.process == Some(p)
  {
    RunsHold(ws, k);
  }

  /** In every run the identity checks of a cancellation thread never fail: no build starts before
      the thread has ended. */
  lemma MovingWorkerIsCurrent(ws: seq<World>, k: nat, worker: nat)
    requires IsRun(ws) && k < |ws| && worker < |ws[k].workers| && ws[k].workers[worker].stage != Ended
    ensures IsCurrent(ws[k].m, ws[k].workers[worker].process, ws[k].workers[worker].invocation)
  {
    RunsHold(ws, k);
    assert WorkerHolds(ws[k], worker);
  }

  /** In every run, a thread changes the manager only while its own build is the manager's. */
  lemma EarlierThreadsChangeNothing(ws: seq<World>, k: nat, step: Step, invocation: nat)
    requires IsRun(ws) && k + 1 < |ws| && NextBy(ws[k], ws[k + 1], step)
    requires IsThreadOf(ws[k], step, invocation) && ws[k].m.invocation != Some(invocation)
    ensures ws[k + 1].m == ws[k].m
  {
    if step.WorkerStep? && ws[k].workers[step.worker].stage != Ended {
      MovingWorkerIsCurrent(ws, k, step.worker);
    }
  }

  /** In every run, `cancelled` means the child exited and the query that was active at the request
      was confirmed terminated. */
  lemma CancelledIsTrue(ws: seq<World>, k: nat)
    requires IsRun(ws) && k < |ws| && ws[k].m.status == Cancelled
    ensures var w := ws[k];
            && w.m.process.Some? && w.m.process.value < |w.children| && w.children[w.m.process.value].Some?
            && w.m.invocation.Some?
            && (w.m.cancellationQuery.Some? ==> (w.m.invocation.value, w.m.cancellationQuery.value) in w.confirmed)
  {
    RunsHold(ws, k);
  }

  /** Every launch has a new identity. */
  lemma LaunchesGrow(w: World, w': World, step: Step)
    requires Inv(w) && NextBy(w, w', step)
    ensures w.launches <= w'.launches
    ensures w'.m.invocation == w.m.invocation || w'.m.invocation == None || w'.m.invocation == Some(w.launches)
  {
    hide Inv;
  }

  /** Within one build, a failed cancellation stays failed. */
  lemma FailureStaysOneStep(w: World, w': World, step: Step)
    requires Inv(w) && NextBy(w, w', step)
    requires w.m.status == CancellationFailed && w'.m.invocation == w.m.invocation && w.m.invocation.Some?
    ensures w'.m.status == CancellationFailed
  {
    if step.WorkerStep? {
      assert WorkerHolds(w, step.worker);
    }
  }

  lemma {:induction false} LaunchesKnown(ws: seq<World>, j: nat, k: nat, launch: nat)
    requires IsRun(ws) && j <= k < |ws| && ws[j].m.invocation == Some(launch)
    ensures launch < ws[k].launches
  {
    hide NextBy;
    RunsHold(ws, k);
    if j < k {
      hide Inv;
      LaunchesKnown(ws, j, k - 1, launch);
      RunsHold(ws, k - 1);
      var step :| NextBy(ws[k - 1], ws[k], step);
      LaunchesGrow(ws[k - 1], ws[k], step);
    }
  }

  lemma {:induction false} FailedNeverBecomesCancelled(ws: seq<World>, j: nat, k: nat, launch: nat)
    requires IsRun(ws) && j <= k < |ws| && ws[j].m.status == CancellationFailed
    requires ws[j].m.invocation == Some(launch) && ws[k].m.invocation == Some(launch)
    ensures ws[k].m.status == CancellationFailed
  {
    hide NextBy, Inv;
    if j < k {
      RunsHold(ws, k - 1);
      LaunchesKnown(ws, j, k - 1, launch);
      var step :| NextBy(ws[k - 1], ws[k], step);
      LaunchesGrow(ws[k - 1], ws[k], step);
      FailedNeverBecomesCancelled(ws, j, k - 1, launch);
      FailureStaysOneStep(ws[k - 1], ws[k], step);
    }
  }
}
