/** The statement a build is at, told from the events its output reported
    (src/sqltide/dev_server/classes/build_process.py). */
module BuildQueries {
  import opened Chars
  import opened BuildProcess
  import opened BuildCancellation

  /** A run together with the steps it took. */
  ghost predicate IsRunBy(ws: seq<World>, steps: seq<Step>) {
    && |ws| == |steps| + 1 && ws[0] == Start
    && forall k :: 0 <= k < |steps| ==> NextBy(ws[k], ws[k + 1], steps[k])
  }

  lemma RunsBySteps(ws: seq<World>, steps: seq<Step>)
    requires IsRunBy(ws, steps)
    ensures IsRun(ws)
  {
    hide NextBy;
    forall k | 0 <= k < |ws| - 1 ensures Next(ws[k], ws[k + 1]) {
      assert NextBy(ws[k], ws[k + 1], steps[k]);
    }
  }

  predicate IsReadOf(w: World, step: Step, launch: nat) {
    step.ReadEvent? && step.reader < |w.readers| && w.readers[step.reader].invocation == launch
  }

  /** The query of the statement of `launch` that was last reported as started, unless it was
      reported as completed since. */
  function RunningQuery(ws: seq<World>, steps: seq<Step>, launch: nat, k: nat): Option<Text>
    requires k <= |steps| <= |ws|
  {
    if k == 0 then None
    else if IsReadOf(ws[k - 1], steps[k - 1], launch) && steps[k - 1].event.StatementStarted? then steps[k - 1].event.query
    else if IsReadOf(ws[k - 1], steps[k - 1], launch) && steps[k - 1].event.StatementCompleted? then None
    else RunningQuery(ws, steps, launch, k - 1)
  }

  /** An output thread belongs to an earlier launch, or to the manager's and its process. */
  predicate IsPlaced(w: World, process: nat, invocation: nat) {
    invocation < w.launches && (w.m.invocation == Some(invocation) ==> w.m.process == Some(process))
  }

  ghost predicate ReadersHold(w: World) {
    && (forall r :: 0 <= r < |w.readers| ==> IsPlaced(w, w.readers[r].process, w.readers[r].invocation))
    && (w.request.Launching? ==> IsPlaced(w, w.request.process, w.request.invocation))
    && (w.m.invocation.Some? ==> w.m.invocation.value < w.launches)
  }

  /** The build stays, is gone, or is a new one. */
  predicate IsLaterBuild(w: World, w': World) {
    w.launches <= w'.launches
    && ((w'.m.invocation == w.m.invocation && w'.m.process == w.m.process)
        || w'.m.invocation == None
        || (w'.m.invocation == Some(w.launches) && w.launches < w'.launches))
  }

  lemma PlacedLater(w: World, w': World, process: nat, invocation: nat)
    requires IsPlaced(w, process, invocation) && IsLaterBuild(w, w')
    ensures IsPlaced(w', process, invocation)
  {
  }

  lemma StepsGoOn(w: World, w': World, step: Step)
    requires NextBy(w, w', step)
    ensures IsLaterBuild(w, w')
  {
    hide InterimNoted, CancelFinished, EventRead, OutputEnded, IsBusy;
    EventKeepsBuild(w.m);
  }

  lemma EventKeepsBuild(m: Manager)
    ensures forall event :: EventRead(m, event).invocation == m.invocation && EventRead(m, event).process == m.process
    ensures forall exit :: OutputEnded(m, exit).invocation == m.invocation && OutputEnded(m, exit).process == m.process
    ensures forall query, answer :: InterimNoted(m, query, answer).invocation == m.invocation && InterimNoted(m, query, answer).process == m.process
    ensures forall query, answer, exit ::
              CancelFinished(m, query, answer, exit).invocation == m.invocation && CancelFinished(m, query, answer, exit).process == m.process
  {
  }

  /** Output threads are only added by a launch, and never change what they read. */
  lemma ReadersGoOn(w: World, w': World, step: Step)
    requires NextBy(w, w', step)
    ensures |w.readers| <= |w'.readers|
    ensures forall r :: 0 <= r < |w.readers| ==>
              w'.readers[r].process == w.readers[r].process && w'.readers[r].invocation == w.readers[r].invocation
    ensures |w'.readers| > |w.readers| ==>
              w.request.Launching? && w'.readers == w.readers + [Reader(w.request.process, w.request.invocation, false)]
    ensures w'.request.Launching? ==>
              w'.request == w.request || (w'.m.invocation == Some(w'.request.invocation) && w'.m.process == Some(w'.request.process)
                                          && w'.request.invocation < w'.launches)
  {
    hide InterimNoted, CancelFinished, EventRead, OutputEnded, IsBusy;
  }

  lemma StepKeepsReaders(w: World, w': World, step: Step)
    requires ReadersHold(w) && NextBy(w, w', step)
    ensures ReadersHold(w') && w.launches <= w'.launches
  {
    StepsGoOn(w, w', step);
    ReadersGoOn(w, w', step);
    hide NextBy;
    forall r | 0 <= r < |w'.readers| ensures IsPlaced(w', w'.readers[r].process, w'.readers[r].invocation) {
      if r < |w.readers| {
        PlacedLater(w, w', w.readers[r].process, w.readers[r].invocation);
      } else {
        PlacedLater(w, w', w.request.process, w.request.invocation);
      }
    }
    if w'.request.Launching? && w'.request == w.request {
      PlacedLater(w, w', w.request.process, w.request.invocation);
    }
  }

  lemma {:induction false} ReadersAlwaysHold(ws: seq<World>, steps: seq<Step>, k: nat)
    requires IsRunBy(ws, steps) && k < |ws|
    ensures ReadersHold(ws[k])
  {
    hide NextBy;
    if k > 0 {
      hide ReadersHold;
      ReadersAlwaysHold(ws, steps, k - 1);
      StepKeepsReaders(ws[k - 1], ws[k], steps[k - 1]);
    }
  }

  /** Nothing is reported of a launch to come. */
  lemma {:induction false} NothingReportedYet(ws: seq<World>, steps: seq<Step>, launch: nat, k: nat)
    requires IsRunBy(ws, steps) && k < |ws| && ws[k].launches <= launch
    ensures RunningQuery(ws, steps, launch, k) == None
  {
    hide NextBy;
    if k > 0 {
      ReadersAlwaysHold(ws, steps, k - 1);
      StepKeepsReaders(ws[k - 1], ws[k], steps[k - 1]);
      NothingReportedYet(ws, steps, launch, k - 1);
    }
  }

  /** What one step does to the noted query of a build. */
  lemma QueryAfter(w: World, w': World, step: Step, launch: nat)
    requires ReadersHold(w) && NextBy(w, w', step) && w'.m.invocation == Some(launch)
    ensures if w.m.invocation != Some(launch) then launch == w.launches && w'.m.activeQuery == None && !step.ReadEvent?
            else if IsReadOf(w, step, launch) && step.event.StatementStarted? then w'.m.activeQuery == step.event.query
            else if IsReadOf(w, step, launch) && step.event.StatementCompleted? then w'.m.activeQuery == None
            else w'.m.activeQuery == w.m.activeQuery
  {
    if step.ReadEvent? && step.reader < |w.readers| {
      assert IsPlaced(w, w.readers[step.reader].process, w.readers[step.reader].invocation);
    }
  }

  /** In every run the noted query is that of the statement the manager's build is at. */
  lemma {:induction false} NotedQueryIsRunning(ws: seq<World>, steps: seq<Step>, k: nat, launch: nat)
    requires IsRunBy(ws, steps) && k < |ws| && ws[k].m.invocation == Some(launch)
    ensures ws[k].m.activeQuery == RunningQuery(ws, steps, launch, k)
  {
    hide NextBy;
    if k > 0 {
      ReadersAlwaysHold(ws, steps, k - 1);
      QueryAfter(ws[k - 1], ws[k], steps[k - 1], launch);
      if ws[k - 1].m.invocation == Some(launch) {
        NotedQueryIsRunning(ws, steps, k - 1, launch);
      } else {
        NothingReportedYet(ws, steps, launch, k - 1);
      }
    }
  }

  /** The cancellation of `launch` was accepted at step `j`. */
  ghost predicate IsAcceptedAt(ws: seq<World>, steps: seq<Step>, j: nat, launch: nat) {
    && j < |steps| < |ws| && steps[j] == CancelRequest(launch)
    && ws[j].m.cancelling != Some(launch) && ws[j].m.invocation == Some(launch)
  }

  lemma CancellationAfter(w: World, w': World, step: Step, launch: nat)
    requires NextBy(w, w', step) && w'.m.cancelling == Some(launch)
    ensures if w.m.cancelling == Some(launch) then w'.m.cancellationQuery == w.m.cancellationQuery
            else step == CancelRequest(launch) && w.m.invocation == Some(launch) && w'.m.cancellationQuery == w.m.activeQuery
  {
  }

  /** In every run the query noted for a cancellation is that of the statement the build was at
      when the cancellation was accepted. */
  lemma {:induction false} CancellationNotesTheQuery(ws: seq<World>, steps: seq<Step>, k: nat, launch: nat) returns (j: nat)
    requires IsRunBy(ws, steps) && k < |ws| && ws[k].m.cancelling == Some(launch)
    ensures j < k && IsAcceptedAt(ws, steps, j, launch)
    ensures ws[k].m.cancellationQuery == RunningQuery(ws, steps, launch, j)
  {
    hide NextBy;
    CancellationAfter(ws[k - 1], ws[k], steps[k - 1], launch);
    if ws[k - 1].m.cancelling == Some(launch) {
      j := CancellationNotesTheQuery(ws, steps, k - 1, launch);
    } else {
      j := k - 1;
      NotedQueryIsRunning(ws, steps, j, launch);
    }
  }

  /** So `cancelled` means that the statement the build was at when it was asked to stop, if any,
      was confirmed terminated. */
  lemma CancelledStoppedTheStatement(ws: seq<World>, steps: seq<Step>, k: nat) returns (launch: nat, j: nat)
    requires IsRunBy(ws, steps) && k < |ws| && ws[k].m.status == Cancelled
    ensures ws[k].m.invocation == Some(launch) && j < k && IsAcceptedAt(ws, steps, j, launch)
    ensures var query := RunningQuery(ws, steps, launch, j); query.Some? ==> (launch, query.value) in ws[k].confirmed
  {
    hide NextBy;
    RunsBySteps(ws, steps);
    RunsHold(ws, k);
    launch := ws[k].m.invocation.value;
    j := CancellationNotesTheQuery(ws, steps, k, launch);
  }
}
