/** The fields guarded by the build manager's lock, and its locked sections
    (src/sqltide/dev_server/classes/build_process.py). */
module BuildProcess {
  import opened Chars

  datatype CancelStatus = NoStatus | Cancelling | Cancelled | CancellationFailed

  /** What the warehouse said about the query to cancel: `None` for an error or no canceller. */
  datatype Answer = Answer(supported: bool, confirmed: bool)

  datatype ReportedEvent =
    | RunStarted(invocation: Text)
    | StatementStarted(query: Option<Text>)
    | StatementCompleted
    | OtherEvent

  /** Processes and threads are numbered; an invocation is the identity of one launch. */
  datatype Manager = Manager(
    process: Option<nat>,
    invocation: Option<nat>,
    currentInvocation: Option<Text>,
    cancelling: Option<nat>,
    forceAvailable: bool,
    activeQuery: Option<Text>,
    cancellationQuery: Option<Text>,
    status: CancelStatus,
    exitCode: Option<int>,
    thread: Option<nat>,
    statements: nat)

  const NewManager: Manager :=
    Manager(None, None, None, None, false, None, None, NoStatus, None, None, 0)

  /** The query was not confirmed terminated. */
  predicate WarehouseFailed(query: Option<Text>, answer: Option<Answer>) {
    query.Some? && (answer.None? || !answer.value.supported || !answer.value.confirmed)
  }

  function FinalStatus(query: Option<Text>, answer: Option<Answer>): CancelStatus {
    if WarehouseFailed(query, answer) then CancellationFailed else Cancelled
  }

  /** A thread that holds `process` and `invocation` may still write. */
  predicate IsCurrent(m: Manager, process: nat, invocation: nat) {
    m.process == Some(process) && m.invocation == Some(invocation)
  }

  // ------------------------------------------------------------------------------------------
  // What each locked section makes of the fields

  function Reset(m: Manager, invocation: Option<nat>): Manager {
    NewManager.(process := m.process, invocation := invocation, thread := m.thread)
  }

  function Launched(m: Manager, process: nat, invocation: nat): Manager {
    Reset(m, Some(invocation)).(process := Some(process))
  }

  function CancelBegun(m: Manager, invocation: nat): Manager {
    m.(cancelling := Some(invocation), status := Cancelling, cancellationQuery := m.activeQuery)
  }

  function InterimNoted(m: Manager, query: Option<Text>, answer: Option<Answer>): Manager {
    m.(forceAvailable := true, status := if WarehouseFailed(query, answer) then CancellationFailed else Cancelling)
  }

  function CancelFinished(m: Manager, query: Option<Text>, answer: Option<Answer>, exit: int): Manager {
    m.(forceAvailable := false, status := FinalStatus(query, answer), exitCode := Some(exit))
  }

  function EventRead(m: Manager, event: ReportedEvent): Manager {
    match event
    case RunStarted(invocation) => m.(currentInvocation := Some(invocation))
    case StatementStarted(query) => m.(activeQuery := query)
    case StatementCompleted => m.(statements := m.statements + 1, activeQuery := None)
    case OtherEvent => m
  }

  function OutputEnded(m: Manager, exit: int): Manager {
    m.(exitCode := Some(exit), forceAvailable := false)
  }

  /** The locked sections as written.  `alive` answers for a process or a thread. */
  class BuildProcessManager {
    var process: Option<nat>
    var invocation: Option<nat>
    var currentInvocation: Option<Text>
    var cancelling: Option<nat>
    var forceAvailable: bool
    var activeQuery: Option<Text>
    var cancellationQuery: Option<Text>
    var status: CancelStatus
    var exitCode: Option<int>
    var thread: Option<nat>
    var statements: nat

    function Fields(): Manager
      reads this
    {
      Manager(process, invocation, currentInvocation, cancelling, forceAvailable, activeQuery,
              cancellationQuery, status, exitCode, thread, statements)
    }

    constructor ()
      ensures Fields() == NewManager
    {
      process, invocation, currentInvocation, cancelling, forceAvailable := None, None, None, None, false;
      activeQuery, cancellationQuery, status, exitCode, thread, statements := None, None, NoStatus, None, None, 0;
    }

    /** `spawned` is the new child, or `None` when it could not be started. */
    method StartLocked(launch: nat, spawned: Option<nat>, processAlive: nat -> bool, threadAlive: nat -> bool) returns (started: bool)
      modifies this
      ensures var m := old(Fields());
              var busy := (m.thread.Some? && threadAlive(m.thread.value)) || (m.process.Some? && processAlive(m.process.value));
              && started == (!busy && spawned.Some?)
              && Fields() == if busy then m
                             else if spawned.Some? then Launched(m, spawned.value, launch)
                             else Reset(m, None)
    {
      if (thread.Some? && threadAlive(thread.value)) || (process.Some? && processAlive(process.value)) {
        return false;
      }
      statements := 0;
      invocation := Some(launch);
      currentInvocation, cancelling := None, None;
      forceAvailable := false;
      activeQuery, cancellationQuery := None, None;
      status := NoStatus;
      exitCode := None;
      if spawned.None? {
        invocation := None;
        return false;
      }
      process := spawned;
      return true;
    }

    method OwnedProcessLocked(id: nat, processAlive: nat -> bool) returns (owned: Option<nat>)
      ensures owned == if invocation == Some(id) && process.Some? && processAlive(process.value) then process else None
    {
      if invocation != Some(id) || process.None? || !processAlive(process.value) {
        return None;
      }
      return process;
    }

    method CancelLocked(id: nat, processAlive: nat -> bool) returns (owned: Option<nat>)
      modifies this
      ensures var m := old(Fields());
              if m.cancelling != Some(id) && m.invocation == Some(id) && m.process.Some? && processAlive(m.process.value)
              then owned == m.process && Fields() == CancelBegun(m, id)
              else owned == None && Fields() == m
    {
      if cancelling == Some(id) {
        return None;
      }
      owned := OwnedProcessLocked(id, processAlive);
      if owned.Some? {
        cancelling := Some(id);
        status := Cancelling;
        cancellationQuery := activeQuery;
      }
    }

    method InterimLocked(worker: nat, launch: nat, query: Option<Text>, answer: Option<Answer>) returns (current: bool)
      modifies this
      ensures var m := old(Fields());
              current == IsCurrent(m, worker, launch) && Fields() == if current then InterimNoted(m, query, answer) else m
    {
      if process != Some(worker) || invocation != Some(launch) {
        return false;
      }
      forceAvailable := true;
      status := if WarehouseFailed(query, answer) then CancellationFailed else Cancelling;
      return true;
    }

    method FinishLocked(worker: nat, launch: nat, query: Option<Text>, answer: Option<Answer>, exit: int) returns (current: bool)
      modifies this
      ensures var m := old(Fields());
              current == IsCurrent(m, worker, launch) && Fields() == if current then CancelFinished(m, query, answer, exit) else m
    {
      if process != Some(worker) || invocation != Some(launch) {
        return false;
      }
      forceAvailable := false;
      status := if WarehouseFailed(query, answer) then CancellationFailed else Cancelled;
      exitCode := Some(exit);
      return true;
    }

    method OutcomeLostLocked()
      modifies `status
      ensures Fields() == old(Fields()).(status := CancellationFailed)
    {
      status := CancellationFailed;
    }

    method ClearThreadLocked(me: nat)
      modifies `thread
      ensures Fields() == if old(thread) == Some(me) then old(Fields()).(thread := None) else old(Fields())
    {
      if thread == Some(me) {
        thread := None;
      }
    }

    method ReadEventLocked(reader: nat, launch: nat, event: ReportedEvent)
      modifies this
      ensures var m := old(Fields());
              Fields() == if IsCurrent(m, reader, launch) then EventRead(m, event) else m
    {
      if process != Some(reader) || invocation != Some(launch) {
        return;
      }
      if event.RunStarted? {
        currentInvocation := Some(event.invocation);
      }
      if event.StatementStarted? {
        activeQuery := event.query;
      }
      if event.StatementCompleted? {
        statements := statements + 1;
        activeQuery := None;
      }
    }

    method OutputEndedLocked(reader: nat, launch: nat, exit: int)
      modifies this
      ensures var m := old(Fields());
              Fields() == if IsCurrent(m, reader, launch) then OutputEnded(m, exit) else m
    {
      if process != Some(reader) || invocation != Some(launch) {
        return;
      }
      exitCode := Some(exit);
      forceAvailable := false;
    }
  }
}
