/** The checkpoint-then-publish protocol with crashes between any two steps
    (examples/orders_demo/producer/fake_orders_producer.py). */
module ProducerMachine {
  import opened Orders

  /** `Sending(n)`: the checkpoint is written and `n` pending events were handed to the client.
      `Flushed`: the client confirmed them and the pending list is cleared in memory only. */
  datatype Phase = Working | Sending(sent: nat) | Flushed

  /** `made` and `saved` are the events made by the states in memory and on disk. */
  datatype World = World(
    mem: State, made: seq<Event>, disk: State, saved: seq<Event>,
    inFlight: seq<Event>, log: seq<Event>, phase: Phase)

  const Start: World := World(FirstState, [], FirstState, [], [], [], Working)

  datatype Step =
    | Work(after: State, events: seq<Event>)
    | Checkpoint
    | Send
    | Deliver(at: nat)
    | Flush
    | CheckpointCleared
    | Crash(surviving: nat)

  /** A tick or the seeding: new events continue the history, and nothing else is lost. */
  ghost predicate Continues(made: seq<Event>, mem: State, events: seq<Event>, after: State) {
    && after.pending == mem.pending + events
    && (Coherent(made, mem) ==> Coherent(made + events, after))
  }

  ghost predicate NextBy(w: World, w': World, step: Step) {
    match step
    case Work(after, events) =>
      && w.phase == Working && Continues(w.made, w.mem, events, after)
      && w' == w.(mem := after, made := w.made + events)
    case Checkpoint =>
      && w.phase == Working
      && w' == w.(disk := w.mem, saved := w.made, phase := if w.mem.pending == [] then Working else Sending(0))
    case Send =>
      && w.phase.Sending? && w.phase.sent < |w.mem.pending|
      && w' == w.(inFlight := w.inFlight + [w.mem.pending[w.phase.sent]], phase := Sending(w.phase.sent + 1))
    case Deliver(k) =>
      // the broker keeps the order of events with the same key
      && k < |w.inFlight| && (forall j :: 0 <= j < k ==> w.inFlight[j].order != w.inFlight[k].order)
      && w' == w.(inFlight := w.inFlight[..k] + w.inFlight[k + 1..], log := w.log + [w.inFlight[k]])
    case Flush =>
      && w.phase == Sending(|w.mem.pending|) && w.inFlight == []
      && w' == w.(mem := w.mem.(pending := []), phase := Flushed)
    case CheckpointCleared =>
      && w.phase == Flushed && w' == w.(disk := w.mem, saved := w.made, phase := Working)
    case Crash(n) =>
      && n <= |w.inFlight|
      && w' == w.(mem := w.disk, made := w.saved, inFlight := w.inFlight[..n], phase := Working)
  }

  ghost predicate Next(w: World, w': World) {
    exists step :: NextBy(w, w', step)
  }

  // ------------------------------------------------------------------------------------------
  // The invariant

  /** Everything made before the pending events of the checkpoint is published. */
  ghost predicate PublishedBefore(w: World) {
    && |w.disk.pending| <= |w.saved|
    && forall i :: 0 <= i < |w.saved| - |w.disk.pending| ==> w.saved[i] in w.log
  }

  ghost predicate PhaseHolds(w: World) {
    match w.phase
    case Working => |w.made| - |w.mem.pending| == |w.saved| - |w.disk.pending|
    case Sending(n) =>
      && w.mem == w.disk && w.made == w.saved && n <= |w.mem.pending|
      && forall m :: 0 <= m < n ==> w.mem.pending[m] in w.log + w.inFlight
    case Flushed =>
      && w.made == w.saved && w.mem == w.disk.(pending := []) && forall i :: 0 <= i < |w.saved| ==> w.saved[i] in w.log
  }

  ghost predicate Inv(w: World) {
    && Coherent(w.made, w.mem) && Coherent(w.saved, w.disk) && w.saved <= w.made
    && PublishedBefore(w) && PhaseHolds(w) && InOrder(w.log + w.inFlight, w.saved)
  }

  lemma SeenGrows(log: seq<Event>, h: seq<Event>, h': seq<Event>)
    requires InOrder(log, h) && h <= h'
    ensures InOrder(log, h')
  {
    forall j | 0 <= j < |log| ensures EarlierSeen(log[..j], h', log[j]) {
      assert EarlierSeen(log[..j], h, log[j]);
    }
  }

  lemma SeenPrefix(log: seq<Event>, more: seq<Event>, h: seq<Event>)
    requires InOrder(log + more, h)
    ensures InOrder(log, h)
  {
    forall j | 0 <= j < |log| ensures EarlierSeen(log[..j], h, log[j]) {
      assert EarlierSeen((log + more)[..j], h, (log + more)[j]);
      assert (log + more)[..j] == log[..j];
    }
  }

  lemma SeenAppend(log: seq<Event>, e: Event, h: seq<Event>)
    requires InOrder(log, h) && EarlierSeen(log, h, e)
    ensures InOrder(log + [e], h)
  {
    var r := log + [e];
    forall j | 0 <= j < |r| ensures EarlierSeen(r[..j], h, r[j]) {
      if j < |log| {
        assert r[..j] == log[..j];
        assert EarlierSeen(log[..j], h, log[j]);
      } else {
        assert r[..j] == log;
      }
    }
  }

  /** The delivered event: all it needs was published, since none of it was waiting. */
  lemma SeenAhead(log: seq<Event>, waiting: seq<Event>, k: nat, h: seq<Event>)
    requires InOrder(log + waiting, h) && k < |waiting|
    requires forall j :: 0 <= j < k ==> waiting[j].order != waiting[k].order
    ensures EarlierSeen(log, h, waiting[k])
  {
    var s, e := log + waiting, waiting[k];
    assert EarlierSeen(s[..|log| + k], h, s[|log| + k]);
    assert s[..|log| + k] == log + waiting[..k];
    forall i | 0 <= i < e.id - 1 && h[i].order == e.order ensures h[i] in log {
      assert h[i] in log + waiting[..k];
      forall m | 0 <= m < k ensures waiting[..k][m] != h[i] {
      }
    }
  }

  /** An event waiting before or behind the delivered one saw no less than before. */
  lemma SeenBehind(log: seq<Event>, waiting: seq<Event>, k: nat, h: seq<Event>, j: nat)
    requires InOrder(log + waiting, h) && k < |waiting| && j < |waiting| && j != k
    ensures var before := log + [waiting[k]] + if j < k then waiting[..j] else waiting[..k] + waiting[k + 1..j];
            EarlierSeen(before, h, waiting[j])
  {
    var s := log + waiting;
    var before := log + [waiting[k]] + if j < k then waiting[..j] else waiting[..k] + waiting[k + 1..j];
    assert EarlierSeen(s[..|log| + j], h, s[|log| + j]);
    assert s[..|log| + j] == log + waiting[..j];
    assert j > k ==> waiting[..j] == waiting[..k] + [waiting[k]] + waiting[k + 1..j];
    SeenAmong(log + waiting[..j], before, h, waiting[j]);
  }

  /** Delivering an event ahead of others of different orders keeps the order of each. */
  lemma SeenDelivered(log: seq<Event>, waiting: seq<Event>, k: nat, h: seq<Event>)
    requires InOrder(log + waiting, h) && k < |waiting|
    requires forall j :: 0 <= j < k ==> waiting[j].order != waiting[k].order
    ensures InOrder(log + [waiting[k]] + (waiting[..k] + waiting[k + 1..]), h)
  {
    hide EarlierSeen;
    var left := waiting[..k] + waiting[k + 1..];
    var front, r := log + [waiting[k]], log + [waiting[k]] + left;
    SeenPrefix(log, waiting, h);
    SeenAhead(log, waiting, k, h);
    SeenAppend(log, waiting[k], h);
    forall j | 0 <= j < |r| ensures EarlierSeen(r[..j], h, r[j]) {
      if j < |front| {
        assert r[..j] == front[..j] && r[j] == front[j];
      } else {
        var at := j - |front|;
        SeenBehind(log, waiting, k, h, if at < k then at else at + 1);
        assert r[..j] == front + if at < k then waiting[..at] else waiting[..k] + waiting[k + 1..at + 1];
      }
    }
  }

  lemma SeenAmong(a: seq<Event>, b: seq<Event>, h: seq<Event>, e: Event)
    requires EarlierSeen(a, h, e) && forall x :: x in a ==> x in b
    ensures EarlierSeen(b, h, e)
  {
  }

  lemma SendKeepsOrder(w: World)
    requires Inv(w) && w.phase.Sending? && w.phase.sent < |w.mem.pending|
    ensures EarlierSeen(w.log + w.inFlight, w.saved, w.mem.pending[w.phase.sent])
  {
    hide InOrder, IsHistory;
    var n, first := w.phase.sent, |w.saved| - |w.disk.pending|;
    var e := w.mem.pending[n];
    assert w.saved[first + n] == e;
    HistoryAt(w.saved, first + n);
    forall i | 0 <= i < first + n ensures w.saved[i] in w.log + w.inFlight {
      if i >= first {
        assert w.saved[i] == w.mem.pending[i - first];
      }
    }
  }

  lemma DeliverKeeps(w: World, k: nat, e: Event)
    requires k < |w.inFlight| && e in w.log + w.inFlight
    ensures e in w.log + [w.inFlight[k]] + (w.inFlight[..k] + w.inFlight[k + 1..])
  {
    if e in w.inFlight {
      var j :| 0 <= j < |w.inFlight| && w.inFlight[j] == e;
      assert j < k ==> w.inFlight[..k][j] == e;
      assert j > k ==> w.inFlight[k + 1..][j - k - 1] == e;
    }
  }

  ghost predicate Advances(w: World, w': World) {
    Inv(w') && w.saved <= w'.saved && w.log <= w'.log
  }

  lemma SaveKeeps(w: World, w': World)
    requires Inv(w) && (NextBy(w, w', Checkpoint) || NextBy(w, w', CheckpointCleared))
    ensures Advances(w, w')
  {
    hide Coherent, InOrder;
    CoherentPending(w.made, w.mem);
    SeenGrows(w.log + w.inFlight, w.saved, w'.saved);
  }

  lemma SendKeeps(w: World, w': World)
    requires Inv(w) && NextBy(w, w', Send)
    ensures Advances(w, w')
  {
    hide Coherent, InOrder;
    SendKeepsOrder(w);
    var e := w.mem.pending[w.phase.sent];
    SeenAppend(w.log + w.inFlight, e, w.saved);
    assert w.log + w.inFlight + [e] == w'.log + w'.inFlight;
  }

  lemma DeliveryKeeps(w: World, w': World, k: nat)
    requires Inv(w) && NextBy(w, w', Deliver(k))
    ensures Advances(w, w')
  {
    hide Coherent, InOrder;
    SeenDelivered(w.log, w.inFlight, k, w.saved);
    if w.phase.Sending? {
      forall m | 0 <= m < w.phase.sent ensures w.mem.pending[m] in w'.log + w'.inFlight {
        DeliverKeeps(w, k, w.mem.pending[m]);
      }
    }
  }

  lemma CrashKeeps(w: World, w': World, n: nat)
    requires Inv(w) && NextBy(w, w', Crash(n))
    ensures Advances(w, w')
  {
    hide Coherent, InOrder;
    assert w.log + w.inFlight == (w.log + w.inFlight[..n]) + w.inFlight[n..];
    SeenPrefix(w.log + w.inFlight[..n], w.inFlight[n..], w.saved);
  }

  lemma StepKeepsInvariant(w: World, w': World)
    requires Inv(w) && Next(w, w')
    ensures Advances(w, w')
  {
    hide Coherent, InOrder;
    var step :| NextBy(w, w', step);
    match step
    case Work(after, events) => CoherentPending(w'.made, w'.mem);
    case Checkpoint => SaveKeeps(w, w');
    case Send => SendKeeps(w, w');
    case Deliver(k) => DeliveryKeeps(w, w', k);
    case Flush => FlushHolds(w, w');
    case CheckpointCleared => SaveKeeps(w, w');
    case Crash(n) => CrashKeeps(w, w', n);
  }

  lemma CoherentPending(h: seq<Event>, s: State)
    requires Coherent(h, s)
    ensures |s.pending| <= |h|
  {
  }

  lemma FlushHolds(w: World, w': World)
    requires Inv(w) && NextBy(w, w', Flush)
    ensures Coherent(w'.made, w'.mem) && PhaseHolds(w')
  {
    hide IsHistory, ActiveCoherent, InOrder;
    var first := |w.saved| - |w.disk.pending|;
    forall i | 0 <= i < |w.saved| ensures w.saved[i] in w.log {
      if i >= first {
        assert w.saved[i] == w.mem.pending[i - first];
        assert w.log + w.inFlight == w.log;
      }
    }
  }

  // ------------------------------------------------------------------------------------------
  // Whole runs

  /** The worlds of a run, crashes included. */
  ghost predicate IsRun(ws: seq<World>) {
    && ws != [] && ws[0] == Start
    && forall k :: 0 <= k < |ws| - 1 ==> Next(ws[k], ws[k + 1])
  }

  lemma StartHolds()
    ensures Inv(Start)
  {
    hide Coherent, InOrder, PublishedBefore, PhaseHolds;
    FirstIsCoherent();
    NothingSeen();
    NothingPublished();
  }

  lemma NothingPublished()
    ensures PublishedBefore(Start) && PhaseHolds(Start)
  {
  }

  lemma FirstIsCoherent()
    ensures Coherent([], FirstState)
  {
    assert IsHistory([]);
    assert ActiveCoherent([], [], 1);
  }

  lemma NothingSeen()
    ensures InOrder([] + [], [])
  {
  }

  lemma {:induction false} RunsHold(ws: seq<World>, k: nat)
    requires IsRun(ws) && k < |ws|
    ensures Inv(ws[k])
  {
    hide Inv, Next;
    StartHolds();
    if k > 0 {
      RunsHold(ws, k - 1);
      StepKeepsInvariant(ws[k - 1], ws[k]);
    }
  }

  lemma {:induction false} RunsGrow(ws: seq<World>, j: nat, k: nat)
    requires IsRun(ws) && j <= k < |ws|
    ensures ws[j].saved <= ws[k].saved && ws[j].log <= ws[k].log
  {
    hide Inv, Next;
    if j < k {
      RunsGrow(ws, j, k - 1);
      RunsHold(ws, k - 1);
      StepKeepsInvariant(ws[k - 1], ws[k]);
    }
  }

  /** A crash can only resend identical events. */
  lemma ResentEventsAreIdentical(ws: seq<World>, k: nat, i: nat, j: nat)
    requires IsRun(ws) && k < |ws| && i < |ws[k].log| && j < |ws[k].log|
    requires ws[k].log[i].id == ws[k].log[j].id
    ensures ws[k].log[i] == ws[k].log[j]
  {
    hide Coherent, PhaseHolds, PublishedBefore;
    RunsHold(ws, k);
    var all := ws[k].log + ws[k].inFlight;
    assert EarlierSeen(all[..i], ws[k].saved, all[i]);
    assert EarlierSeen(all[..j], ws[k].saved, all[j]);
  }

  /** A checkpointed event stays checkpointed until it is published. */
  lemma NoCheckpointedEventIsLost(ws: seq<World>, j: nat, k: nat, e: Event)
    requires IsRun(ws) && j <= k < |ws| && e in ws[j].disk.pending
    ensures e in ws[k].disk.pending || e in ws[k].log
  {
    hide IsHistory, ActiveCoherent, InOrder, PhaseHolds;
    RunsHold(ws, j);
    RunsHold(ws, k);
    RunsGrow(ws, j, k);
    var p :| 0 <= p < |ws[j].disk.pending| && ws[j].disk.pending[p] == e;
    var i := |ws[j].saved| - |ws[j].disk.pending| + p;
    assert ws[j].saved[i] == e && ws[k].saved[i] == e;
    var first := |ws[k].saved| - |ws[k].disk.pending|;
    if i >= first {
      assert ws[k].disk.pending[i - first] == e;
    }
  }

  /** What consumers see of an order for the first time follows the transition graph. */
  lemma FirstOccurrencesFollowTransitions(ws: seq<World>, k: nat, order: nat)
    requires IsRun(ws) && k < |ws|
    ensures IsLifecycle(FirstSeen(ws[k].log, order))
    ensures FirstSeen(ws[k].log, order) <= Of(ws[k].saved, order)
  {
    hide PhaseHolds, PublishedBefore, IsHistory, Of, FirstSeen, InOrder;
    RunsHold(ws, k);
    SeenPrefix(ws[k].log, ws[k].inFlight, ws[k].saved);
    FirstSeenIsPrefix(ws[k].log, ws[k].saved, order);
    HistoriesAreLifecycles(ws[k].saved, order);
  }
}
