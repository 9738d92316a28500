/** The producer loop as written: every step it takes is a step of the protocol
    (examples/orders_demo/producer/fake_orders_producer.py). */
module Producer {
  import opened Orders
  import opened ProducerMachine
  import opened ProducerWork

  lemma RunGoesOn(trace: seq<World>, w': World, step: Step)
    requires IsRun(trace) && NextBy(trace[|trace| - 1], w', step)
    ensures IsRun(trace + [w'])
  {
    hide NextBy;
    assert Next(trace[|trace| - 1], w');
  }

  /** A crash in the middle of a tick is a crash before it: only memory differs. */
  lemma CrashForgetsWork(w: World, mem: State, made: seq<Event>, w': World, surviving: nat)
    ensures NextBy(w.(mem := mem, made := made), w', Crash(surviving)) <==> NextBy(w, w', Crash(surviving))
  {
  }

  /** `trace` remembers the worlds of the protocol the process has gone through.  Between two of
      them, while a tick or the seeding makes events, the file, the topic, the client and the last
      world stay as they were. */
  class Producer {
    var activeOrders: seq<Order>
    var nextOrderNumber: nat
    var nextEventNumber: nat
    var historySeeded: bool
    var pendingEvents: seq<Event>
    ghost var made: seq<Event>

    var file: State
    ghost var saved: seq<Event>
    var inFlight: seq<Event>
    var topic: seq<Event>
    ghost var phase: Phase
    ghost var trace: seq<World>

    function Mem(): State
      reads this
    {
      State(activeOrders, nextOrderNumber, nextEventNumber, historySeeded, pendingEvents)
    }

    ghost function Now(): World
      reads this
    {
      World(Mem(), made, file, saved, inFlight, topic, phase)
    }

    /** The trace is a run of the protocol, and its last world differs from now in memory at most. */
    ghost predicate Behind()
      reads this
    {
      && IsRun(trace)
      && var w := trace[|trace| - 1];
         file == w.disk && saved == w.saved && inFlight == w.inFlight && topic == w.log && phase == w.phase
    }

    /** The trace is a run of the protocol up to now. */
    ghost predicate Tracked()
      reads this
    {
      IsRun(trace) && trace[|trace| - 1] == Now()
    }

    constructor ()
      ensures Tracked() && Now() == Start && trace == [Start]
    {
      activeOrders, nextOrderNumber, nextEventNumber, historySeeded, pendingEvents := [], 1, 1, false, [];
      made, file, saved, inFlight, topic, phase := [], FirstState, [], [], [], Working;
      trace := [Start];
    }

    /** The world has taken a step of the protocol since the trace was last extended. */
    ghost method Record(step: Step)
      requires IsRun(trace) && NextBy(trace[|trace| - 1], Now(), step)
      modifies `trace
      ensures Tracked() && trace == old(trace) + [Now()]
    {
      RunGoesOn(trace, Now(), step);
      trace := trace + [Now()];
    }

    /** In every run the state in memory agrees with the events it has made. */
    lemma MemoryIsCoherent()
      requires Tracked()
      ensures Coherent(made, Mem())
    {
      RunsHold(trace, |trace| - 1);
    }

    lemma CountsEvents()
      requires Tracked()
      ensures nextEventNumber == |made| + 1
    {
      hide IsRun, IsHistory, ActiveCoherent;
      MemoryIsCoherent();
    }

    // ----------------------------------------------------------------------------------------
    // Making events

    /** The events so far are a history, and `active` agrees with it. */
    ghost predicate Progress(active: seq<Order>)
      reads this
    {
      && IsHistory(made) && nextEventNumber == |made| + 1 && ActiveCoherent(made, active, nextOrderNumber)
      && forall k :: 0 <= k < |made| ==> made[k].order < nextOrderNumber
    }

    /** What was made since is pending, behind what was pending before. */
    ghost predicate PendingSince(before: seq<Event>, pendingBefore: seq<Event>)
      reads this
    {
      before <= made && pendingEvents == pendingBefore + made[|before|..]
    }

    method CreateOrder(ghost active: seq<Order>) returns (order: Order)
      requires Progress(active)
      modifies `nextOrderNumber
      ensures nextOrderNumber == old(nextOrderNumber) + 1 && order.id == old(nextOrderNumber)
      ensures order.status == Created && 2 <= order.ticks <= 6
      ensures Progress(active) && LastStatus(made, order.id) == {}
      ensures forall k :: 0 <= k < |active| ==> active[k].id < order.id
    {
      hide IsHistory;
      var details: Details := *;
      var ticks :| 2 <= ticks <= 6;
      order := Order(nextOrderNumber, details, Created, ticks);
      nextOrderNumber := nextOrderNumber + 1;
    }

    /** The id is new to the history, and so are all after it. */
    method NextEventId() returns (id: nat)
      requires IsHistory(made) && nextEventNumber == |made| + 1
      modifies `nextEventNumber
      ensures id == |made| + 1 && nextEventNumber == id + 1
      ensures forall k :: 0 <= k < |made| ==> made[k].id < id
    {
      hide IsHistory;
      forall k | 0 <= k < |made| ensures made[k].id < nextEventNumber {
        HistoryAt(made, k);
      }
      id := nextEventNumber;
      nextEventNumber := nextEventNumber + 1;
    }

    /** Append one event that may follow the history.  The order it is about may be out of step
        with the list of active orders, which the caller rewrites. */
    method Append(order: Order, isCreation: bool, time: int)
      requires IsHistory(made) && nextEventNumber == |made| + 1 && order.id < nextOrderNumber
      requires MayFollow(made, Event(|made| + 1, isCreation, order.id, order.details, order.status, time))
      requires forall k :: 0 <= k < |made| ==> made[k].order < nextOrderNumber
      modifies `nextEventNumber, `pendingEvents, `made
      ensures var e := Event(old(nextEventNumber), isCreation, order.id, order.details, order.status, time);
              made == old(made) + [e] && pendingEvents == old(pendingEvents) + [e]
      ensures IsHistory(made) && nextEventNumber == |made| + 1
      ensures forall k :: 0 <= k < |made| ==> made[k].order < nextOrderNumber
      ensures forall id :: LastStatus(made, id) == if id == order.id then {order.status} else LastStatus(old(made), id)
    {
      hide IsHistory, LastStatus, MayFollow;
      var id := NextEventId();
      var e := Event(id, isCreation, order.id, order.details, order.status, time);
      HistoryNext(made, e);
      pendingEvents := pendingEvents + [e];
      made := made + [e];
    }

    // ----------------------------------------------------------------------------------------
    // One tick

    method TakeNewOrders(count: nat, now: int)
      requires Progress(activeOrders)
      modifies `activeOrders, `nextOrderNumber, `nextEventNumber, `pendingEvents, `made
      ensures Progress(activeOrders) && PendingSince(old(made), old(pendingEvents))
      ensures |activeOrders| == |old(activeOrders)| + count && old(activeOrders) <= activeOrders
      ensures AreTaken(activeOrders[|old(activeOrders)|..], made[|old(made)|..], old(nextOrderNumber), old(nextEventNumber), now)
      ensures nextOrderNumber == old(nextOrderNumber) + count
    {
      hide IsHistory, LastStatus, ActiveCoherent, AreTaken;
      NoneTaken(nextOrderNumber, nextEventNumber, now);
      assert made[|made|..] == [] && activeOrders[|activeOrders|..] == [];
      for k := 0 to count
        invariant Progress(activeOrders) && PendingSince(old(made), old(pendingEvents))
        invariant |activeOrders| == |old(activeOrders)| + k && old(activeOrders) <= activeOrders
        invariant AreTaken(activeOrders[|old(activeOrders)|..], made[|old(made)|..], old(nextOrderNumber), old(nextEventNumber), now)
        invariant nextOrderNumber == old(nextOrderNumber) + k
      {
        ghost var before := made;
        var order := CreateOrder(activeOrders);
        Append(order, true, now);
        ActiveGains(before, made, activeOrders, order, nextOrderNumber);
        SinceGrows(old(made), before, made);
        TakesOneMore(old(activeOrders), activeOrders, order, old(made), before, made, old(nextOrderNumber), now);
        activeOrders := activeOrders + [order];
      }
    }

    method AdvanceOrder(order: Order) returns (next: set<Status>)
      ensures |next| <= 1 && next <= Transitions(order.status)
      ensures next == {} <==> Transitions(order.status) == {}
    {
      if Transitions(order.status) == {} {
        return {};
      }
      var status :| status in Transitions(order.status);
      return {status};
    }

    method AgeOrders(now: int)
      requires Progress(activeOrders)
      modifies `activeOrders, `nextEventNumber, `pendingEvents, `made
      ensures Progress(activeOrders) && PendingSince(old(made), old(pendingEvents))
      ensures AllAged(old(activeOrders), activeOrders, made[|old(made)|..], old(nextEventNumber), now)
    {
      hide IsHistory, LastStatus, ActiveCoherent, AllAged, Aged;
      var stillActive: seq<Order> := [];
      assert stillActive + activeOrders[0..] == activeOrders;
      NoneAged(nextEventNumber, now);
      for k := 0 to |activeOrders|
        invariant activeOrders == old(activeOrders) && nextOrderNumber == old(nextOrderNumber)
        invariant Progress(stillActive + activeOrders[k..]) && PendingSince(old(made), old(pendingEvents))
        invariant AllAged(activeOrders[..k], stillActive, made[|old(made)|..], old(nextEventNumber), now)
      {
        ghost var before := made;
        var order := activeOrders[k].(ticks := activeOrders[k].ticks - 1);
        ghost var rest := activeOrders[k + 1..];
        ActiveHead(made, stillActive, activeOrders, k, nextOrderNumber);
        var kept: seq<Order> := [order];
        AgedWaits(activeOrders[k], |made| + 1, now);
        if order.ticks <= 0 {
          var next := AdvanceOrder(order);
          if next == {} {
            kept := [];
          } else {
            var status :| status in next;
            assert order.status in LastStatus(made, order.id);
            order := order.(status := status);
            Append(order, false, now);
            if IsTerminal(order.status) {
              kept := [];
            } else {
              var ticks :| 2 <= ticks <= 6;
              kept := [order.(ticks := ticks)];
            }
            AgedMoves(activeOrders[k], kept, made[|made| - 1], |before| + 1, now);
          }
        }
        ActiveChanges(before, made, stillActive, activeOrders[k], rest, kept, nextOrderNumber);
        SinceGrows(old(made), before, made);
        AgesOneMore(activeOrders, k, stillActive, kept, old(made), before, made, now);
        stillActive := stillActive + kept;
      }
      assert stillActive + activeOrders[|activeOrders|..] == stillActive;
      assert activeOrders[..|activeOrders|] == activeOrders;
      activeOrders := stillActive;
    }

    method Tick(newOrders: nat, now: int)
      requires Tracked() && phase == Working
      modifies `activeOrders, `nextOrderNumber, `nextEventNumber, `pendingEvents, `made, `trace
      ensures Tracked() && old(trace) <= trace && phase == Working
      ensures historySeeded == old(historySeeded) && PendingSince(old(made), old(pendingEvents))
      ensures Ticked(old(activeOrders), activeOrders, made[|old(made)|..], newOrders, old(nextOrderNumber), old(nextEventNumber), now)
      ensures nextOrderNumber == old(nextOrderNumber) + newOrders
    {
      hide IsHistory, ActiveCoherent, NextBy, IsRun, AllAged, AreTaken, Ticked;
      MemoryIsCoherent();
      TakeNewOrders(newOrders, now);
      ghost var taken, between := activeOrders[|old(activeOrders)|..], made;
      assert activeOrders == old(activeOrders) + taken;
      assert Behind();
      AgeOrders(now);
      TakesThenAges(old(activeOrders), taken, activeOrders, old(made), between, made, old(nextOrderNumber), now);
      ghost var events := made[|old(made)|..];
      assert old(made) + events == made;
      StillCoherent(old(made), old(Mem()), made, Mem());
      WorkIsStep(old(Now()), Mem(), events);
      Record(Work(Mem(), events));
    }

    // ----------------------------------------------------------------------------------------
    // The first history

    method SeedHistory(baseTime: int) returns (messagesSent: nat)
      requires Tracked() && phase == Working
      modifies `historySeeded, `nextOrderNumber, `nextEventNumber, `pendingEvents, `made, `trace
      ensures Tracked() && old(trace) <= trace && phase == Working
      ensures historySeeded && PendingSince(old(made), old(pendingEvents)) && messagesSent == |made| - |old(made)|
      ensures AllSeeded(made[|old(made)|..], HISTORY_ORDERS, old(nextOrderNumber), old(nextEventNumber), baseTime)
      ensures nextOrderNumber == old(nextOrderNumber) + HISTORY_ORDERS
    {
      hide IsHistory, ActiveCoherent, NextBy, LastStatus, IsRun, AllSeeded, IsSeeded;
      MemoryIsCoherent();
      messagesSent := 0;
      NoneSeeded(nextOrderNumber, nextEventNumber, baseTime);
      for index := 0 to HISTORY_ORDERS
        invariant Progress(activeOrders) && PendingSince(old(made), old(pendingEvents)) && trace == old(trace)
        invariant messagesSent == |made| - |old(made)| && nextOrderNumber == old(nextOrderNumber) + index
        invariant AllSeeded(made[|old(made)|..], index, old(nextOrderNumber), old(nextEventNumber), baseTime)
      {
        assert Behind();
        ghost var before := made;
        var sent := SeedOrder(index, baseTime + 2 * index);
        SeedsOneMore(old(made), before, made, index, old(nextOrderNumber), baseTime);
        messagesSent := messagesSent + sent;
      }
      historySeeded := true;
      StillCoherent(old(made), old(Mem()), made, Mem());
      ghost var events := made[|old(made)|..];
      assert old(made) + events == made;
      WorkIsStep(old(Now()), Mem(), events);
      Record(Work(Mem(), events));
    }

    method SeedOrder(index: nat, time: int) returns (sent: nat)
      requires Progress(activeOrders)
      modifies `nextOrderNumber, `nextEventNumber, `pendingEvents, `made
      ensures Progress(activeOrders) && PendingSince(old(made), old(pendingEvents))
      ensures sent == |made| - |old(made)| && nextOrderNumber == old(nextOrderNumber) + 1
      ensures IsSeeded(made[|old(made)|..], index, old(nextOrderNumber), old(nextEventNumber), time)
    {
      hide IsHistory, ActiveCoherent, LastStatus;
      var order := CreateOrder(activeOrders);
      ghost var before := made;
      Append(order, true, time);
      ActiveIgnores(before, made, activeOrders, order.id, nextOrderNumber);
      sent := 1;
      var statuses := SeededStatuses(index);
      for step := 0 to |statuses|
        invariant Progress(activeOrders) && PendingSince(old(made), old(pendingEvents))
        invariant order.id < nextOrderNumber && LastStatus(made, order.id) == {order.status}
        invariant forall k :: 0 <= k < |activeOrders| ==> activeOrders[k].id < order.id
        invariant order.status == if step == 0 then Created else statuses[step - 1]
        invariant sent == |made| - |old(made)| == 1 + step && nextOrderNumber == old(nextOrderNumber) + 1
        invariant order.id == old(nextOrderNumber)
        invariant made[|old(made)|] == Event(old(nextEventNumber), true, order.id, order.details, Created, time)
        invariant forall k :: 1 <= k <= step ==>
                    made[|old(made)| + k] == Event(old(nextEventNumber) + k, false, order.id, order.details, statuses[k - 1], time + 5 * k)
      {
        SeededTransition(index, step);
        before := made;
        assert order.status in LastStatus(made, order.id);
        order := order.(status := statuses[step]);
        Append(order, false, time + 5 * (step + 1));
        SinceGrows(old(made), before, made);
        ActiveIgnores(before, made, activeOrders, order.id, nextOrderNumber);
        sent := sent + 1;
      }
    }

    // ----------------------------------------------------------------------------------------
    // Checkpoint first, then publish

    method SaveState()
      requires Tracked() && (phase == Working || phase == Flushed)
      modifies `file, `saved, `phase, `trace
      ensures Tracked() && trace == old(trace) + [Now()] && file == Mem() && saved == made
      ensures phase == if old(phase) == Flushed || pendingEvents == [] then Working else Sending(0)
    {
      hide IsRun;
      ghost var step := if phase == Working then Checkpoint else CheckpointCleared;
      file := Mem();
      saved := made;
      phase := if phase == Working && pendingEvents != [] then Sending(0) else Working;
      Record(step);
    }

    method SendEvent(event: Event)
      requires Tracked() && phase.Sending? && phase.sent < |pendingEvents| && event == pendingEvents[phase.sent]
      modifies `inFlight, `phase, `trace
      ensures Tracked() && trace == old(trace) + [Now()] && phase == Sending(old(phase).sent + 1)
      ensures inFlight == old(inFlight) + [event]
    {
      hide IsRun;
      inFlight := inFlight + [event];
      phase := Sending(phase.sent + 1);
      Record(Send);
    }

    /** Wait until the broker has everything, then forget the pending events in memory. */
    method FlushAndClear()
      requires Tracked() && phase == Sending(|pendingEvents|)
      modifies `inFlight, `topic, `pendingEvents, `phase, `trace
      ensures Tracked() && old(trace) <= trace && phase == Flushed && pendingEvents == [] && inFlight == []
      ensures topic == old(topic) + old(inFlight)
    {
      hide IsRun;
      while inFlight != []
        invariant pendingEvents == old(pendingEvents) && phase == Sending(|pendingEvents|)
        invariant Tracked() && old(trace) <= trace && topic + inFlight == old(topic) + old(inFlight)
        decreases |inFlight|
      {
        ghost var waiting := inFlight;
        topic := topic + [inFlight[0]];
        inFlight := inFlight[1..];
        assert waiting[..0] + waiting[1..] == inFlight;
        Record(Deliver(0));
      }
      pendingEvents := [];
      phase := Flushed;
      Record(Flush);
    }

    method PublishPending()
      requires Tracked() && phase == Working
      modifies `file, `saved, `inFlight, `topic, `pendingEvents, `phase, `trace
      ensures Tracked() && old(trace) <= trace && phase == Working
      ensures pendingEvents == [] && file == Mem()
      ensures topic + inFlight == old(topic) + old(inFlight) + old(pendingEvents)
      ensures old(pendingEvents) != [] ==> inFlight == []
    {
      hide IsRun, NextBy;
      SaveState();
      if pendingEvents == [] {
        return;
      }
      for k := 0 to |pendingEvents|
        invariant Mem() == old(Mem()) && phase == Sending(k)
        invariant Tracked() && old(trace) <= trace && topic == old(topic)
        invariant inFlight == old(inFlight) + pendingEvents[..k]
      {
        SendEvent(pendingEvents[k]);
      }
      assert pendingEvents[..|pendingEvents|] == pendingEvents;
      FlushAndClear();
      assert topic == old(topic) + (old(inFlight) + old(pendingEvents));
      assert topic == old(topic) + old(inFlight) + old(pendingEvents);
      SaveState();
    }

    /** The process dies at any point, also between two worlds of the trace; the client may still
        have sent some of what it held. */
    method CrashAndRestart(surviving: nat)
      requires Behind() && surviving <= |inFlight|
      modifies this
      ensures Tracked() && old(trace) <= trace && phase == Working && Mem() == file == old(file)
      ensures topic == old(topic) && made == old(saved)
    {
      hide IsRun;
      activeOrders, nextOrderNumber, nextEventNumber := file.active, file.nextOrder, file.nextEvent;
      historySeeded, pendingEvents := file.seeded, file.pending;
      inFlight := inFlight[..surviving];
      made, phase := saved, Working;
      Record(Crash(surviving));
    }

    /** One round of the stream: what it makes is published. */
    method TickAndPublish(newOrders: nat)
      requires Tracked() && phase == Working && pendingEvents == []
      modifies this
      ensures Tracked() && old(trace) <= trace && phase == Working && pendingEvents == []
      ensures historySeeded == old(historySeeded) && nextOrderNumber == old(nextOrderNumber) + newOrders
      ensures old(made) <= made && topic + inFlight == old(topic) + old(inFlight) + made[|old(made)|..]
      ensures TickedOnce(old(activeOrders), activeOrders, made[|old(made)|..], newOrders, old(nextOrderNumber), |old(made)| + 1)
    {
      hide IsRun, NextBy, Ticked, Coherent;
      CountsEvents();
      var now: int := *;
      Tick(newOrders, now);
      PublishPending();
      assert [] + made[|old(made)|..] == made[|old(made)|..];
    }

    /** The stream from a loaded state on, for any number of ticks: all it goes through is a run,
        and it publishes what was pending and then all it makes. */
    method RunStream(ticks: nat, newOrdersPerTick: nat)
      requires Tracked() && phase == Working
      modifies this
      ensures Tracked() && old(trace) <= trace && phase == Working && historySeeded
      ensures old(made) <= made && RunMade(old(Mem()), activeOrders, made[|old(made)|..], ticks, newOrdersPerTick)
      ensures pendingEvents == [] && topic + inFlight == old(topic) + old(inFlight) + old(pendingEvents) + made[|old(made)|..]
      ensures nextOrderNumber ==
              old(nextOrderNumber) + (if old(historySeeded) then 0 else HISTORY_ORDERS) + ticks * newOrdersPerTick
    {
      hide IsRun, NextBy, Streamed, TickedOnce, AllSeeded, RunMade, Coherent;
      ghost var sent := topic + inFlight + pendingEvents;
      CountsEvents();
      PublishPending();
      assert topic + inFlight == sent + made[|old(made)|..];
      ghost var baseTime: int := 0;
      if !historySeeded {
        var base: int := *;
        baseTime := base;
        ghost var before := made;
        var _ := SeedHistory(base);
        PublishPending();
        SentMore(sent, old(made), before, made);
      }
      ghost var seeded, first := made, nextOrderNumber;
      CountsEvents();
      assert made[|seeded|..] == [];
      NoneStreamed(activeOrders, newOrdersPerTick, first, nextEventNumber);
      for k := 0 to ticks
        invariant Tracked() && old(trace) <= trace && phase == Working && historySeeded
        invariant old(made) <= seeded <= made && pendingEvents == []
        invariant topic + inFlight == sent + made[|old(made)|..]
        invariant nextOrderNumber == first + k * newOrdersPerTick
        invariant Streamed(old(activeOrders), activeOrders, made[|seeded|..], k, newOrdersPerTick, first, |seeded| + 1)
      {
        ghost var before, active := made, activeOrders;
        TickAndPublish(newOrdersPerTick);
        StreamsOneMore(old(activeOrders), active, activeOrders, seeded, before, made, k, newOrdersPerTick, first);
        SentMore(sent, old(made), before, made);
        OneMoreTick(k, newOrdersPerTick);
      }
      SeedsThenStreams(old(Mem()), activeOrders, old(made), seeded, made, ticks, newOrdersPerTick, baseTime);
    }
  }

  lemma ActiveGains(h: seq<Event>, h': seq<Event>, active: seq<Order>, order: Order, next: nat)
    requires ActiveCoherent(h, active, next) && order.id < next && LastStatus(h', order.id) == {order.status}
    requires forall k :: 0 <= k < |active| ==> active[k].id < order.id
    requires forall id :: id != order.id ==> LastStatus(h', id) == LastStatus(h, id)
    ensures ActiveCoherent(h', active + [order], next)
  {
    hide LastStatus;
  }

  lemma ActiveIgnores(h: seq<Event>, h': seq<Event>, active: seq<Order>, id: nat, next: nat)
    requires ActiveCoherent(h, active, next)
    requires forall k :: 0 <= k < |active| ==> active[k].id < id
    requires forall other :: other != id ==> LastStatus(h', other) == LastStatus(h, other)
    ensures ActiveCoherent(h', active, next)
  {
    hide LastStatus;
  }

  lemma ActiveHead(h: seq<Event>, still: seq<Order>, active: seq<Order>, k: nat, next: nat)
    requires k < |active| && ActiveCoherent(h, still + active[k..], next)
    ensures active[k].id < next && LastStatus(h, active[k].id) == {active[k].status}
    ensures ActiveCoherent(h, still + [active[k]] + active[k + 1..], next)
  {
    hide LastStatus;
    assert still + active[k..] == still + [active[k]] + active[k + 1..];
    assert (still + active[k..])[|still|] == active[k];
  }

  lemma ActiveChanges(h: seq<Event>, h': seq<Event>, still: seq<Order>, order: Order, rest: seq<Order>, kept: seq<Order>, next: nat)
    requires ActiveCoherent(h, still + [order] + rest, next) && |kept| <= 1
    requires kept != [] ==> kept[0].id == order.id && LastStatus(h', order.id) == {kept[0].status}
    requires forall id :: id != order.id ==> LastStatus(h', id) == LastStatus(h, id)
    ensures ActiveCoherent(h', still + kept + rest, next)
  {
    hide LastStatus;
    var a, b, n := still + [order] + rest, still + kept + rest, |still|;
    assert a[n] == order;
    forall j | 0 <= j < |b| ensures b[j].id < next && LastStatus(h', b[j].id) == {b[j].status} {
      if j < n {
        assert b[j] == a[j];
      } else if j >= n + |kept| {
        assert b[j] == a[j - |kept| + 1];
      }
    }
    forall j, k | 0 <= j < k < |b| ensures b[j].id != b[k].id {
      assert b[j].id == a[if j < n + |kept| then j else j - |kept| + 1].id;
      assert b[k].id == a[if k < n + |kept| then k else k - |kept| + 1].id;
    }
  }

  lemma StillCoherent(made: seq<Event>, mem: State, made': seq<Event>, mem': State)
    requires Coherent(made, mem) && made <= made' && mem'.pending == mem.pending + made'[|made|..]
    requires IsHistory(made') && mem'.nextEvent == |made'| + 1 && ActiveCoherent(made', mem'.active, mem'.nextOrder)
    requires forall k :: 0 <= k < |made'| ==> made'[k].order < mem'.nextOrder
    ensures Coherent(made', mem')
  {
    hide IsHistory, ActiveCoherent;
    var events := made'[|made|..];
    assert made' == made + events;
    SuffixGrows(made, events, |made| - |mem.pending|);
  }

  lemma SuffixGrows(h: seq<Event>, events: seq<Event>, from: nat)
    requires from <= |h|
    ensures (h + events)[from..] == h[from..] + events
  {
  }

  lemma WorkIsStep(w: World, after: State, events: seq<Event>)
    requires w.phase == Working && after.pending == w.mem.pending + events
    requires Coherent(w.made + events, after)
    ensures NextBy(w, w.(mem := after, made := w.made + events), Work(after, events))
  {
    hide Coherent;
  }
}
