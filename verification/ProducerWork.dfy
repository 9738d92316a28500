/** What the producer's work makes: the orders and events of a tick, of the seeding and of a
    whole stream (examples/orders_demo/producer/fake_orders_producer.py). */
module ProducerWork {
  import opened Orders

  const HISTORY_ORDERS: nat := 48

  function SeededStatuses(index: nat): seq<Status> {
    if index % 10 == 0 then [Cancelled]
    else if index % 10 == 1 then [Paid, Refunded]
    else [Paid, Shipped, Delivered]
  }

  lemma SeededTransition(index: nat, step: nat)
    requires step < |SeededStatuses(index)|
    ensures SeededStatuses(index)[step] in Transitions(if step == 0 then Created else SeededStatuses(index)[step - 1])
  {
  }

  /** The new orders have consecutive numbers, and each has its creation event. */
  ghost predicate AreTaken(orders: seq<Order>, events: seq<Event>, firstOrder: nat, firstEvent: nat, now: int) {
    && |orders| == |events|
    && forall k :: 0 <= k < |orders| ==>
         && orders[k].id == firstOrder + k && orders[k].status == Created && 2 <= orders[k].ticks <= 6
         && events[k] == Event(firstEvent + k, true, firstOrder + k, orders[k].details, Created, now)
  }

  predicate IsDue(order: Order) {
    order.ticks <= 1
  }

  /** `e` takes the order one transition on. */
  predicate IsAdvance(order: Order, e: Event, id: nat, now: int) {
    e == Event(id, false, order.id, order.details, e.status, now) && e.status in Transitions(order.status)
  }

  /** The order waits again, in a new status. */
  predicate IsRescheduled(order: Order, status: Status, later: Order) {
    later == order.(status := status, ticks := later.ticks) && 2 <= later.ticks <= 6
  }

  /** What is left of one order after a tick, and the event that reports it. */
  ghost predicate Aged(order: Order, kept: seq<Order>, events: seq<Event>, id: nat, now: int) {
    if !IsDue(order) then kept == [order.(ticks := order.ticks - 1)] && events == []
    else if Transitions(order.status) == {} then kept == [] && events == []
    else
      && |events| == 1 && IsAdvance(order, events[0], id, now)
      && if IsTerminal(events[0].status) then kept == []
         else |kept| == 1 && IsRescheduled(order, events[0].status, kept[0])
  }

  /** The same for all orders: an order not yet due waits one tick less; a due one makes one event
      if it has a transition, and is kept only if its new status is not terminal. */
  ghost predicate AllAged(orders: seq<Order>, kept: seq<Order>, events: seq<Event>, firstEvent: nat, now: int)
    decreases |orders|
  {
    if orders == [] then kept == [] && events == []
    else
      exists stay: nat, quiet: nat ::
        && stay <= |kept| && quiet <= |events|
        && AllAged(orders[..|orders| - 1], kept[..stay], events[..quiet], firstEvent, now)
        && Aged(orders[|orders| - 1], kept[stay..], events[quiet..], firstEvent + quiet, now)
  }

  /** A tick takes `count` new orders and then ages all. */
  ghost predicate Ticked(before: seq<Order>, after: seq<Order>, events: seq<Event>, count: nat, firstOrder: nat, firstEvent: nat, now: int) {
    exists taken: seq<Order> ::
      && |taken| == count <= |events| && AreTaken(taken, events[..count], firstOrder, firstEvent, now)
      && AllAged(before + taken, after, events[count..], firstEvent + count, now)
  }

  /** One seeded order: its creation and then the statuses chosen by its index. */
  ghost predicate IsSeeded(events: seq<Event>, index: nat, order: nat, firstEvent: nat, time: int) {
    && |events| == 1 + |SeededStatuses(index)|
    && events[0] == Event(firstEvent, true, order, events[0].details, Created, time)
    && forall k :: 1 <= k < |events| ==>
         events[k] == Event(firstEvent + k, false, order, events[0].details, SeededStatuses(index)[k - 1], time + 5 * k)
  }

  ghost predicate AllSeeded(events: seq<Event>, count: nat, firstOrder: nat, firstEvent: nat, baseTime: int) {
    if count == 0 then events == []
    else
      var index := count - 1;
      var before := |events| - 1 - |SeededStatuses(index)|;
      && 0 <= before && AllSeeded(events[..before], index, firstOrder, firstEvent, baseTime)
      && IsSeeded(events[before..], index, firstOrder + index, firstEvent + before, baseTime + 2 * index)
  }

  ghost predicate TickedOnce(before: seq<Order>, after: seq<Order>, events: seq<Event>, count: nat, firstOrder: nat, firstEvent: nat) {
    exists now: int :: Ticked(before, after, events, count, firstOrder, firstEvent, now)
  }

  /** Tick after tick, each going on with the orders the one before left. */
  ghost predicate Streamed(before: seq<Order>, after: seq<Order>, events: seq<Event>, ticks: nat, perTick: nat, firstOrder: nat, firstEvent: nat)
    decreases ticks, 0
  {
    if ticks == 0 then after == before && events == []
    else StreamedOn(before, after, events, ticks - 1, perTick, firstOrder, firstEvent)
  }

  ghost predicate StreamedOn(before: seq<Order>, after: seq<Order>, events: seq<Event>, earlier: nat, perTick: nat, firstOrder: nat, firstEvent: nat)
    decreases earlier, 1
  {
    exists active: seq<Order>, cut: nat ::
      && cut <= |events|
      && Streamed(before, active, events[..cut], earlier, perTick, firstOrder, firstEvent)
      && TickedOnce(active, after, events[cut..], perTick, firstOrder + earlier * perTick, firstEvent + cut)
  }

  /** A stream seeds its history unless that was done, and then ticks. */
  ghost predicate RunMade(before: State, after: seq<Order>, events: seq<Event>, ticks: nat, perTick: nat) {
    if before.seeded then Streamed(before.active, after, events, ticks, perTick, before.nextOrder, before.nextEvent)
    else
      exists cut: nat, baseTime: int ::
        && cut <= |events| && AllSeeded(events[..cut], HISTORY_ORDERS, before.nextOrder, before.nextEvent, baseTime)
        && Streamed(before.active, after, events[cut..], ticks, perTick, before.nextOrder + HISTORY_ORDERS, before.nextEvent + cut)
  }

  function Creations(events: seq<Event>): nat {
    if events == [] then 0
    else Creations(events[..|events| - 1]) + if events[|events| - 1].isCreation then 1 else 0
  }

  lemma {:induction false} CreationsSplit(events: seq<Event>, cut: nat)
    requires cut <= |events|
    ensures Creations(events) == Creations(events[..cut]) + Creations(events[cut..])
    decreases |events|
  {
    if cut == |events| {
      assert events[..cut] == events;
    } else {
      var n := |events| - 1;
      CreationsSplit(events[..n], cut);
      assert events[..n][..cut] == events[..cut] && events[..n][cut..] == events[cut..][..n - cut];
    }
  }

  lemma {:induction false} AllCreations(events: seq<Event>)
    requires forall k :: 0 <= k < |events| ==> events[k].isCreation
    ensures Creations(events) == |events|
  {
    if events != [] {
      AllCreations(events[..|events| - 1]);
    }
  }

  lemma {:induction false} NoCreations(events: seq<Event>)
    requires forall k :: 0 <= k < |events| ==> !events[k].isCreation
    ensures Creations(events) == 0
  {
    if events != [] {
      NoCreations(events[..|events| - 1]);
    }
  }

  lemma {:induction false} AgingCreatesNothing(orders: seq<Order>, kept: seq<Order>, events: seq<Event>, firstEvent: nat, now: int)
    requires AllAged(orders, kept, events, firstEvent, now)
    ensures forall k :: 0 <= k < |events| ==> !events[k].isCreation
    decreases |orders|
  {
    if orders != [] {
      var stay, quiet := AgedLast(orders, kept, events, firstEvent, now);
      AgingCreatesNothing(orders[..|orders| - 1], kept[..stay], events[..quiet], firstEvent, now);
      forall k | 0 <= k < |events| ensures !events[k].isCreation {
        assert k < quiet ==> events[k] == events[..quiet][k];
        assert k >= quiet ==> events[k] == events[quiet..][k - quiet];
      }
    }
  }

  /** A stream creates exactly the orders asked for, tick by tick. */
  lemma {:induction false} StreamCreates(before: seq<Order>, after: seq<Order>, events: seq<Event>, ticks: nat, perTick: nat, firstOrder: nat, firstEvent: nat)
    requires Streamed(before, after, events, ticks, perTick, firstOrder, firstEvent)
    ensures Creations(events) == ticks * perTick
    decreases ticks
  {
    hide AllAged, Creations, Ticked;
    if ticks == 0 {
      NoCreations(events);
    } else {
      var n, firstNew := ticks - 1, firstOrder + (ticks - 1) * perTick;
      assert StreamedOn(before, after, events, n, perTick, firstOrder, firstEvent);
      var active: seq<Order>, cut: nat :|
        && cut <= |events|
        && Streamed(before, active, events[..cut], n, perTick, firstOrder, firstEvent)
        && TickedOnce(active, after, events[cut..], perTick, firstOrder + n * perTick, firstEvent + cut);
      var now: int :| Ticked(active, after, events[cut..], perTick, firstNew, firstEvent + cut, now);
      StreamCreates(before, active, events[..cut], n, perTick, firstOrder, firstEvent);
      TickCreates(active, after, events[cut..], perTick, firstNew, firstEvent + cut, now);
      CreationsSplit(events, cut);
      OneMoreTick(n, perTick);
    }
  }

  lemma OneMoreTick(n: nat, perTick: nat)
    ensures (n + 1) * perTick == n * perTick + perTick
  {
  }

  lemma TickCreates(before: seq<Order>, after: seq<Order>, events: seq<Event>, count: nat, firstOrder: nat, firstEvent: nat, now: int)
    requires Ticked(before, after, events, count, firstOrder, firstEvent, now)
    ensures Creations(events) == count
  {
    hide AllAged, Creations;
    var taken: seq<Order> :|
      && |taken| == count <= |events| && AreTaken(taken, events[..count], firstOrder, firstEvent, now)
      && AllAged(before + taken, after, events[count..], firstEvent + count, now);
    AgingCreatesNothing(before + taken, after, events[count..], firstEvent + count, now);
    AllCreations(events[..count]);
    NoCreations(events[count..]);
    CreationsSplit(events, count);
  }

  // ------------------------------------------------------------------------------------------
  // What ageing means for each order

  predicate AreDistinct(orders: seq<Order>) {
    forall j, k :: 0 <= j < k < |orders| ==> orders[j].id != orders[k].id
  }

  /** After a tick: one event exactly for a due order with a transition, and the order is still
      there exactly when it was not due or its new status is not terminal. */
  ghost predicate AgedInAll(order: Order, kept: seq<Order>, events: seq<Event>) {
    var own, stays := Of(events, order.id), exists later :: later in kept && later.id == order.id;
    if !IsDue(order) then own == [] && order.(ticks := order.ticks - 1) in kept
    else if Transitions(order.status) == {} then own == [] && !stays
    else
      && |own| == 1 && own[0].status in Transitions(order.status) && !own[0].isCreation && own[0].details == order.details
      && (stays <==> !IsTerminal(own[0].status))
  }

  lemma {:induction false} OfSplit(h: seq<Event>, cut: nat, order: nat)
    requires cut <= |h|
    ensures Of(h, order) == Of(h[..cut], order) + Of(h[cut..], order)
    decreases |h|
  {
    if cut == |h| {
      assert h[..cut] == h;
    } else {
      var n := |h| - 1;
      var tail, last := h[cut..], if h[n].order == order then [h[n]] else [];
      OfSplit(h[..n], cut, order);
      assert h[..n][..cut] == h[..cut] && h[..n][cut..] == tail[..|tail| - 1];
      assert Of(tail, order) == Of(tail[..|tail| - 1], order) + last;
      assert Of(h[..cut], order) + (Of(tail[..|tail| - 1], order) + last) == Of(h[..cut], order) + Of(tail[..|tail| - 1], order) + last;
    }
  }

  lemma AgedLast(orders: seq<Order>, kept: seq<Order>, events: seq<Event>, firstEvent: nat, now: int) returns (stay: nat, quiet: nat)
    requires orders != [] && AllAged(orders, kept, events, firstEvent, now)
    ensures stay <= |kept| && quiet <= |events|
    ensures AllAged(orders[..|orders| - 1], kept[..stay], events[..quiet], firstEvent, now)
    ensures Aged(orders[|orders| - 1], kept[stay..], events[quiet..], firstEvent + quiet, now)
  {
    hide Aged;
    stay, quiet :|
      && stay <= |kept| && quiet <= |events|
      && AllAged(orders[..|orders| - 1], kept[..stay], events[..quiet], firstEvent, now)
      && Aged(orders[|orders| - 1], kept[stay..], events[quiet..], firstEvent + quiet, now);
  }

  /** Ageing makes no event about other orders, and keeps none of them. */
  lemma {:induction false} AgedAbsent(orders: seq<Order>, kept: seq<Order>, events: seq<Event>, firstEvent: nat, now: int, id: nat)
    requires AllAged(orders, kept, events, firstEvent, now) && forall order :: order in orders ==> order.id != id
    ensures Of(events, id) == [] && forall later :: later in kept ==> later.id != id
    decreases |orders|
  {
    hide Of, Aged;
    if orders == [] {
      OfNothing(id);
    } else {
      var n := |orders| - 1;
      var stay, quiet := AgedLast(orders, kept, events, firstEvent, now);
      AgedAbsent(orders[..n], kept[..stay], events[..quiet], firstEvent, now, id);
      OfSplit(events, quiet, id);
      OfAged(orders[n], kept[stay..], events[quiet..], firstEvent + quiet, now, id);
      assert kept == kept[..stay] + kept[stay..];
    }
  }

  lemma OfNothing(id: nat)
    ensures Of([], id) == []
  {
  }

  lemma {:induction false} AgedEach(orders: seq<Order>, kept: seq<Order>, events: seq<Event>, firstEvent: nat, now: int, k: nat)
    requires AllAged(orders, kept, events, firstEvent, now) && AreDistinct(orders) && k < |orders|
    ensures AgedInAll(orders[k], kept, events)
    decreases |orders|
  {
    hide Of, AgedInAll, Aged, AllAged;
    var n := |orders| - 1;
    var init, last, id := orders[..n], orders[n], orders[k].id;
    var stay, quiet := AgedLast(orders, kept, events, firstEvent, now);
    OfSplit(events, quiet, id);
    OfAged(last, kept[stay..], events[quiet..], firstEvent + quiet, now, id);
    assert kept == kept[..stay] + kept[stay..];
    if k < n {
      AgedEach(init, kept[..stay], events[..quiet], firstEvent, now, k);
      AgedInMore(init[k], kept[..stay], kept[stay..], events[..quiet], events);
    } else {
      AgedAbsent(init, kept[..stay], events[..quiet], firstEvent, now, id);
      AgedAlone(last, kept[..stay], kept[stay..], events[quiet..], firstEvent + quiet, now, events);
    }
  }

  lemma AgedInMore(order: Order, kept: seq<Order>, more: seq<Order>, events: seq<Event>, all: seq<Event>)
    requires AgedInAll(order, kept, events) && Of(all, order.id) == Of(events, order.id)
    requires forall later :: later in more ==> later.id != order.id
    ensures AgedInAll(order, kept + more, all)
  {
    hide Of;
  }

  lemma AgedAlone(order: Order, others: seq<Order>, kept: seq<Order>, events: seq<Event>, id: nat, now: int, all: seq<Event>)
    requires Aged(order, kept, events, id, now) && Of(all, order.id) == [] + events
    requires forall later :: later in others ==> later.id != order.id
    ensures AgedInAll(order, others + kept, all)
  {
    hide Of;
    var all_ := others + kept;
    assert kept != [] ==> kept[0] in all_;
  }

  lemma OfAged(order: Order, kept: seq<Order>, events: seq<Event>, id: nat, now: int, about: nat)
    requires Aged(order, kept, events, id, now)
    ensures Of(events, about) == if about == order.id then events else []
    ensures forall later :: later in kept ==> later.id == order.id
  {
    assert Of([], about) == [];
    if events != [] {
      var e := events[0];
      assert events[..|events| - 1] == [] && events == [e] && e.order == order.id;
      assert Of(events, about) == [] + if order.id == about then [e] else [];
      assert [] + [e] == events;
    }
  }

  // ------------------------------------------------------------------------------------------
  // One step more

  lemma SinceGrows(made: seq<Event>, before: seq<Event>, after: seq<Event>)
    requires made <= before <= after
    ensures after[|made|..] == before[|made|..] + after[|before|..]
  {
  }

  lemma SentMore(sent: seq<Event>, made: seq<Event>, before: seq<Event>, after: seq<Event>)
    requires made <= before <= after
    ensures sent + before[|made|..] + after[|before|..] == sent + after[|made|..]
    ensures sent + before[|made|..] + ([] + after[|before|..]) == sent + after[|made|..]
  {
  }

  lemma NoneTaken(firstOrder: nat, firstEvent: nat, now: int)
    ensures AreTaken([], [], firstOrder, firstEvent, now)
  {
  }

  lemma TakesOneMore(start: seq<Order>, active: seq<Order>, order: Order, made: seq<Event>, before: seq<Event>, after: seq<Event>, firstOrder: nat, now: int)
    requires start <= active && made <= before
    requires AreTaken(active[|start|..], before[|made|..], firstOrder, |made| + 1, now)
    requires order.id == firstOrder + |active| - |start| && order.status == Created && 2 <= order.ticks <= 6
    requires after == before + [Event(|before| + 1, true, order.id, order.details, Created, now)]
    ensures AreTaken((active + [order])[|start|..], after[|made|..], firstOrder, |made| + 1, now)
  {
    assert (active + [order])[|start|..] == active[|start|..] + [order];
    assert after[|made|..] == before[|made|..] + [after[|before|]];
  }

  lemma NoneSeeded(firstOrder: nat, firstEvent: nat, baseTime: int)
    ensures AllSeeded([], 0, firstOrder, firstEvent, baseTime)
  {
  }

  lemma SeedsOneMore(made: seq<Event>, before: seq<Event>, after: seq<Event>, index: nat, firstOrder: nat, baseTime: int)
    requires made <= before <= after && AllSeeded(before[|made|..], index, firstOrder, |made| + 1, baseTime)
    requires IsSeeded(after[|before|..], index, firstOrder + index, |before| + 1, baseTime + 2 * index)
    ensures AllSeeded(after[|made|..], index + 1, firstOrder, |made| + 1, baseTime)
  {
    hide SeededStatuses;
    var events, cut := after[|made|..], |before| - |made|;
    assert events[..cut] == before[|made|..] && events[cut..] == after[|before|..];
  }

  lemma NoneAged(firstEvent: nat, now: int)
    ensures AllAged([], [], [], firstEvent, now)
  {
  }

  lemma AgedWaits(order: Order, id: nat, now: int)
    ensures !IsDue(order) ==> Aged(order, [order.(ticks := order.ticks - 1)], [], id, now)
    ensures IsDue(order) && Transitions(order.status) == {} ==> Aged(order, [], [], id, now)
  {
  }

  lemma AgedMoves(order: Order, kept: seq<Order>, e: Event, id: nat, now: int)
    requires IsDue(order) && IsAdvance(order, e, id, now)
    requires if IsTerminal(e.status) then kept == [] else |kept| == 1 && IsRescheduled(order, e.status, kept[0])
    ensures Aged(order, kept, [e], id, now)
  {
  }

  lemma AgesOneMore(orders: seq<Order>, k: nat, kept: seq<Order>, more: seq<Order>, made: seq<Event>, before: seq<Event>, after: seq<Event>, now: int)
    requires k < |orders| && made <= before <= after
    requires AllAged(orders[..k], kept, before[|made|..], |made| + 1, now)
    requires Aged(orders[k], more, after[|before|..], |before| + 1, now)
    ensures AllAged(orders[..k + 1], kept + more, after[|made|..], |made| + 1, now)
  {
    hide Aged;
    var all, both, events := orders[..k + 1], kept + more, after[|made|..];
    var stay: nat, quiet: nat := |kept|, |before| - |made|;
    assert all[..|all| - 1] == orders[..k] && both[..stay] == kept && both[stay..] == more;
    assert events[..quiet] == before[|made|..] && events[quiet..] == after[|before|..];
  }

  lemma TakesThenAges(active: seq<Order>, taken: seq<Order>, after: seq<Order>, made: seq<Event>, between: seq<Event>, made': seq<Event>, firstOrder: nat, now: int)
    requires made <= between <= made'
    requires AreTaken(taken, between[|made|..], firstOrder, |made| + 1, now)
    requires AllAged(active + taken, after, made'[|between|..], |between| + 1, now)
    ensures Ticked(active, after, made'[|made|..], |taken|, firstOrder, |made| + 1, now)
  {
    hide AllAged;
    var events := made'[|made|..];
    assert events[..|taken|] == between[|made|..] && events[|taken|..] == made'[|between|..];
  }

  lemma NoneStreamed(active: seq<Order>, perTick: nat, firstOrder: nat, firstEvent: nat)
    ensures Streamed(active, active, [], 0, perTick, firstOrder, firstEvent)
  {
  }

  lemma StreamsOneMore(start: seq<Order>, active: seq<Order>, after: seq<Order>, seeded: seq<Event>, before: seq<Event>, made: seq<Event>, k: nat, perTick: nat, first: nat)
    requires seeded <= before <= made
    requires Streamed(start, active, before[|seeded|..], k, perTick, first, |seeded| + 1)
    requires TickedOnce(active, after, made[|before|..], perTick, first + k * perTick, |before| + 1)
    ensures Streamed(start, after, made[|seeded|..], k + 1, perTick, first, |seeded| + 1)
  {
    hide TickedOnce;
    var events, cut := made[|seeded|..], |before| - |seeded|;
    assert events[..cut] == before[|seeded|..] && events[cut..] == made[|before|..];
    assert TickedOnce(active, after, events[cut..], perTick, first + k * perTick, |seeded| + 1 + cut);
    assert StreamedOn(start, after, events, k, perTick, first, |seeded| + 1);
  }

  lemma SeedsThenStreams(before: State, after: seq<Order>, made: seq<Event>, seeded: seq<Event>, made': seq<Event>, ticks: nat, perTick: nat, baseTime: int)
    requires made <= seeded <= made' && before.nextEvent == |made| + 1
    requires if before.seeded then seeded == made
             else AllSeeded(seeded[|made|..], HISTORY_ORDERS, before.nextOrder, |made| + 1, baseTime)
    requires var first := before.nextOrder + if before.seeded then 0 else HISTORY_ORDERS;
             Streamed(before.active, after, made'[|seeded|..], ticks, perTick, first, |seeded| + 1)
    ensures RunMade(before, after, made'[|made|..], ticks, perTick)
  {
    hide Streamed, AllSeeded;
    var events, cut := made'[|made|..], |seeded| - |made|;
    assert events[..cut] == seeded[|made|..] && events[cut..] == made'[|seeded|..];
  }
}
