/** Order lifecycles and the events that report them
    (examples/orders_demo/producer/fake_orders_producer.py). */
module Orders {

  datatype Status = Created | Paid | Shipped | Delivered | Cancelled | Refunded

  function Transitions(status: Status): set<Status> {
    match status
    case Created => {Paid, Cancelled}
    case Paid => {Shipped, Refunded}
    case Shipped => {Delivered}
    case _ => {}
  }

  predicate IsTerminal(status: Status) {
    status == Delivered || status == Cancelled || status == Refunded
  }

  /** Customer, product, quantity and region: drawn once, then copied into every event. */
  type Details = seq<nat>

  datatype Order = Order(id: nat, details: Details, status: Status, ticks: int)

  datatype Event = Event(id: nat, isCreation: bool, order: nat, details: Details, status: Status, time: int)

  /** The durable fields; the state of the random generator is left to chance. */
  datatype State = State(active: seq<Order>, nextOrder: nat, nextEvent: nat, seeded: bool, pending: seq<Event>)

  const FirstState: State := State([], 1, 1, false, [])

  // ------------------------------------------------------------------------------------------
  // Histories

  /** The last status a history reports for an order. */
  function LastStatus(h: seq<Event>, order: nat): (r: set<Status>)
    ensures |r| <= 1
    ensures r == {} <==> forall k :: 0 <= k < |h| ==> h[k].order != order
  {
    if h == [] then {}
    else if h[|h| - 1].order == order then {h[|h| - 1].status}
    else LastStatus(h[..|h| - 1], order)
  }

  /** `e` may follow the history: it creates a new order or takes an order one transition on. */
  predicate MayFollow(h: seq<Event>, e: Event) {
    && e.id == |h| + 1
    && (if e.isCreation then LastStatus(h, e.order) == {} && e.status == Created
        else exists status :: status in LastStatus(h, e.order) && e.status in Transitions(status))
  }

  predicate IsHistory(h: seq<Event>) {
    h == [] || (IsHistory(h[..|h| - 1]) && MayFollow(h[..|h| - 1], h[|h| - 1]))
  }

  /** The state agrees with the events it has made so far. */
  ghost predicate Coherent(h: seq<Event>, s: State) {
    && IsHistory(h) && s.nextEvent == |h| + 1
    && (forall k :: 0 <= k < |h| ==> h[k].order < s.nextOrder)
    && ActiveCoherent(h, s.active, s.nextOrder)
    && |s.pending| <= |h| && s.pending == h[|h| - |s.pending|..]
  }

  ghost predicate ActiveCoherent(h: seq<Event>, active: seq<Order>, nextOrder: nat) {
    && (forall j :: 0 <= j < |active| ==> active[j].id < nextOrder && LastStatus(h, active[j].id) == {active[j].status})
    && (forall j, k :: 0 <= j < k < |active| ==> active[j].id != active[k].id)
  }

  lemma {:induction false} HistoryAt(h: seq<Event>, k: nat)
    requires IsHistory(h) && k < |h|
    ensures IsHistory(h[..k]) && MayFollow(h[..k], h[k]) && h[k].id == k + 1
  {
    var n := |h| - 1;
    if k < n {
      HistoryAt(h[..n], k);
      assert h[..n][..k] == h[..k];
    }
  }

  lemma HistoryNext(h: seq<Event>, e: Event)
    requires IsHistory(h) && MayFollow(h, e)
    ensures IsHistory(h + [e])
    ensures forall order :: LastStatus(h + [e], order) == if order == e.order then {e.status} else LastStatus(h, order)
  {
    assert (h + [e])[..|h|] == h;
  }

  // ------------------------------------------------------------------------------------------
  // Lifecycles

  /** The events of one order, in the order they were made. */
  function Of(h: seq<Event>, order: nat): seq<Event> {
    if h == [] then []
    else
      var n := |h| - 1;
      Of(h[..n], order) + if h[n].order == order then [h[n]] else []
  }

  /** A creation, then one transition after another. */
  predicate IsLifecycle(events: seq<Event>) {
    && (events != [] ==> events[0].isCreation && events[0].status == Created)
    && forall k :: 0 < k < |events| ==> !events[k].isCreation && events[k].status in Transitions(events[k - 1].status)
  }

  lemma {:induction false} HistoriesAreLifecycles(h: seq<Event>, order: nat)
    requires IsHistory(h)
    ensures IsLifecycle(Of(h, order))
    ensures var life := Of(h, order);
            LastStatus(h, order) == if life == [] then {} else {life[|life| - 1].status}
  {
    if h != [] {
      var n := |h| - 1;
      HistoriesAreLifecycles(h[..n], order);
    }
  }

  /** Each event the first time it occurs, for one order. */
  function FirstSeen(log: seq<Event>, order: nat): seq<Event> {
    if log == [] then []
    else
      var n := |log| - 1;
      FirstSeen(log[..n], order) + if log[n].order == order && log[n] !in log[..n] then [log[n]] else []
  }

  /** Whatever the log holds of an order, it held all that came before first. */
  ghost predicate InOrder(log: seq<Event>, h: seq<Event>) {
    forall j :: 0 <= j < |log| ==> EarlierSeen(log[..j], h, log[j])
  }

  /** `e` is in the history, and everything before it of the same order is in `seen`. */
  ghost predicate EarlierSeen(seen: seq<Event>, h: seq<Event>, e: Event) {
    && 1 <= e.id <= |h| && h[e.id - 1] == e
    && forall i :: 0 <= i < e.id - 1 && h[i].order == e.order ==> h[i] in seen
  }

  lemma {:induction false} OfHolds(h: seq<Event>, order: nat, e: Event)
    ensures e in Of(h, order) <==> e in h && e.order == order
  {
    if h != [] {
      OfHolds(h[..|h| - 1], order, e);
      assert h == h[..|h| - 1] + [h[|h| - 1]];
    }
  }

  lemma {:induction false} OfPrefix(h: seq<Event>, k: nat, order: nat)
    requires k <= |h|
    ensures Of(h[..k], order) <= Of(h, order)
    ensures k < |h| && h[k].order == order ==> |Of(h[..k], order)| < |Of(h, order)| && Of(h, order)[|Of(h[..k], order)|] == h[k]
  {
    var n := |h| - 1;
    if k < n {
      OfPrefix(h[..n], k, order);
      assert h[..n][..k] == h[..k];
    } else if k == |h| {
      assert h[..k] == h;
    }
  }

  lemma {:induction false} SeenHolds(log: seq<Event>, order: nat, e: Event)
    ensures e in FirstSeen(log, order) <==> e in log && e.order == order
  {
    if log != [] {
      SeenHolds(log[..|log| - 1], order, e);
      assert log == log[..|log| - 1] + [log[|log| - 1]];
    }
  }

  lemma {:induction false} OfIsDistinct(h: seq<Event>, order: nat)
    requires IsHistory(h)
    ensures forall j, k :: 0 <= j < k < |Of(h, order)| ==> Of(h, order)[j] != Of(h, order)[k]
  {
    if h != [] {
      var n := |h| - 1;
      OfIsDistinct(h[..n], order);
      HistoryAt(h, n);
      forall k | 0 <= k < |Of(h[..n], order)| ensures Of(h[..n], order)[k] != h[n] {
        OfHolds(h[..n], order, Of(h[..n], order)[k]);
        assert Of(h[..n], order)[k] in h[..n];
        var i :| 0 <= i < n && h[..n][i] == Of(h[..n], order)[k];
        HistoryAt(h, i);
      }
    }
  }

  /** What a log shows of an order for the first time is the beginning of its lifecycle. */
  lemma {:induction false} FirstSeenIsPrefix(log: seq<Event>, h: seq<Event>, order: nat)
    requires IsHistory(h) && InOrder(log, h)
    ensures FirstSeen(log, order) <= Of(h, order)
  {
    hide IsHistory, Of;
    if log != [] {
      var n := |log| - 1;
      var e, seen, life := log[n], FirstSeen(log[..n], order), Of(h, order);
      forall j | 0 <= j < n ensures EarlierSeen(log[..n][..j], h, log[..n][j]) {
        assert log[..n][..j] == log[..j];
      }
      FirstSeenIsPrefix(log[..n], h, order);
      if e.order == order && e !in log[..n] {
        assert EarlierSeen(log[..n], h, e);
        var at := |Of(h[..e.id - 1], order)|;
        OfPrefix(h, e.id - 1, order);
        if |seen| > at {
          assert seen[at] == e && e in seen;
          SeenHolds(log[..n], order, e);
          assert false;
        }
        if |seen| < at {
          NotYetSeen(log[..n], h, order, e.id - 1);
          assert false;
        }
      }
    }
  }

  lemma NotYetSeen(log: seq<Event>, h: seq<Event>, order: nat, k: nat)
    requires IsHistory(h) && k <= |h| && FirstSeen(log, order) <= Of(h, order)
    requires forall i :: 0 <= i < k && h[i].order == order ==> h[i] in log
    ensures |Of(h[..k], order)| <= |FirstSeen(log, order)|
  {
    var seen, life, before := FirstSeen(log, order), Of(h, order), Of(h[..k], order);
    OfPrefix(h, k, order);
    if |seen| < |before| {
      var e := life[|seen|];
      assert before[|seen|] == e;
      OfHolds(h[..k], order, e);
      assert e in h[..k];
      SeenHolds(log, order, e);
      var j :| 0 <= j < |seen| && seen[j] == e;
      OfIsDistinct(h, order);
      assert false;
    }
  }
}
