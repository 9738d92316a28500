/** The sliding-window limit on failed logins (src/sqltide/auth/classes/login_attempt_limiter.py
    and the login route in src/sqltide/auth/_helpers/session_routes.py). */
module LoginLimiter {
  import opened Chars

  const WINDOW: int := 60
  const USER_LIMIT: nat := 5
  const IP_LIMIT: nat := 20
  const MAX_KEYS: nat := 2048

  /** `ip:` and `user:` keys. */
  datatype Key = Ip(host: Text) | UserName(name: Text)

  datatype Attempt = Attempt(ip: Key, user: Key)

  function LimitOf(key: Key): nat {
    if key.Ip? then IP_LIMIT else USER_LIMIT
  }

  // ------------------------------------------------------------------------------------------
  // Times

  predicate IsSorted(times: seq<int>) {
    forall j, k :: 0 <= j < k < |times| ==> times[j] <= times[k]
  }

  /** The queue after its old front is popped. */
  function Recent(times: seq<int>, cutoff: int): seq<int> {
    if times == [] || times[0] >= cutoff then times else Recent(times[1..], cutoff)
  }

  function CountFrom(times: seq<int>, from: int): nat {
    if times == [] then 0
    else CountFrom(times[..|times| - 1], from) + if times[|times| - 1] >= from then 1 else 0
  }

  /** Failures in the closed window that starts at `from`. */
  function CountIn(times: seq<int>, from: int): nat {
    if times == [] then 0
    else CountIn(times[..|times| - 1], from) + if from <= times[|times| - 1] <= from + WINDOW then 1 else 0
  }

  lemma CountNext(times: seq<int>, t: int, from: int)
    ensures CountFrom(times + [t], from) == CountFrom(times, from) + if t >= from then 1 else 0
    ensures CountIn(times + [t], from) == CountIn(times, from) + if from <= t <= from + WINDOW then 1 else 0
  {
    assert (times + [t])[..|times|] == times;
  }

  lemma SortedNext(times: seq<int>, t: int)
    requires IsSorted(times) && forall k :: 0 <= k < |times| ==> times[k] <= t
    ensures IsSorted(times + [t])
  {
  }

  lemma {:induction false} CountLater(times: seq<int>, from: int, later: int)
    requires from <= later
    ensures CountFrom(times, later) <= CountFrom(times, from)
  {
    if times != [] {
      CountLater(times[..|times| - 1], from, later);
    }
  }

  lemma {:induction false} CountInAtMost(times: seq<int>, from: int, start: int)
    requires start <= from
    ensures CountIn(times, from) <= CountFrom(times, start)
  {
    if times != [] {
      CountInAtMost(times[..|times| - 1], from, start);
    }
  }

  lemma {:induction false} CountAll(times: seq<int>, from: int)
    requires forall k :: 0 <= k < |times| ==> times[k] >= from
    ensures CountFrom(times, from) == |times|
  {
    if times != [] {
      CountAll(times[..|times| - 1], from);
    }
  }

  lemma {:induction false} CountOldFirst(old_: seq<int>, times: seq<int>, from: int)
    requires forall k :: 0 <= k < |old_| ==> old_[k] < from
    ensures CountFrom(old_ + times, from) == CountFrom(times, from)
  {
    if times == [] {
      assert old_ + times == old_;
      if old_ != [] {
        CountOldFirst(old_[..|old_| - 1], [], from);
        assert old_[..|old_| - 1] + [] == old_[..|old_| - 1];
      }
    } else {
      var n := |times| - 1;
      assert (old_ + times)[..|old_| + n] == old_ + times[..n];
      CountOldFirst(old_, times[..n], from);
    }
  }

  /** Popping the front of a sorted queue drops exactly the times before the cutoff. */
  lemma {:induction false} RecentDrops(times: seq<int>, cutoff: int) returns (cut: nat)
    requires IsSorted(times)
    ensures cut <= |times| && Recent(times, cutoff) == times[cut..]
    ensures forall k :: 0 <= k < cut ==> times[k] < cutoff
    ensures forall k :: cut <= k < |times| ==> times[k] >= cutoff
  {
    if times == [] || times[0] >= cutoff {
      cut := 0;
    } else {
      var rest := RecentDrops(times[1..], cutoff);
      cut := rest + 1;
    }
  }

  // ------------------------------------------------------------------------------------------
  // Queues and the failures they stand for

  function QueueOf(attempts: map<Key, seq<int>>, key: Key): seq<int> {
    if key in attempts then attempts[key] else []
  }

  /** The queue is what was recorded, without a front that is out of the window for good. */
  ghost predicate IsTailOf(queue: seq<int>, recorded: seq<int>, cutoff: int) {
    exists cut: nat :: IsTailAt(queue, recorded, cutoff, cut)
  }

  ghost predicate IsTailAt(queue: seq<int>, recorded: seq<int>, cutoff: int, cut: nat) {
    cut <= |recorded| && queue == recorded[cut..] && forall k :: 0 <= k < cut ==> recorded[k] < cutoff
  }

  lemma TailPopped(queue: seq<int>, recorded: seq<int>, before: int, cutoff: int) returns (cut: nat)
    requires IsTailOf(queue, recorded, before) && IsSorted(recorded) && before <= cutoff
    ensures IsTailAt(Recent(queue, cutoff), recorded, cutoff, cut)
    ensures forall k :: cut <= k < |recorded| ==> recorded[k] >= cutoff
  {
    var first: nat :| IsTailAt(queue, recorded, before, first);
    var more := RecentDrops(queue, cutoff);
    cut := first + more;
    forall k | 0 <= k < cut ensures recorded[k] < cutoff {
      assert k >= first ==> recorded[k] == queue[k - first];
    }
    forall k | cut <= k < |recorded| ensures recorded[k] >= cutoff {
      assert recorded[k] == queue[k - first];
    }
  }

  lemma TailCounts(queue: seq<int>, recorded: seq<int>, before: int, cutoff: int)
    requires IsTailOf(queue, recorded, before) && IsSorted(recorded) && before <= cutoff
    ensures IsTailOf(Recent(queue, cutoff), recorded, cutoff)
    ensures |Recent(queue, cutoff)| == CountFrom(recorded, cutoff)
  {
    hide Recent, IsSorted;
    var cut := TailPopped(queue, recorded, before, cutoff);
    assert recorded == recorded[..cut] + recorded[cut..];
    CountOldFirst(recorded[..cut], recorded[cut..], cutoff);
    CountAll(recorded[cut..], cutoff);
  }

  lemma TailGrows(queue: seq<int>, recorded: seq<int>, cutoff: int, t: int)
    requires IsTailOf(queue, recorded, cutoff)
    ensures IsTailOf(queue + [t], recorded + [t], cutoff)
  {
    var cut: nat :| IsTailAt(queue, recorded, cutoff, cut);
    assert IsTailAt(queue + [t], recorded + [t], cutoff, cut);
  }

  lemma TailLater(queue: seq<int>, recorded: seq<int>, cutoff: int, later: int)
    requires IsTailOf(queue, recorded, cutoff) && cutoff <= later
    ensures IsTailOf(queue, recorded, later)
  {
    var cut: nat :| IsTailAt(queue, recorded, cutoff, cut);
    assert IsTailAt(queue, recorded, later, cut);
  }

  // ------------------------------------------------------------------------------------------
  // The limiter

  /** Logins between their check and their outcome that touch a key. */
  function Holding(pending: seq<Attempt>, key: Key): nat {
    if pending == [] then 0
    else
      var last := pending[|pending| - 1];
      Holding(pending[..|pending| - 1], key) + if last.ip == key || last.user == key then 1 else 0
  }

  lemma {:induction false} HoldingAtMost(pending: seq<Attempt>, key: Key)
    ensures Holding(pending, key) <= |pending|
  {
    if pending != [] {
      HoldingAtMost(pending[..|pending| - 1], key);
    }
  }

  lemma {:induction false} HoldingWithout(pending: seq<Attempt>, k: nat, key: Key)
    requires k < |pending|
    ensures var touches := pending[k].ip == key || pending[k].user == key;
            Holding(pending, key) == Holding(pending[..k] + pending[k + 1..], key) + if touches then 1 else 0
  {
    var n := |pending| - 1;
    if k < n {
      HoldingWithout(pending[..n], k, key);
      assert (pending[..k] + pending[k + 1..])[..n - 1] == pending[..n][..k] + pending[..n][k + 1..];
      assert (pending[..k] + pending[k + 1..])[n - 1] == pending[n];
    } else {
      assert pending[..k] + pending[k + 1..] == pending[..n];
    }
  }

  lemma HoldingNext(pending: seq<Attempt>, attempt: Attempt, key: Key)
    ensures Holding(pending + [attempt], key) == Holding(pending, key) + if attempt.ip == key || attempt.user == key then 1 else 0
  {
    assert (pending + [attempt])[..|pending|] == pending;
  }

  /** What a limiter knows, what was recorded since the user's last success (for a client: ever),
      and the logins in between. */
  datatype Limits = Limits(attempts: map<Key, seq<int>>, recorded: map<Key, seq<int>>, pending: seq<Attempt>)

  ghost predicate KeyHolds(s: Limits, key: Key, k: nat, clock: int) {
    var times := QueueOf(s.recorded, key);
    && IsSorted(times) && (forall i :: 0 <= i < |times| ==> times[i] <= clock)
    && IsTailOf(QueueOf(s.attempts, key), times, clock - WINDOW)
    && CountFrom(times, clock - WINDOW) + Holding(s.pending, key) <= LimitOf(key) - 1 + k
  }

  ghost predicate WindowHolds(s: Limits, key: Key, k: nat) {
    forall from :: CountIn(QueueOf(s.recorded, key), from) <= LimitOf(key) - 1 + k
  }

  ghost predicate Inv(s: Limits, k: nat, clock: int) {
    && |s.pending| <= k
    && (forall attempt :: attempt in s.pending ==> attempt.ip.Ip? && attempt.user.UserName?)
    && (forall key :: KeyHolds(s, key, k, clock)) && (forall key :: WindowHolds(s, key, k))
  }

  lemma KeyLater(s: Limits, key: Key, k: nat, clock: int, now: int)
    requires KeyHolds(s, key, k, clock) && clock <= now
    ensures KeyHolds(s, key, k, now)
  {
    var times := QueueOf(s.recorded, key);
    TailLater(QueueOf(s.attempts, key), times, clock - WINDOW, now - WINDOW);
    CountLater(times, clock - WINDOW, now - WINDOW);
  }

  /** One key's queue brought up to date. */
  lemma KeyPopped(s: Limits, s': Limits, key: Key, k: nat, now: int)
    requires KeyHolds(s, key, k, now) && s'.recorded == s.recorded && s'.pending == s.pending
    requires QueueOf(s'.attempts, key) == QueueOf(s.attempts, key)
          || QueueOf(s'.attempts, key) == Recent(QueueOf(s.attempts, key), now - WINDOW)
    ensures KeyHolds(s', key, k, now)
  {
    TailCounts(QueueOf(s.attempts, key), QueueOf(s.recorded, key), now - WINDOW, now - WINDOW);
  }

  lemma Admitted(s: Limits, s': Limits, key: Key, k: nat, now: int, attempt: Attempt)
    requires KeyHolds(s, key, k, now) && |s.pending| < k
    requires s' == s.(pending := s.pending + [attempt])
    requires attempt.ip == key || attempt.user == key ==> CountFrom(QueueOf(s.recorded, key), now - WINDOW) < LimitOf(key)
    ensures KeyHolds(s', key, k, now)
  {
    HoldingNext(s.pending, attempt, key);
    HoldingAtMost(s.pending, key);
  }

  /** A failure moves one login from those in between to those recorded. */
  lemma FailureMoves(s: Limits, s': Limits, key: Key, k: nat, now: int, at: nat)
    requires KeyHolds(s, key, k, now) && WindowHolds(s, key, k) && at < |s.pending|
    requires s'.pending == s.pending[..at] + s.pending[at + 1..]
    requires var touches := s.pending[at].ip == key || s.pending[at].user == key;
             if touches then
               && QueueOf(s'.recorded, key) == QueueOf(s.recorded, key) + [now]
               && QueueOf(s'.attempts, key) == Recent(QueueOf(s.attempts, key), now - WINDOW) + [now]
             else
               QueueOf(s'.recorded, key) == QueueOf(s.recorded, key) && QueueOf(s'.attempts, key) == QueueOf(s.attempts, key)
    ensures KeyHolds(s', key, k, now) && WindowHolds(s', key, k)
  {
    hide IsTailOf, Recent, CountFrom, CountIn, Holding, LimitOf, QueueOf, IsSorted;
    var times, times' := QueueOf(s.recorded, key), QueueOf(s'.recorded, key);
    HoldingWithout(s.pending, at, key);
    if s.pending[at].ip == key || s.pending[at].user == key {
      TailCounts(QueueOf(s.attempts, key), times, now - WINDOW, now - WINDOW);
      TailGrows(Recent(QueueOf(s.attempts, key), now - WINDOW), times, now - WINDOW, now);
      CountNext(times, now, now - WINDOW);
      SortedNext(times, now);
      forall from: int ensures CountIn(times', from) <= LimitOf(key) - 1 + k {
        CountNext(times, now, from);
        if from <= now <= from + WINDOW {
          CountInAtMost(times', from, now - WINDOW);
        }
      }
    }
  }

  /** A success forgets the user's failures. */
  lemma SuccessForgets(s: Limits, s': Limits, key: Key, k: nat, now: int, at: nat)
    requires KeyHolds(s, key, k, now) && WindowHolds(s, key, k) && at < |s.pending| <= k
    requires s'.pending == s.pending[..at] + s.pending[at + 1..]
    requires if s.pending[at].user == key then QueueOf(s'.recorded, key) == [] && QueueOf(s'.attempts, key) == []
             else QueueOf(s'.recorded, key) == QueueOf(s.recorded, key) && QueueOf(s'.attempts, key) == QueueOf(s.attempts, key)
    ensures KeyHolds(s', key, k, now) && WindowHolds(s', key, k)
  {
    HoldingWithout(s.pending, at, key);
    if s.pending[at].user == key {
      HoldingAtMost(s'.pending, key);
      assert CountFrom([], now - WINDOW) == 0;
      assert IsTailAt([], [], now - WINDOW, 0);
      assert forall from :: CountIn([], from) == 0;
    }
  }

  // ------------------------------------------------------------------------------------------
  // Steps

  datatype Step = Admit(attempt: Attempt) | Refuse(attempt: Attempt) | Fail(at: nat) | Succeed(at: nat)

  /** The keys that keep a failure of the last minute. */
  function LiveKeys(attempts: map<Key, seq<int>>, now: int): set<Key> {
    set key | key in attempts && Recent(attempts[key], now - WINDOW) != []
  }

  predicate IsRefused(attempts: map<Key, seq<int>>, attempt: Attempt, now: int) {
    var ofUser, ofIp := Recent(QueueOf(attempts, attempt.user), now - WINDOW), Recent(QueueOf(attempts, attempt.ip), now - WINDOW);
    || |ofUser| >= USER_LIMIT || |ofIp| >= IP_LIMIT
    || (|LiveKeys(attempts, now)| >= MAX_KEYS && ofUser == [])
  }

  ghost predicate IsUpToDate(attempts: map<Key, seq<int>>, attempts': map<Key, seq<int>>, now: int) {
    forall key :: QueueOf(attempts', key) == Recent(QueueOf(attempts, key), now - WINDOW)
  }

  predicate Touches(attempt: Attempt, key: Key) {
    attempt.ip == key || attempt.user == key
  }

  /** One locked call.  An outcome belongs to a login in between. */
  ghost predicate NextBy(s: Limits, s': Limits, step: Step, now: int) {
    match step
    case Admit(a) =>
      && a.ip.Ip? && a.user.UserName? && !IsRefused(s.attempts, a, now)
      && IsUpToDate(s.attempts, s'.attempts, now)
      && s'.recorded == s.recorded && s'.pending == s.pending + [a]
    case Refuse(a) =>
      && a.ip.Ip? && a.user.UserName? && IsRefused(s.attempts, a, now)
      && IsUpToDate(s.attempts, s'.attempts, now)
      && s'.recorded == s.recorded && s'.pending == s.pending
    case Fail(at) =>
      && at < |s.pending| && s'.pending == s.pending[..at] + s.pending[at + 1..]
      && (forall key ::
            if Touches(s.pending[at], key) then
              && QueueOf(s'.recorded, key) == QueueOf(s.recorded, key) + [now]
              && QueueOf(s'.attempts, key) == Recent(QueueOf(s.attempts, key), now - WINDOW) + [now]
            else
              QueueOf(s'.recorded, key) == QueueOf(s.recorded, key) && QueueOf(s'.attempts, key) == QueueOf(s.attempts, key))
    case Succeed(at) =>
      && at < |s.pending| && s'.pending == s.pending[..at] + s.pending[at + 1..]
      && (forall key ::
            if s.pending[at].user == key then QueueOf(s'.recorded, key) == [] && QueueOf(s'.attempts, key) == []
            else
              QueueOf(s'.recorded, key) == QueueOf(s.recorded, key) && QueueOf(s'.attempts, key) == QueueOf(s.attempts, key))
  }

  lemma {:induction false} RecentTwice(times: seq<int>, cutoff: int)
    ensures Recent(Recent(times, cutoff), cutoff) == Recent(times, cutoff)
  {
    if times != [] && times[0] < cutoff {
      RecentTwice(times[1..], cutoff);
    }
  }

  lemma PrunedKeys(attempts: map<Key, seq<int>>, pruned: map<Key, seq<int>>, now: int)
    requires IsUpToDate(attempts, pruned, now) && pruned.Keys <= attempts.Keys
    requires forall key :: key in pruned ==> pruned[key] != []
    ensures pruned.Keys == LiveKeys(attempts, now)
  {
    hide Recent;
    NothingRecent(now - WINDOW);
    forall key | key in attempts ensures key in pruned <==> Recent(attempts[key], now - WINDOW) != [] {
      assert QueueOf(pruned, key) == Recent(QueueOf(attempts, key), now - WINDOW);
    }
    assert |pruned.Keys| == |pruned|;
  }

  lemma StaysUpToDate(attempts: map<Key, seq<int>>, now_: map<Key, seq<int>>, later: map<Key, seq<int>>, key: Key, now: int)
    requires IsUpToDate(attempts, now_, now) && later == now_[key := Recent(QueueOf(now_, key), now - WINDOW)]
    ensures IsUpToDate(attempts, later, now)
    ensures Recent(QueueOf(now_, key), now - WINDOW) == Recent(QueueOf(attempts, key), now - WINDOW)
  {
    hide Recent;
    RecentTwice(QueueOf(attempts, key), now - WINDOW);
  }

  class LoginAttemptLimiter {
    var attempts: map<Key, seq<int>>
    ghost var recorded: map<Key, seq<int>>
    ghost var pending: seq<Attempt>
    /** How many logins are between check and outcome at most. */
    ghost const concurrent: nat

    ghost function State(): Limits
      reads this
    {
      Limits(attempts, recorded, pending)
    }

    ghost predicate Valid(clock: int)
      reads this
    {
      Inv(State(), concurrent, clock)
    }

    constructor (ghost concurrent: nat)
      ensures this.concurrent == concurrent && attempts == map[] && pending == [] && recorded == map[]
      ensures forall clock :: Valid(clock)
    {
      this.concurrent := concurrent;
      attempts, recorded, pending := map[], map[], [];
      new;
      forall clock ensures Valid(clock) {
        NothingHolds(concurrent, clock);
      }
    }

    method ActiveAttempts(key: Key, now: int) returns (active: seq<int>)
      modifies `attempts
      ensures active == Recent(QueueOf(old(attempts), key), now - WINDOW)
      ensures attempts == old(attempts)[key := active]
    {
      active := if key in attempts then attempts[key] else [];
      while active != [] && active[0] < now - WINDOW
        invariant Recent(active, now - WINDOW) == Recent(QueueOf(old(attempts), key), now - WINDOW)
      {
        active := active[1..];
      }
      attempts := attempts[key := active];
    }

    method Prune(now: int)
      modifies `attempts
      ensures forall key :: QueueOf(attempts, key) == Recent(QueueOf(old(attempts), key), now - WINDOW)
      ensures forall key :: key in attempts ==> attempts[key] != []
      ensures attempts.Keys <= old(attempts).Keys
    {
      hide Recent;
      NothingRecent(now - WINDOW);
      var keys := attempts.Keys;
      ghost var left := attempts.Keys;
      while keys != {}
        invariant keys <= attempts.Keys <= old(attempts).Keys
        invariant forall key :: key in keys ==> attempts[key] == old(attempts)[key]
        invariant forall key :: key !in keys ==>
          QueueOf(attempts, key) == Recent(QueueOf(old(attempts), key), now - WINDOW)
        invariant forall key :: key in attempts && key !in keys ==> attempts[key] != []
        decreases |keys|
      {
        var key :| key in keys;
        keys := keys - {key};
        var active := ActiveAttempts(key, now);
        if active == [] {
          attempts := attempts - {key};
        }
      }
    }

    /** A login may go on: fewer failures than the limits are recorded in the last minute. */
    method Check(ip: Key, user: Key, ghost clock: int, now: int) returns (admitted: bool)
      requires Valid(clock) && clock <= now && |pending| < concurrent && ip.Ip? && user.UserName?
      modifies this
      ensures Valid(now) && recorded == old(recorded)
      ensures NextBy(old(State()), State(), if admitted then Admit(Attempt(ip, user)) else Refuse(Attempt(ip, user)), now)
      ensures pending == old(pending) + if admitted then [Attempt(ip, user)] else []
      ensures var ofUser, ofIp := CountFrom(QueueOf(recorded, user), now - WINDOW), CountFrom(QueueOf(recorded, ip), now - WINDOW);
              && (admitted ==> ofUser < USER_LIMIT && ofIp < IP_LIMIT)
              && (!admitted ==> ofUser >= USER_LIMIT || ofIp >= IP_LIMIT || (|attempts| >= MAX_KEYS && user !in attempts))
    {
      hide Recent, KeyHolds, WindowHolds, CountFrom, LiveKeys;
      LaterHolds(State(), concurrent, clock, now);
      ghost var s0 := State();
      Prune(now);
      PopsHold(s0, State(), concurrent, now);
      PrunedKeys(s0.attempts, attempts, now);
      NothingRecent(now - WINDOW);
      assert QueueOf(attempts, user) == Recent(QueueOf(s0.attempts, user), now - WINDOW);
      if |attempts| >= MAX_KEYS && user !in attempts {
        return false;
      }
      ghost var s1 := State();
      ActiveCounts(s1, user, concurrent, now);
      var active := ActiveAttempts(user, now);
      PopsHold(s1, State(), concurrent, now);
      StaysUpToDate(s0.attempts, s1.attempts, attempts, user, now);
      if |active| >= USER_LIMIT {
        return false;
      }
      ghost var s2 := State();
      ActiveCounts(s2, ip, concurrent, now);
      active := ActiveAttempts(ip, now);
      PopsHold(s2, State(), concurrent, now);
      StaysUpToDate(s0.attempts, s2.attempts, attempts, ip, now);
      if |active| >= IP_LIMIT {
        return false;
      }
      ghost var s3 := State();
      pending := pending + [Attempt(ip, user)];
      AdmissionHolds(s3, State(), concurrent, now, Attempt(ip, user));
      return true;
    }

    /** `at` is the login this is the outcome of. */
    method Failed(ip: Key, user: Key, ghost at: nat, ghost clock: int, now: int)
      requires Valid(clock) && clock <= now && at < |pending| && pending[at] == Attempt(ip, user)
      modifies this
      ensures Valid(now) && pending == old(pending)[..at] + old(pending)[at + 1..]
      ensures forall key :: QueueOf(recorded, key) ==
                QueueOf(old(recorded), key) + if key == ip || key == user then [now] else []
      ensures NextBy(old(State()), State(), Fail(at), now)
    {
      hide Recent, Inv, NextBy, QueueOf;
      LaterHolds(State(), concurrent, clock, now);
      ghost var s := State();
      KeysDiffer(s, at, concurrent, now);
      var active := ActiveAttempts(ip, now);
      attempts := attempts[ip := active + [now]];
      OtherQueue(s.attempts, ip, user, active, active + [now]);
      active := ActiveAttempts(user, now);
      attempts := attempts[user := active + [now]];
      recorded := recorded[ip := QueueOf(recorded, ip) + [now]][user := QueueOf(recorded, user) + [now]];
      pending := pending[..at] + pending[at + 1..];
      FailRecorded(s, State(), at, now);
      FailHolds(s, State(), at, concurrent, now);
    }

    method Succeeded(user: Key, ghost at: nat, ghost clock: int, now: int)
      requires Valid(clock) && clock <= now && at < |pending| && pending[at].user == user
      modifies this
      ensures Valid(now) && pending == old(pending)[..at] + old(pending)[at + 1..]
      ensures forall key :: QueueOf(recorded, key) == if key == user then [] else QueueOf(old(recorded), key)
      ensures NextBy(old(State()), State(), Succeed(at), now)
    {
      hide Recent, Inv;
      LaterHolds(State(), concurrent, clock, now);
      ghost var s := State();
      attempts := attempts - {user};
      recorded := recorded - {user};
      pending := pending[..at] + pending[at + 1..];
      SucceedHolds(s, State(), at, concurrent, now);
    }
  }

  /** The two queues and the two records of a failure. */
  lemma FailRecorded(s: Limits, s': Limits, at: nat, now: int)
    requires at < |s.pending| && s.pending[at].ip != s.pending[at].user
    requires s'.pending == s.pending[..at] + s.pending[at + 1..]
    requires var Attempt(ip, user) := s.pending[at];
             var a, b := Recent(QueueOf(s.attempts, ip), now - WINDOW), Recent(QueueOf(s.attempts, user), now - WINDOW);
             && s'.attempts == s.attempts[ip := a][ip := a + [now]][user := b][user := b + [now]]
             && s'.recorded == s.recorded[ip := QueueOf(s.recorded, ip) + [now]][user := QueueOf(s.recorded, user) + [now]]
    ensures NextBy(s, s', Fail(at), now)
    ensures forall key :: QueueOf(s'.recorded, key) ==
              QueueOf(s.recorded, key) + if Touches(s.pending[at], key) then [now] else []
  {
    hide Recent;
  }

  lemma OtherQueue(attempts: map<Key, seq<int>>, ip: Key, user: Key, a: seq<int>, b: seq<int>)
    requires ip != user
    ensures QueueOf(attempts[ip := a][ip := b], user) == QueueOf(attempts, user)
  {
  }

  lemma KeysDiffer(s: Limits, at: nat, k: nat, clock: int)
    requires Inv(s, k, clock) && at < |s.pending|
    ensures s.pending[at].ip != s.pending[at].user
  {
    assert s.pending[at] in s.pending;
  }

  lemma NothingHolds(k: nat, clock: int)
    ensures Inv(Limits(map[], map[], []), k, clock)
  {
    assert IsTailAt([], [], clock - WINDOW, 0);
    assert forall from :: CountIn([], from) == 0;
  }

  lemma NothingRecent(cutoff: int)
    ensures Recent([], cutoff) == []
  {
  }

  lemma LaterHolds(s: Limits, k: nat, clock: int, now: int)
    requires Inv(s, k, clock) && clock <= now
    ensures Inv(s, k, now)
  {
    hide KeyHolds, WindowHolds;
    forall key ensures KeyHolds(s, key, k, now) {
      assert KeyHolds(s, key, k, clock);
      KeyLater(s, key, k, clock, now);
    }
  }

  lemma PopsHold(s: Limits, s': Limits, k: nat, now: int)
    requires Inv(s, k, now) && s'.recorded == s.recorded && s'.pending == s.pending
    requires forall key :: QueueOf(s'.attempts, key) == QueueOf(s.attempts, key)
                        || QueueOf(s'.attempts, key) == Recent(QueueOf(s.attempts, key), now - WINDOW)
    ensures Inv(s', k, now)
  {
    hide KeyHolds, Recent;
    forall key ensures KeyHolds(s', key, k, now) {
      assert KeyHolds(s, key, k, now);
      KeyPopped(s, s', key, k, now);
    }
    forall key ensures WindowHolds(s', key, k) {
      assert WindowHolds(s, key, k);
    }
  }

  lemma ActiveCounts(s: Limits, key: Key, k: nat, now: int)
    requires Inv(s, k, now)
    ensures |Recent(QueueOf(s.attempts, key), now - WINDOW)| == CountFrom(QueueOf(s.recorded, key), now - WINDOW)
  {
    hide WindowHolds;
    assert KeyHolds(s, key, k, now);
    TailCounts(QueueOf(s.attempts, key), QueueOf(s.recorded, key), now - WINDOW, now - WINDOW);
  }

  lemma AdmissionHolds(s: Limits, s': Limits, k: nat, now: int, attempt: Attempt)
    requires Inv(s, k, now) && |s.pending| < k && s' == s.(pending := s.pending + [attempt])
    requires attempt.ip.Ip? && attempt.user.UserName?
    requires CountFrom(QueueOf(s.recorded, attempt.user), now - WINDOW) < USER_LIMIT
    requires CountFrom(QueueOf(s.recorded, attempt.ip), now - WINDOW) < IP_LIMIT
    ensures Inv(s', k, now)
  {
    hide KeyHolds, CountFrom;
    forall key ensures KeyHolds(s', key, k, now) {
      assert KeyHolds(s, key, k, now);
      Admitted(s, s', key, k, now, attempt);
    }
    forall key ensures WindowHolds(s', key, k) {
      assert WindowHolds(s, key, k);
    }
  }

  // ------------------------------------------------------------------------------------------
  // Every run

  const Start: Limits := Limits(map[], map[], [])

  /** Locked calls from an empty limiter on: call `j` at `times[j]` on a clock that never goes
      back, with at most `k` logins between their check and their outcome. */
  ghost predicate IsRun(ss: seq<Limits>, steps: seq<Step>, times: seq<int>, k: nat) {
    && |ss| == |steps| + 1 && |times| == |steps| && ss[0] == Start
    && (forall j :: 0 <= j < |ss| ==> |ss[j].pending| <= k)
    && (forall i, j :: 0 <= i <= j < |times| ==> times[i] <= times[j])
    && (forall j :: 0 <= j < |steps| ==> NextBy(ss[j], ss[j + 1], steps[j], times[j]))
  }

  /** The failures that touch `key` among the first `j` calls, for a user those since the last
      success; no success ends those of a client. */
  function FailuresOf(ss: seq<Limits>, steps: seq<Step>, times: seq<int>, key: Key, j: nat): seq<int>
    requires j <= |steps| && |ss| == |steps| + 1 && |times| == |steps|
  {
    if j == 0 then []
    else
      var before, s := FailuresOf(ss, steps, times, key, j - 1), ss[j - 1];
      match steps[j - 1]
      case Fail(at) => if at < |s.pending| && Touches(s.pending[at], key) then before + [times[j - 1]] else before
      case Succeed(at) => if at < |s.pending| && s.pending[at].user == key then [] else before
      case _ => before
  }

  lemma {:induction false} RecordedAreFailures(ss: seq<Limits>, steps: seq<Step>, times: seq<int>, k: nat, key: Key, j: nat)
    requires IsRun(ss, steps, times, k) && j <= |steps|
    ensures QueueOf(ss[j].recorded, key) == FailuresOf(ss, steps, times, key, j)
  {
    hide Recent, IsRefused;
    if j > 0 {
      RecordedAreFailures(ss, steps, times, k, key, j - 1);
      assert NextBy(ss[j - 1], ss[j], steps[j - 1], times[j - 1]);
    }
  }

  lemma FailHolds(s: Limits, s': Limits, at: nat, k: nat, now: int)
    requires Inv(s, k, now) && NextBy(s, s', Fail(at), now)
    ensures Inv(s', k, now)
  {
    hide KeyHolds, WindowHolds, Recent;
    forall key ensures KeyHolds(s', key, k, now) && WindowHolds(s', key, k) {
      assert KeyHolds(s, key, k, now) && WindowHolds(s, key, k);
      FailureMoves(s, s', key, k, now, at);
    }
  }

  lemma SucceedHolds(s: Limits, s': Limits, at: nat, k: nat, now: int)
    requires Inv(s, k, now) && NextBy(s, s', Succeed(at), now)
    ensures Inv(s', k, now)
  {
    hide KeyHolds, WindowHolds, Recent;
    forall key ensures KeyHolds(s', key, k, now) && WindowHolds(s', key, k) {
      assert KeyHolds(s, key, k, now) && WindowHolds(s, key, k);
      SuccessForgets(s, s', key, k, now, at);
    }
  }

  lemma StepHolds(s: Limits, s': Limits, step: Step, k: nat, now: int)
    requires Inv(s, k, now) && NextBy(s, s', step, now) && |s'.pending| <= k
    ensures Inv(s', k, now)
  {
    hide Recent, LiveKeys, Inv;
    match step
    case Admit(a) =>
      var popped := s.(attempts := s'.attempts);
      PopsHold(s, popped, k, now);
      ActiveCounts(s, a.user, k, now);
      ActiveCounts(s, a.ip, k, now);
      AdmissionHolds(popped, s', k, now, a);
    case Refuse(a) => PopsHold(s, s', k, now);
    case Fail(at) => FailHolds(s, s', at, k, now);
    case Succeed(at) => SucceedHolds(s, s', at, k, now);
  }

  lemma {:induction false} RunsHold(ss: seq<Limits>, steps: seq<Step>, times: seq<int>, k: nat, j: nat, clock: int)
    requires IsRun(ss, steps, times, k) && j <= |steps| && (j > 0 ==> clock == times[j - 1])
    ensures Inv(ss[j], k, clock)
  {
    hide NextBy, Inv;
    if j == 0 {
      NothingHolds(k, clock);
    } else {
      var before := if j == 1 then clock else times[j - 2];
      RunsHold(ss, steps, times, k, j - 1, before);
      LaterHolds(ss[j - 1], k, before, clock);
      StepHolds(ss[j - 1], ss[j], steps[j - 1], k, clock);
    }
  }

  /** In every run, any closed minute holds at most 19 failures of a client and the logins in
      between, and at most 4 of a user since the last success and the logins in between. */
  lemma FailuresAreLimited(ss: seq<Limits>, steps: seq<Step>, times: seq<int>, k: nat, key: Key, j: nat, from: int)
    requires IsRun(ss, steps, times, k) && j <= |steps|
    ensures CountIn(FailuresOf(ss, steps, times, key, j), from) <= (if key.Ip? then 19 else 4) + k
  {
    hide FailuresOf, NextBy, WindowHolds, KeyHolds;
    RunsHold(ss, steps, times, k, j, ClockAfter(times, j));
    RecordedAreFailures(ss, steps, times, k, key, j);
    WindowIs(ss[j], key, k, from);
  }

  lemma WindowIs(s: Limits, key: Key, k: nat, from: int)
    requires WindowHolds(s, key, k)
    ensures CountIn(QueueOf(s.recorded, key), from) <= (if key.Ip? then 19 else 4) + k
  {
  }

  function ClockAfter(times: seq<int>, j: nat): int
    requires j <= |times|
  {
    if j == 0 then 0 else times[j - 1]
  }
}
