/** The cache in front of session and proxy resolution
    (src/sqltide/auth/classes/authentication_service.py). */
module AuthenticationCache {
  import opened Chars
  import opened Accounts
  import opened AccountInvariants
  import opened ControlStores
  import opened AccountHistories

  const CACHE_TTL: int := 5
  const CACHE_MAX_ENTRIES: nat := 1024

  datatype CacheKey = SessionKey(token: Token) | ProxyKey(subject: Text)

  datatype CacheEntry = CacheEntry(expires: int, revision: nat, authenticated: Authenticated)

  /** The store reads the wall clock and the cache a monotonic one.  The wall clock is ahead by
      `base` to `base + drift`, and an answer is remembered at most `delay` after it was resolved. */
  datatype Clocks = Clocks(base: int, drift: nat, delay: nat)

  predicate InStep(c: Clocks, now: int, mono: int) {
    c.base <= now - mono <= c.base + c.drift
  }

  /** What the store would answer now, without the cache. */
  function StoreAnswer(t: Tables, key: CacheKey, now: int): Option<Authenticated> {
    match key
    case SessionKey(token) => ResolvedSession(t, token, now)
    case ProxyKey(subject) => ResolvedProxy(t, subject)
  }

  // ------------------------------------------------------------------------------------------
  // What a cached entry promises

  /** The identity of the session's user, whether or not the session has expired; but it was never
      revoked, and its user is active. */
  ghost predicate BelongsTo(t: Tables, token: Token, authenticated: Authenticated) {
    && token in t.issued && token !in t.everRevoked
    && var session := t.issued[token];
    && session.user in t.users && t.users[session.user].isActive
    && authenticated == Authenticated(PrincipalOf(t, session.user, Password), RolesOf(t, session.user), Some(session.csrf))
  }

  /** An entry of the current revision agrees with the store, unless it is for a session that has
      expired since; and then it was cached before the session expired. */
  ghost predicate EntryHolds(c: Clocks, t: Tables, key: CacheKey, entry: CacheEntry, clock: int) {
    && entry.revision <= t.revision
    && (entry.revision == t.revision ==>
          match key
          case SessionKey(token) =>
            && BelongsTo(t, token, entry.authenticated) && c.base + entry.expires - CACHE_TTL - c.delay < t.issued[token].expires
            && (clock < t.issued[token].expires ==> ResolvedSession(t, token, clock) == Some(entry.authenticated))
          case ProxyKey(subject) => ResolvedProxy(t, subject) == Some(entry.authenticated))
  }

  ghost predicate CacheHolds(c: Clocks, t: Tables, cache: map<CacheKey, CacheEntry>, clock: int) {
    forall key :: key in cache ==> EntryHolds(c, t, key, cache[key], clock)
  }

  lemma SessionOutlives(t: Tables, token: Token, clock: int, now: int)
    requires SessionsHold(t) && token in t.issued && clock <= now < t.issued[token].expires
    ensures ResolvedSession(t, token, clock) == ResolvedSession(t, token, now)
  {
  }

  lemma TimePasses(c: Clocks, t: Tables, cache: map<CacheKey, CacheEntry>, clock: int, now: int)
    requires Inv(t) && CacheHolds(c, t, cache, clock) && clock <= now
    ensures CacheHolds(c, t, cache, now)
  {
    hide ResolvedSession, ResolvedProxy, ReferencesHold, SlotsHold, AuditHolds;
    forall key | key in cache ensures EntryHolds(c, t, key, cache[key], now) {
      assert EntryHolds(c, t, key, cache[key], clock);
      if key.SessionKey? && key.token in t.issued && now < t.issued[key.token].expires {
        SessionOutlives(t, key.token, clock, now);
      }
    }
  }

  // ------------------------------------------------------------------------------------------
  // Operations of the store

  /** Nothing an identity is made of changes. */
  ghost predicate SameIdentities(t: Tables, t': Tables, now: int) {
    && t'.revision == t.revision && t'.users == t.users && t'.userRoles == t.userRoles && t'.externals == t.externals
    && t'.everRevoked == t.everRevoked
    && (forall token :: token in t.issued ==> token in t'.issued && t'.issued[token] == t.issued[token])
    && (forall token :: token in t.issued && now < t.issued[token].expires ==>
          ResolvedSession(t', token, now) == ResolvedSession(t, token, now))
  }

  lemma LoginSame(rules: Rules, t: Tables, op: Op, now: int)
    requires op.Login? && IsFreshFor(t, op)
    ensures SameIdentities(t, LoggedIn(rules, t, op, now).tables, now)
  {
    hide LoginUser;
  }

  lemma PruningSame(t: Tables, now: int)
    requires SessionsHold(t)
    ensures SameIdentities(t, Pruned(t, now), now)
  {
  }

  lemma ProjectGrantSame(t: Tables, op: Op, now: int)
    requires op.GrantProjectRole? && ProjectRoleGrantedBy(t, op).Done?
    ensures SameIdentities(t, ProjectRoleGrantedBy(t, op).tables, now)
  {
    hide AssignmentName, IsSlotTaken;
  }

  lemma ProjectRevocationSame(t: Tables, k: nat, now: int)
    requires ProjectRoleRevokedBy(t, k).Done?
    ensures SameIdentities(t, ProjectRoleRevokedBy(t, k).tables, now)
  {
  }

  lemma SameTables(t: Tables, now: int)
    ensures SameIdentities(t, t, now)
  {
  }

  /** Every operation advances the revision or changes nothing a cached answer depends on. */
  lemma RevisionCovers(rules: Rules, t: Tables, op: Op, now: int)
    requires Inv(t) && IsFreshFor(t, op)
    ensures var t' := After(rules, t, op, now); t'.revision == t.revision + 1 || SameIdentities(t, t', now)
  {
    hide Created, LoggedIn, Pruned, RevokedOf, CleanOptional, IsLastAdmin, IsKnownRole, SameIdentities;
    hide ProjectRoleGrantedBy, ProjectRoleRevokedBy, ReferencesHold, SlotsHold, AuditHolds, SessionsHold;
    SameTables(t, now);
    if Applied(rules, t, op, now).Done? {
      match op
      case CreateUser(_, _, _, _, _, _, _) => CreationShape(rules, t, op);
      case Login(_, _, _, _, _) => LoginSame(rules, t, op, now);
      case PruneSessions => PruningSame(t, now);
      case GrantProjectRole(_, _, _, _, _) => ProjectGrantSame(t, op, now);
      case RevokeProjectRole(k) => ProjectRevocationSame(t, k, now);
      case SetActive(id, isActive) => RevisionOfSessions(t, id, t.users[id].(isActive := isActive));
      case UpdateAccount(id, displayName, email, isActive) =>
        var user := t.users[id].(
          displayName := CleanOptional(displayName), email := CleanOptional(email), isActive := isActive);
        RevisionOfSessions(t, id, user);
      case ResetPassword(id, secret) =>
        RevisionOfRevoked(t.(credentials := t.credentials[id := secret]), id);
      case _ =>
    }
  }

  lemma RevisionOfRevoked(t: Tables, id: UserId)
    ensures RevokedOf(t, id).revision == t.revision
  {
  }

  lemma RevisionOfSessions(t: Tables, id: UserId, user: User)
    ensures WithActivity(t, id, user).revision == t.revision
  {
  }

  /** After any operation, cached entries are right or out of date. */
  lemma OperationsKeepCache(c: Clocks, rules: Rules, t: Tables, cache: map<CacheKey, CacheEntry>, clock: int, op: Op, now: int)
    requires Inv(t) && CacheHolds(c, t, cache, clock) && clock <= now && IsFreshFor(t, op)
    ensures CacheHolds(c, After(rules, t, op, now), cache, now)
  {
    hide After, Inv, ResolvedSession, RolesOf, PrincipalOf;
    var t' := After(rules, t, op, now);
    TimePasses(c, t, cache, clock, now);
    RevisionCovers(rules, t, op, now);
    forall key | key in cache ensures EntryHolds(c, t', key, cache[key], now) {
      assert EntryHolds(c, t, key, cache[key], now);
      if SameIdentities(t, t', now) && key.ProxyKey? {
        ProxySame(t, t', key.subject);
      }
      if SameIdentities(t, t', now) && key.SessionKey? && cache[key].revision == t.revision {
        BelongsStill(t, t', key.token, cache[key].authenticated);
      }
    }
  }

  lemma BelongsStill(t: Tables, t': Tables, token: Token, authenticated: Authenticated)
    requires t'.users == t.users && t'.userRoles == t.userRoles && t'.everRevoked == t.everRevoked
    requires BelongsTo(t, token, authenticated) && token in t'.issued && t'.issued[token] == t.issued[token]
    ensures BelongsTo(t', token, authenticated)
  {
  }

  lemma ProxySame(t: Tables, t': Tables, subject: Text)
    requires t'.users == t.users && t'.userRoles == t.userRoles && t'.externals == t.externals
    ensures ResolvedProxy(t', subject) == ResolvedProxy(t, subject)
  {
  }

  // ------------------------------------------------------------------------------------------
  // The service

  datatype Refusal = NotAuthenticated | NotProvisioned | Disabled | Raised(error: Error)

  datatype Answered = Allowed(authenticated: Authenticated) | Denied(refusal: Refusal)

  /** A served identity is what the store would answer, except that a session may be served for
      less than the cache's lifetime past its expiry, as far as the clocks agree, and then with the
      identity of its user all the same. */
  ghost predicate IsRight(c: Clocks, t: Tables, key: CacheKey, now: int, authenticated: Authenticated) {
    || StoreAnswer(t, key, now) == Some(authenticated)
    || (key.SessionKey? && BelongsTo(t, key.token, authenticated)
        && t.issued[key.token].expires <= now < t.issued[key.token].expires + CACHE_TTL + c.drift + c.delay)
  }

  class AuthenticationService {
    const store: ControlStore
    const provisions: bool
    const defaultRole: Text
    ghost const clocks: Clocks
    var cache: map<CacheKey, CacheEntry>

    ghost predicate Valid(clock: int)
      reads this, store
    {
      Inv(store.Contents()) && CacheHolds(clocks, store.Contents(), cache, clock)
    }

    constructor (store: ControlStore, provisions: bool, defaultRole: Text, ghost clocks: Clocks)
      requires Inv(store.Contents())
      ensures this.store == store && this.clocks == clocks && cache == map[] && forall clock :: Valid(clock)
    {
      this.store, this.provisions, this.defaultRole, this.clocks := store, provisions, defaultRole, clocks;
      cache := map[];
    }

    method Cached(key: CacheKey, ghost clock: int, ghost now: int, mono: int) returns (r: Option<Authenticated>)
      requires Valid(clock) && clock <= now && InStep(clocks, now, mono)
      modifies `cache
      ensures Valid(now)
      ensures r.Some? ==> IsRight(clocks, store.Contents(), key, now, r.value)
      ensures r.None? && key in old(cache) ==>
                cache == old(cache) - {key} && (old(cache)[key].expires <= mono || old(cache)[key].revision != store.authenticationRevision)
      ensures r.Some? || key !in old(cache) ==> cache == old(cache)
    {
      hide Inv, ResolvedSession, ResolvedProxy, EntryHolds;
      TimePasses(clocks, store.Contents(), cache, clock, now);
      if key !in cache {
        return None;
      }
      var entry := cache[key];
      if entry.expires <= mono || entry.revision != store.authenticationRevision {
        cache := cache - {key};
        return None;
      }
      FreshEntryIsRight(clocks, store.Contents(), key, entry, now, mono);
      return Some(entry.authenticated);
    }

    /** The answer was resolved at `now`, when the monotonic clock stood at `resolved`. */
    method Remember(key: CacheKey, authenticated: Authenticated, ghost now: int, ghost resolved: int, mono: int)
      requires Valid(now) && StoreAnswer(store.Contents(), key, now) == Some(authenticated)
      requires InStep(clocks, now, resolved) && resolved <= mono <= resolved + clocks.delay
      modifies `cache
      ensures Valid(now) && key in cache
      ensures cache[key] == CacheEntry(mono + CACHE_TTL, store.authenticationRevision, authenticated)
      ensures forall other :: other in cache && other != key ==> other in old(cache) && cache[other] == old(cache)[other]
      ensures forall other :: other in old(cache) && old(cache)[other].expires > mono && other != key ==> other in cache
    {
      hide Inv, ResolvedSession, ResolvedProxy, EntryHolds;
      if |cache| >= CACHE_MAX_ENTRIES {
        cache := map other | other in cache && cache[other].expires > mono :: cache[other];
      }
      var entry := CacheEntry(mono + CACHE_TTL, store.authenticationRevision, authenticated);
      NewEntryHolds(clocks, store.Contents(), key, entry, now, resolved, mono);
      cache := cache[key := entry];
    }

    /** `mono` and `later` are the monotonic readings before resolving and when remembering. */
    method AuthenticateSession(token: Option<Token>, ghost clock: int, now: int, mono: int, later: int) returns (r: Answered)
      requires Valid(clock) && clock <= now && InStep(clocks, now, mono) && mono <= later <= mono + clocks.delay
      modifies `cache
      ensures Valid(now)
      ensures r.Allowed? ==> token.Some? && IsRight(clocks, store.Contents(), SessionKey(token.value), now, r.authenticated)
      ensures r.Denied? && token.Some? ==> StoreAnswer(store.Contents(), SessionKey(token.value), now) == None
    {
      hide Inv, CacheHolds, ResolvedSession, IsRight;
      if token.None? {
        TimePasses(clocks, store.Contents(), cache, clock, now);
        return Denied(NotAuthenticated);
      }
      var key := SessionKey(token.value);
      var cached := Cached(key, clock, now, mono);
      if cached.Some? {
        return Allowed(cached.value);
      }
      var resolved := store.ResolveSession(token.value, now);
      if resolved.None? {
        return Denied(NotAuthenticated);
      }
      AnswerIsRight(clocks, store.Contents(), key, now, resolved.value);
      Remember(key, resolved.value, now, mono, later);
      return Allowed(resolved.value);
    }

    /** `username` is the canonical form of the proxy's header, which is also the subject.  An
        unknown subject may be provisioned, which is the only change of the store. */
    method AuthenticateProxy(username: Text, displayName: Option<Text>, email: Option<Text>, freshId: UserId,
                             ghost clock: int, now: int, mono: int, later: int)
      returns (r: Answered)
      requires Valid(clock) && clock <= now && InStep(clocks, now, mono) && mono <= later <= mono + clocks.delay
      requires store.rules.canonical(username) == Some(username) && Trimmed(username)
      modifies this, store
      ensures Valid(now)
      ensures r.Allowed? ==> IsRight(clocks, store.Contents(), ProxyKey(username), now, r.authenticated)
      ensures r == Denied(Disabled) || r == Denied(NotProvisioned) ==> ResolvedProxy(store.Contents(), username) == None
      ensures var op := ProvisionOf(username, displayName, email, freshId, defaultRole);
              if r.Denied? && r.refusal.Raised? then
                && Applied(store.rules, old(store.Contents()), op, now) == Refused(r.refusal.error)
                && store.Contents() == old(store.Contents()) && ResolvedProxy(store.Contents(), username) == None
              else
                || store.Contents() == old(store.Contents())
                || Applied(store.rules, old(store.Contents()), op, now) == Done(store.Contents())
    {
      hide Inv, CacheHolds, ResolvedSession, IsRight, Created;
      var key := ProxyKey(username);
      var cached := Cached(key, clock, now, mono);
      if cached.Some? {
        return Allowed(cached.value);
      }
      var id := store.ResolveExternalIdentity(TrustedProxy, username);
      if id.None? {
        if !provisions {
          return Denied(NotProvisioned);
        }
        ghost var before := store.Contents();
        var op := ProvisionOf(username, displayName, email, freshId, defaultRole);
        var error := store.AddUser(op.id, op.username, op.displayName, op.email, op.password, op.external, op.roles);
        OperationsKeepInvariant(store.rules, before, op, now);
        OperationsKeepCache(clocks, store.rules, before, cache, now, op, now);
        if error.Some? {
          return Denied(Raised(error.value));
        }
        ProvisionedIsLinked(store.rules, before, op, username);
        id := store.ResolveExternalIdentity(TrustedProxy, username);
      }
      var account := store.users[id.value];
      if !account.isActive {
        return Denied(Disabled);
      }
      var principal := Principal(id.value, account.username, account.displayName, account.email, TrustedProxy);
      var roles := store.RolesForUser(id.value);
      var authenticated := Authenticated(principal, roles, None);
      AnswerIsRight(clocks, store.Contents(), key, now, authenticated);
      Remember(key, authenticated, now, mono, later);
      return Allowed(authenticated);
    }
  }

  /** The account a proxy identity is provisioned with. */
  function ProvisionOf(username: Text, displayName: Option<Text>, email: Option<Text>, id: UserId, role: Text): (op: Op)
    ensures op.CreateUser?
  {
    CreateUser(id, username, displayName, email, None, Some((TrustedProxy, username)), [role])
  }

  lemma ProvisionedIsLinked(rules: Rules, t: Tables, op: Op, username: Text)
    requires op.CreateUser? && op.external == Some((TrustedProxy, username)) && Trimmed(username)
    requires rules.canonical(op.username) == Some(username) && Created(rules, t, op).Done?
    ensures var t' := Created(rules, t, op).tables;
            && (TrustedProxy, username) in t'.externals && t'.externals[(TrustedProxy, username)] == op.id && op.id in t'.users
  {
    hide AssignRoles, CleanOptional, IsUsernameTaken, Strip;
    StripPadded([], username, []);
    assert [] + username + [] == username;
    var user := User(username, CleanOptional(op.displayName), CleanOptional(op.email), true);
    var t1 := WithExternal(t.(users := t.users[op.id := user]), op.id, username, op.external).tables;
    RolesAreAdded(WithPassword(rules, t1, op.id, op.password).tables, op.id, op.roles);
  }

  lemma FreshEntryIsRight(c: Clocks, t: Tables, key: CacheKey, entry: CacheEntry, now: int, mono: int)
    requires Inv(t) && EntryHolds(c, t, key, entry, now) && entry.revision == t.revision
    requires mono < entry.expires && InStep(c, now, mono)
    ensures IsRight(c, t, key, now, entry.authenticated)
  {
    hide Inv;
  }

  lemma NewEntryHolds(c: Clocks, t: Tables, key: CacheKey, entry: CacheEntry, now: int, resolved: int, mono: int)
    requires Inv(t) && StoreAnswer(t, key, now) == Some(entry.authenticated)
    requires InStep(c, now, resolved) && resolved <= mono <= resolved + c.delay
    requires entry.expires == mono + CACHE_TTL && entry.revision == t.revision
    ensures EntryHolds(c, t, key, entry, now)
  {
    hide ReferencesHold, SlotsHold, AuditHolds, RolesOf, PrincipalOf;
  }

  lemma AnswerIsRight(c: Clocks, t: Tables, key: CacheKey, now: int, authenticated: Authenticated)
    requires StoreAnswer(t, key, now) == Some(authenticated)
    ensures IsRight(c, t, key, now, authenticated)
  {
  }

  // ------------------------------------------------------------------------------------------
  // Every sequential run

  datatype System = System(tables: Tables, cache: map<CacheKey, CacheEntry>, clock: int)

  /** An operation of the store, provisioning included, or a request for an identity. */
  datatype Call = Operate(op: Op) | Ask(key: CacheKey)

  /** The wall clock of a call, and the monotonic one before resolving and when remembering. */
  datatype Times = Times(now: int, mono: int, later: int)

  predicate IsHit(s: System, key: CacheKey, mono: int) {
    key in s.cache && mono < s.cache[key].expires && s.cache[key].revision == s.tables.revision
  }

  /** The cache after `Remember`. */
  function Remembered(s: System, key: CacheKey, authenticated: Authenticated, mono: int): map<CacheKey, CacheEntry> {
    var rest := s.cache - {key};
    var kept := if |rest| >= CACHE_MAX_ENTRIES then map other | other in rest && rest[other].expires > mono :: rest[other] else rest;
    kept[key := CacheEntry(mono + CACHE_TTL, s.tables.revision, authenticated)]
  }

  /** What a request is answered, from the cache or from the store. */
  function AnswerTo(s: System, key: CacheKey, now: int, mono: int): Option<Authenticated> {
    if IsHit(s, key, mono) then Some(s.cache[key].authenticated) else StoreAnswer(s.tables, key, now)
  }

  ghost function Advanced(rules: Rules, s: System, call: Call, at: Times): System {
    match call
    case Operate(op) => System(After(rules, s.tables, op, at.now), s.cache, at.now)
    case Ask(key) =>
      var answer := StoreAnswer(s.tables, key, at.now);
      if IsHit(s, key, at.mono) then s.(clock := at.now)
      else if answer.Some? then System(s.tables, Remembered(s, key, answer.value, at.later), at.now)
      else System(s.tables, s.cache - {key}, at.now)
  }

  ghost predicate IsRun(c: Clocks, rules: Rules, ss: seq<System>, calls: seq<Call>, times: seq<Times>) {
    && |ss| == |calls| + 1 && |times| == |calls| && ss[0].tables == NoAccounts && ss[0].cache == map[]
    && forall k :: 0 <= k < |calls| ==>
      && ss[k].clock <= times[k].now && InStep(c, times[k].now, times[k].mono)
      && times[k].mono <= times[k].later <= times[k].mono + c.delay
      && (calls[k].Operate? ==> IsFreshFor(ss[k].tables, calls[k].op))
      && ss[k + 1] == Advanced(rules, ss[k], calls[k], times[k])
  }

  lemma RememberedEntries(s: System, key: CacheKey, authenticated: Authenticated, mono: int)
    ensures forall other :: other in Remembered(s, key, authenticated, mono) ==>
              var entry := Remembered(s, key, authenticated, mono)[other];
              if other == key then entry == CacheEntry(mono + CACHE_TTL, s.tables.revision, authenticated)
              else other in s.cache && entry == s.cache[other]
  {
  }

  lemma AskKeeps(c: Clocks, rules: Rules, s: System, key: CacheKey, at: Times)
    requires Inv(s.tables) && CacheHolds(c, s.tables, s.cache, s.clock) && s.clock <= at.now
    requires InStep(c, at.now, at.mono) && at.mono <= at.later <= at.mono + c.delay
    ensures CacheHolds(c, s.tables, Advanced(rules, s, Ask(key), at).cache, at.now)
  {
    hide Inv, EntryHolds, StoreAnswer, Remembered, IsHit;
    TimePasses(c, s.tables, s.cache, s.clock, at.now);
    var answer := StoreAnswer(s.tables, key, at.now);
    if !IsHit(s, key, at.mono) && answer.Some? {
      RememberedEntries(s, key, answer.value, at.later);
      var entry := CacheEntry(at.later + CACHE_TTL, s.tables.revision, answer.value);
      NewEntryHolds(c, s.tables, key, entry, at.now, at.mono, at.later);
    }
  }

  lemma {:induction false} RunsKeepCache(c: Clocks, rules: Rules, ss: seq<System>, calls: seq<Call>, times: seq<Times>, k: nat)
    requires IsRun(c, rules, ss, calls, times) && k < |ss|
    ensures Inv(ss[k].tables) && CacheHolds(c, ss[k].tables, ss[k].cache, ss[k].clock)
  {
    hide Inv, CacheHolds, After, StoreAnswer, Remembered;
    if k == 0 {
      NoAccountsHold();
      NothingCached(c, ss[0].tables, ss[0].clock);
    } else {
      var s, at := ss[k - 1], times[k - 1];
      RunsKeepCache(c, rules, ss, calls, times, k - 1);
      match calls[k - 1]
      case Operate(op) =>
        OperationsKeepInvariant(rules, s.tables, op, at.now);
        OperationsKeepCache(c, rules, s.tables, s.cache, s.clock, op, at.now);
      case Ask(key) =>
        AskKeeps(c, rules, s, key, at);
    }
  }

  lemma NothingCached(c: Clocks, t: Tables, clock: int)
    ensures CacheHolds(c, t, map[], clock)
  {
  }

  /** In every run: whoever is served is who the store would serve now, except for a session that
      expired less than five seconds ago, and as long as the clocks drift apart and remembering
      takes; and nobody the store would serve is refused. */
  lemma ServedIdentitiesAreRight(c: Clocks, rules: Rules, ss: seq<System>, calls: seq<Call>, times: seq<Times>, k: nat, key: CacheKey, now: int, mono: int)
    requires IsRun(c, rules, ss, calls, times) && k < |ss| && ss[k].clock <= now && InStep(c, now, mono)
    ensures var s, answer := ss[k], AnswerTo(ss[k], key, now, mono);
            && (answer.Some? ==> IsRight(c, s.tables, key, now, answer.value))
            && (answer.None? ==> StoreAnswer(s.tables, key, now) == None)
  {
    hide Inv, EntryHolds, StoreAnswer, IsRight;
    RunsKeepCache(c, rules, ss, calls, times, k);
    var s := ss[k];
    TimePasses(c, s.tables, s.cache, s.clock, now);
    if IsHit(s, key, mono) {
      FreshEntryIsRight(c, s.tables, key, s.cache[key], now, mono);
    } else if StoreAnswer(s.tables, key, now).Some? {
      AnswerIsRight(c, s.tables, key, now, StoreAnswer(s.tables, key, now).value);
    }
  }

  // ------------------------------------------------------------------------------------------
  // What is served, told from the operations of the run

  /** The operations among the first `k` calls. */
  function EventsOf(calls: seq<Call>, times: seq<Times>, k: nat): seq<Event>
    requires k <= |calls| && |times| == |calls|
  {
    if k == 0 then []
    else
      EventsOf(calls, times, k - 1)
      + if calls[k - 1].Operate? then [Event(calls[k - 1].op, times[k - 1].now)] else []
  }

  function TablesOf(ss: seq<System>, calls: seq<Call>, k: nat): seq<Tables>
    requires k <= |calls| && |ss| == |calls| + 1
  {
    if k == 0 then [ss[0].tables]
    else TablesOf(ss, calls, k - 1) + if calls[k - 1].Operate? then [ss[k].tables] else []
  }

  /** The operations of a run are a history of the accounts. */
  lemma {:induction false} RunsAreHistories(c: Clocks, rules: Rules, ss: seq<System>, calls: seq<Call>, times: seq<Times>, k: nat)
    requires IsRun(c, rules, ss, calls, times) && k < |ss|
    ensures var ts, events := TablesOf(ss, calls, k), EventsOf(calls, times, k);
            IsHistory(rules, ts, events) && ts[|events|] == ss[k].tables
  {
    hide After, StoreAnswer, Remembered;
    if k > 0 {
      RunsAreHistories(c, rules, ss, calls, times, k - 1);
      if calls[k - 1].Operate? {
        HistoryGoesOn(rules, TablesOf(ss, calls, k - 1), EventsOf(calls, times, k - 1),
                      Event(calls[k - 1].op, times[k - 1].now), ss[k].tables);
      }
    }
  }

  lemma HistoryGoesOn(rules: Rules, ts: seq<Tables>, events: seq<Event>, e: Event, t: Tables)
    requires IsHistory(rules, ts, events) && IsFreshFor(ts[|events|], e.op)
    requires t == After(rules, ts[|events|], e.op, e.now)
    ensures IsHistory(rules, ts + [t], events + [e])
  {
    hide After, IsFreshFor;
  }

  /** The login or the creation that entitles the key's holder to the identity. */
  ghost predicate IsEntitled(rules: Rules, ts: seq<Tables>, events: seq<Event>, key: CacheKey, a: Authenticated, j: nat) {
    match key
    case SessionKey(token) =>
      && IsLoginAt(rules, ts, events, j, token, a.principal.user)
      && a.csrf == Some(events[j].op.csrf) && a.principal.source == Password
    case ProxyKey(subject) =>
      && IsLinkedAt(rules, ts, events, j, a.principal.user, TrustedProxy, subject)
      && a.csrf == None && a.principal.source == TrustedProxy
  }

  lemma RightIsEntitled(c: Clocks, rules: Rules, ts: seq<Tables>, events: seq<Event>, key: CacheKey, now: int, a: Authenticated) returns (j: nat)
    requires IsHistory(rules, ts, events) && IsRight(c, ts[|events|], key, now, a)
    ensures IsIdentity(rules, ts, events, |events|, a) && j < |events| && IsEntitled(rules, ts, events, key, a, j)
  {
    hide After, IsLoginAt, IsLinkedAt, IsIdentity, RolesOf, ResolvedSession, ResolvedProxy;
    var t, k := ts[|events|], |events|;
    match key
    case ProxyKey(subject) =>
      j := ProxiesServeTheirUser(rules, ts, events, k, subject);
    case SessionKey(token) =>
      if StoreAnswer(t, key, now) == Some(a) {
        j := SessionsServeTheirUser(rules, ts, events, k, token, now);
      } else {
        j := IssuedByLogin(rules, ts, events, k, token);
        RowIsIdentity(rules, ts, events, k, t.issued[token].user, Password, a.csrf);
      }
  }

  /** In every run, cached or not: who is served a session is the user who logged in for it, and
      who is served for a proxy's subject is the user created with it; with the profile last set
      and exactly the roles last given by the operations of the run. */
  lemma ServedAsOperated(c: Clocks, rules: Rules, ss: seq<System>, calls: seq<Call>, times: seq<Times>, k: nat, key: CacheKey, now: int, mono: int)
    requires IsRun(c, rules, ss, calls, times) && k < |ss| && ss[k].clock <= now && InStep(c, now, mono)
    requires AnswerTo(ss[k], key, now, mono).Some?
    ensures var ts, events, a := TablesOf(ss, calls, k), EventsOf(calls, times, k), AnswerTo(ss[k], key, now, mono).value;
            && IsIdentity(rules, ts, events, |events|, a)
            && exists j :: 0 <= j < |events| && IsEntitled(rules, ts, events, key, a, j)
  {
    hide After, Advanced, IsRight, IsIdentity, IsEntitled, AnswerTo, TablesOf, EventsOf;
    RunsAreHistories(c, rules, ss, calls, times, k);
    ServedIdentitiesAreRight(c, rules, ss, calls, times, k, key, now, mono);
    var j := RightIsEntitled(c, rules, TablesOf(ss, calls, k), EventsOf(calls, times, k), key, now, AnswerTo(ss[k], key, now, mono).value);
  }
}
