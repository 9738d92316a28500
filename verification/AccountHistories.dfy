/** What a served identity contains, told from the operations that succeeded before
    (src/sqltide/auth/classes/control_store.py). */
module AccountHistories {
  import opened Chars
  import opened Accounts
  import opened AccountInvariants

  // ------------------------------------------------------------------------------------------
  // What an operation says about a user

  predicate Creates(op: Op, user: UserId) {
    op.CreateUser? && op.id == user
  }

  predicate GivesRole(op: Op, user: UserId, role: Text) {
    (op.GrantRole? && op.id == user && op.role == role) || (Creates(op, user) && role in op.roles)
  }

  predicate TakesRole(op: Op, user: UserId, role: Text) {
    op.RevokeRole? && op.id == user && op.role == role
  }

  predicate SetsProfile(op: Op, user: UserId) {
    (op.CreateUser? || op.UpdateProfile? || op.UpdateAccount?) && op.id == user
  }

  predicate SetsActivity(op: Op, user: UserId) {
    (op.CreateUser? || op.SetActive? || op.UpdateAccount?) && op.id == user
  }

  predicate MakesActive(op: Op)
    requires op.CreateUser? || op.SetActive? || op.UpdateAccount?
  {
    op.CreateUser? || op.isActive
  }

  /** The session of `user` under `token` is over. */
  predicate EndsSession(op: Op, now: int, token: Token, user: UserId, expires: int) {
    match op
    case RevokeSession(other) => other == token
    case SetActive(id, isActive) => id == user && !isActive
    case UpdateAccount(id, _, _, isActive) => id == user && !isActive
    case ResetPassword(id, _) => id == user
    case PruneSessions => expires <= now
    case _ => false
  }

  /** The given text without the white space around it, or nothing if that is all there is. */
  ghost predicate IsCleaned(given: Option<Text>, kept: Option<Text>) {
    if kept.None? then given.None? || AllSpace(given.value)
    else
      && given.Some? && kept.value != [] && Trimmed(kept.value)
      && exists left, right :: AllSpace(left) && AllSpace(right) && given.value == left + kept.value + right
  }

  lemma CleaningCleans(given: Option<Text>)
    ensures IsCleaned(given, CleanOptional(given))
  {
    hide Strip, Trimmed;
    if given.Some? {
      var left, right := StripSplits(given.value);
      hide AllSpace;
      if Strip(given.value) == [] {
        assert given.value == left + right;
        BothSpace(left, right);
      }
    }
  }

  lemma BothSpace(left: Text, right: Text)
    requires AllSpace(left) && AllSpace(right)
    ensures AllSpace(left + right)
  {
  }

  // ------------------------------------------------------------------------------------------
  // One operation

  lemma {:induction false} RolesGiven(t: Tables, id: UserId, roles: seq<Text>)
    requires AssignRoles(t, id, roles).Done?
    ensures forall user, role :: (user, role) in AssignRoles(t, id, roles).tables.userRoles
                            <==> (user, role) in t.userRoles || (user == id && role in roles)
  {
    hide IsKnownRole;
    if roles != [] {
      var n := |roles| - 1;
      RolesGiven(t, id, roles[..n]);
      assert roles == roles[..n] + [roles[n]];
    }
  }

  /** The row and the roles of a new user. */
  lemma CreatedRow(rules: Rules, t: Tables, op: Op)
    requires op.CreateUser? && Created(rules, t, op).Done?
    ensures var t' := Created(rules, t, op).tables;
            && op.id in t'.users && rules.canonical(op.username) == Some(t'.users[op.id].username)
            && t'.users[op.id].displayName == CleanOptional(op.displayName)
            && t'.users[op.id].email == CleanOptional(op.email)
            && forall user, role :: (user, role) in t'.userRoles <==> (user, role) in t.userRoles || (user == op.id && role in op.roles)
  {
    hide AssignRoles, CleanOptional, IsUsernameTaken, SubjectOf;
    var name := rules.canonical(op.username).value;
    var user := User(name, CleanOptional(op.displayName), CleanOptional(op.email), true);
    var t1 := WithExternal(SetUser(t, op.id, user), op.id, name, op.external).tables;
    var t2 := WithPassword(rules, t1, op.id, op.password).tables;
    IdentityShape(rules, t, op.id, name, user, op.external, op.password);
    RolesAreAdded(t2, op.id, op.roles);
    RolesGiven(t2, op.id, op.roles);
  }

  /** Operations on other pairs, and failed ones, leave a role where it is. */
  lemma RoleAfter(rules: Rules, t: Tables, op: Op, now: int, user: UserId, role: Text)
    ensures (user, role) in After(rules, t, op, now).userRoles <==>
            if Applied(rules, t, op, now).Done? && GivesRole(op, user, role) then true
            else if Applied(rules, t, op, now).Done? && TakesRole(op, user, role) then false
            else (user, role) in t.userRoles
  {
    hide Created, LoginUser, CleanOptional, IsLastAdmin, IsKnownRole, AssignmentName, IsSlotTaken;
    if op.CreateUser? && Created(rules, t, op).Done? {
      CreatedRow(rules, t, op);
    }
  }

  /** What is known of one user's row after an operation. */
  ghost predicate RowFollows(rules: Rules, t: Tables, t': Tables, op: Op, user: UserId) {
    && (user in t'.users <==> user in t.users || Creates(op, user))
    && (user in t'.users ==>
          var row' := t'.users[user];
          && (if Creates(op, user) then rules.canonical(op.username) == Some(row'.username)
              else row'.username == t.users[user].username)
          && (if SetsProfile(op, user) then row'.displayName == CleanOptional(op.displayName) && row'.email == CleanOptional(op.email)
              else row'.displayName == t.users[user].displayName && row'.email == t.users[user].email)
          && (row'.isActive <==> if SetsActivity(op, user) then MakesActive(op) else t.users[user].isActive))
  }

  /** Only four operations change a row. */
  lemma RowsStay(rules: Rules, t: Tables, op: Op, now: int)
    requires !op.CreateUser? && !op.SetActive? && !op.UpdateProfile? && !op.UpdateAccount?
    ensures After(rules, t, op, now).users == t.users
  {
    hide LoginUser, IsLastAdmin, IsKnownRole, AssignmentName, IsSlotTaken;
  }

  lemma ActivityRows(t: Tables, id: UserId, user: User)
    ensures WithActivity(t, id, user).users == t.users[id := user]
  {
  }

  lemma CreatedFollows(rules: Rules, t: Tables, op: Op, user: UserId)
    requires op.CreateUser? && Created(rules, t, op).Done?
    ensures RowFollows(rules, t, Created(rules, t, op).tables, op, user)
  {
    hide Created, CleanOptional;
    CreationShape(rules, t, op);
    CreatedRow(rules, t, op);
  }

  lemma RowAfter(rules: Rules, t: Tables, op: Op, now: int, user: UserId)
    requires Applied(rules, t, op, now).Done?
    ensures RowFollows(rules, t, After(rules, t, op, now), op, user)
  {
    hide Created, LoggedIn, CleanOptional, IsLastAdmin, WithActivity, ProjectRoleGrantedBy, ProjectRoleRevokedBy;
    hide RoleGrantedBy, RoleRevokedBy, PasswordSet, Pruned, SessionRevokedBy;
    match op
    case CreateUser(_, _, _, _, _, _, _) => CreatedFollows(rules, t, op, user);
    case SetActive(id, isActive) => ActivityRows(t, id, t.users[id].(isActive := isActive));
    case UpdateAccount(id, displayName, email, isActive) =>
      ActivityRows(t, id, t.users[id].(
        displayName := CleanOptional(displayName), email := CleanOptional(email), isActive := isActive));
    case UpdateProfile(_, _, _) =>
    case _ => RowsStay(rules, t, op, now);
  }

  // ------------------------------------------------------------------------------------------
  // Roles over a history

  ghost predicate Succeeded(rules: Rules, ts: seq<Tables>, events: seq<Event>, j: nat) {
    j < |events| && j < |ts| && Applied(rules, ts[j], events[j].op, events[j].now).Done?
  }

  ghost predicate ConcernsRole(rules: Rules, ts: seq<Tables>, events: seq<Event>, j: nat, user: UserId, role: Text) {
    Succeeded(rules, ts, events, j) && (GivesRole(events[j].op, user, role) || TakesRole(events[j].op, user, role))
  }

  /** The last successful operation on the role of the user, among the first `k`, gave it. */
  ghost predicate HoldsRole(rules: Rules, ts: seq<Tables>, events: seq<Event>, user: UserId, role: Text, k: nat) {
    exists j: nat ::
      && j < k && ConcernsRole(rules, ts, events, j, user, role) && GivesRole(events[j].op, user, role)
      && forall i :: j < i < k ==> !ConcernsRole(rules, ts, events, i, user, role)
  }

  lemma {:induction false} RolesAreLastGiven(rules: Rules, ts: seq<Tables>, events: seq<Event>, user: UserId, role: Text, k: nat)
    requires IsHistory(rules, ts, events) && k < |ts|
    ensures (user, role) in ts[k].userRoles <==> HoldsRole(rules, ts, events, user, role, k)
  {
    hide Applied, GivesRole, TakesRole;
    if k > 0 {
      var n := k - 1;
      RolesAreLastGiven(rules, ts, events, user, role, n);
      RoleAfter(rules, ts[n], events[n].op, events[n].now, user, role);
      OneOrOther(events[n].op, user, role);
      if !ConcernsRole(rules, ts, events, n, user, role) {
        if HoldsRole(rules, ts, events, user, role, n) {
          var j: nat :|
            && j < n && ConcernsRole(rules, ts, events, j, user, role) && GivesRole(events[j].op, user, role)
            && forall i :: j < i < n ==> !ConcernsRole(rules, ts, events, i, user, role);
          assert j < k;
        }
      }
    }
  }

  lemma OneOrOther(op: Op, user: UserId, role: Text)
    ensures !(GivesRole(op, user, role) && TakesRole(op, user, role))
  {
  }

  // ------------------------------------------------------------------------------------------
  // Rows over a history

  ghost predicate SetsProfileAt(rules: Rules, ts: seq<Tables>, events: seq<Event>, j: nat, user: UserId) {
    Succeeded(rules, ts, events, j) && SetsProfile(events[j].op, user)
  }

  /** The profile is the one last set, among the first `k` operations. */
  ghost predicate IsProfile(rules: Rules, ts: seq<Tables>, events: seq<Event>, user: UserId, displayName: Option<Text>, email: Option<Text>, k: nat) {
    exists j: nat ::
      && j < k && SetsProfileAt(rules, ts, events, j, user)
      && IsCleaned(events[j].op.displayName, displayName) && IsCleaned(events[j].op.email, email)
      && forall i :: j < i < k ==> !SetsProfileAt(rules, ts, events, i, user)
  }

  ghost predicate CreatesAt(rules: Rules, ts: seq<Tables>, events: seq<Event>, j: nat, user: UserId) {
    Succeeded(rules, ts, events, j) && Creates(events[j].op, user)
  }

  /** The user was created under this name. */
  ghost predicate IsNamed(rules: Rules, ts: seq<Tables>, events: seq<Event>, user: UserId, username: Text, k: nat) {
    exists j: nat :: j < k && CreatesAt(rules, ts, events, j, user) && rules.canonical(events[j].op.username) == Some(username)
  }

  ghost predicate SetsActivityAt(rules: Rules, ts: seq<Tables>, events: seq<Event>, j: nat, user: UserId) {
    Succeeded(rules, ts, events, j) && SetsActivity(events[j].op, user)
  }

  ghost predicate IsActive(rules: Rules, ts: seq<Tables>, events: seq<Event>, user: UserId, k: nat) {
    exists j: nat ::
      && j < k && SetsActivityAt(rules, ts, events, j, user) && MakesActive(events[j].op)
      && forall i :: j < i < k ==> !SetsActivityAt(rules, ts, events, i, user)
  }

  lemma ProfileSetNow(rules: Rules, ts: seq<Tables>, events: seq<Event>, user: UserId, n: nat, row: User)
    requires SetsProfileAt(rules, ts, events, n, user)
    requires row.displayName == CleanOptional(events[n].op.displayName) && row.email == CleanOptional(events[n].op.email)
    ensures IsProfile(rules, ts, events, user, row.displayName, row.email, n + 1)
  {
    hide Applied, CleanOptional, IsCleaned;
    CleaningCleans(events[n].op.displayName);
    CleaningCleans(events[n].op.email);
  }

  lemma ProfileGoesOn(rules: Rules, ts: seq<Tables>, events: seq<Event>, user: UserId, displayName: Option<Text>, email: Option<Text>, n: nat)
    requires IsProfile(rules, ts, events, user, displayName, email, n) && !SetsProfileAt(rules, ts, events, n, user)
    ensures IsProfile(rules, ts, events, user, displayName, email, n + 1)
  {
    hide Applied, IsCleaned;
    var j: nat :|
      && j < n && SetsProfileAt(rules, ts, events, j, user)
      && IsCleaned(events[j].op.displayName, displayName) && IsCleaned(events[j].op.email, email)
      && forall i :: j < i < n ==> !SetsProfileAt(rules, ts, events, i, user);
    assert j < n + 1;
  }

  lemma {:induction false} ProfilesAreLastSet(rules: Rules, ts: seq<Tables>, events: seq<Event>, user: UserId, k: nat)
    requires IsHistory(rules, ts, events) && k < |ts| && user in ts[k].users
    ensures IsProfile(rules, ts, events, user, ts[k].users[user].displayName, ts[k].users[user].email, k)
  {
    hide Applied, CleanOptional, IsProfile;
    var n := k - 1;
    if Succeeded(rules, ts, events, n) {
      RowAfter(rules, ts[n], events[n].op, events[n].now, user);
    }
    if SetsProfileAt(rules, ts, events, n, user) {
      ProfileSetNow(rules, ts, events, user, n, ts[k].users[user]);
    } else {
      ProfilesAreLastSet(rules, ts, events, user, n);
      ProfileGoesOn(rules, ts, events, user, ts[k].users[user].displayName, ts[k].users[user].email, n);
    }
  }

  lemma {:induction false} NamesAreGiven(rules: Rules, ts: seq<Tables>, events: seq<Event>, user: UserId, k: nat)
    requires IsHistory(rules, ts, events) && k < |ts| && user in ts[k].users
    ensures IsNamed(rules, ts, events, user, ts[k].users[user].username, k)
  {
    hide Applied, CleanOptional;
    var n := k - 1;
    if CreatesAt(rules, ts, events, n, user) {
      RowAfter(rules, ts[n], events[n].op, events[n].now, user);
    } else {
      if Succeeded(rules, ts, events, n) {
        RowAfter(rules, ts[n], events[n].op, events[n].now, user);
      }
      NamesAreGiven(rules, ts, events, user, n);
      var j: nat :| j < n && CreatesAt(rules, ts, events, j, user)
                    && rules.canonical(events[j].op.username) == Some(ts[k].users[user].username);
      assert j < k;
    }
  }

  lemma {:induction false} ActivityIsLastSet(rules: Rules, ts: seq<Tables>, events: seq<Event>, user: UserId, k: nat)
    requires IsHistory(rules, ts, events) && k < |ts|
    ensures user in ts[k].users && ts[k].users[user].isActive <==> IsActive(rules, ts, events, user, k)
  {
    hide Applied, CleanOptional;
    if k > 0 {
      var n := k - 1;
      ActivityIsLastSet(rules, ts, events, user, n);
      if Succeeded(rules, ts, events, n) {
        RowAfter(rules, ts[n], events[n].op, events[n].now, user);
        if SetsActivity(events[n].op, user) {
          ActivityNeedsUser(rules, ts[n], events[n].op, events[n].now, user);
        }
      }
      if !SetsActivityAt(rules, ts, events, n, user) && IsActive(rules, ts, events, user, n) {
        var j: nat :|
          && j < n && SetsActivityAt(rules, ts, events, j, user) && MakesActive(events[j].op)
          && forall i :: j < i < n ==> !SetsActivityAt(rules, ts, events, i, user);
        assert j < k;
      }
    }
  }

  lemma ActivityNeedsUser(rules: Rules, t: Tables, op: Op, now: int, user: UserId)
    requires Applied(rules, t, op, now).Done? && SetsActivity(op, user)
    ensures user in After(rules, t, op, now).users
  {
    hide Created, CleanOptional, IsLastAdmin, WithActivity, LoggedIn, ProjectRoleGrantedBy, ProjectRoleRevokedBy;
    hide RoleGrantedBy, RoleRevokedBy, PasswordSet, Pruned, SessionRevokedBy, ProfileSet;
    match op
    case CreateUser(_, _, _, _, _, _, _) => CreatedRow(rules, t, op);
    case SetActive(id, isActive) => ActivityRows(t, id, t.users[id].(isActive := isActive));
    case UpdateAccount(id, displayName, email, isActive) =>
      ActivityRows(t, id, t.users[id].(
        displayName := CleanOptional(displayName), email := CleanOptional(email), isActive := isActive));
  }

  // ------------------------------------------------------------------------------------------
  // Who can log in

  predicate SetsPassword(op: Op, user: UserId) {
    (op.ResetPassword? && op.id == user) || (Creates(op, user) && op.password.Some?)
  }

  function PasswordOf(op: Op): Text
    requires op.ResetPassword? || (op.CreateUser? && op.password.Some?)
  {
    if op.ResetPassword? then op.secret else op.password.value
  }

  ghost predicate SetsPasswordAt(rules: Rules, ts: seq<Tables>, events: seq<Event>, j: nat, user: UserId) {
    Succeeded(rules, ts, events, j) && SetsPassword(events[j].op, user)
  }

  /** The password last set for the user, among the first `k` operations. */
  ghost predicate HasPassword(rules: Rules, ts: seq<Tables>, events: seq<Event>, user: UserId, secret: Text, k: nat) {
    exists j: nat ::
      && j < k && SetsPasswordAt(rules, ts, events, j, user) && PasswordOf(events[j].op) == secret
      && forall i :: j < i < k ==> !SetsPasswordAt(rules, ts, events, i, user)
  }

  lemma CreatedCredential(rules: Rules, t: Tables, op: Op)
    requires op.CreateUser? && Created(rules, t, op).Done?
    ensures Created(rules, t, op).tables.credentials == if op.password.Some? then t.credentials[op.id := op.password.value] else t.credentials
  {
    hide CleanOptional, SubjectOf, AssignRoles, IsUsernameTaken;
    var name := rules.canonical(op.username).value;
    var user := User(name, CleanOptional(op.displayName), CleanOptional(op.email), true);
    var t1 := WithExternal(SetUser(t, op.id, user), op.id, name, op.external).tables;
    RolesAreAdded(WithPassword(rules, t1, op.id, op.password).tables, op.id, op.roles);
  }

  lemma ActivityCredentials(t: Tables, id: UserId, user: User)
    ensures WithActivity(t, id, user).credentials == t.credentials
  {
  }

  lemma CredentialsStay(rules: Rules, t: Tables, op: Op, now: int)
    requires !op.CreateUser? && !op.ResetPassword?
    ensures After(rules, t, op, now).credentials == t.credentials
  {
    hide LoginUser, CleanOptional, IsLastAdmin, IsKnownRole, AssignmentName, IsSlotTaken, WithActivity;
    match op
    case SetActive(id, isActive) =>
      if id in t.users {
        ActivityCredentials(t, id, t.users[id].(isActive := isActive));
      }
    case UpdateAccount(id, displayName, email, isActive) =>
      if id in t.users {
        ActivityCredentials(t, id, t.users[id].(
          displayName := CleanOptional(displayName), email := CleanOptional(email), isActive := isActive));
      }
    case _ =>
  }

  lemma CredentialAfter(rules: Rules, t: Tables, op: Op, now: int, user: UserId)
    ensures var t' := After(rules, t, op, now);
            if Applied(rules, t, op, now).Done? && SetsPassword(op, user) then
              user in t'.credentials && t'.credentials[user] == PasswordOf(op)
            else (user in t'.credentials <==> user in t.credentials)
                 && (user in t.credentials ==> t'.credentials[user] == t.credentials[user])
  {
    hide Created;
    if op.CreateUser? {
      if Created(rules, t, op).Done? {
        CreatedCredential(rules, t, op);
      }
    } else if !op.ResetPassword? {
      CredentialsStay(rules, t, op, now);
    }
  }

  lemma {:induction false} PasswordsAreLastSet(rules: Rules, ts: seq<Tables>, events: seq<Event>, user: UserId, secret: Text, k: nat)
    requires IsHistory(rules, ts, events) && k < |ts|
    ensures user in ts[k].credentials && ts[k].credentials[user] == secret <==> HasPassword(rules, ts, events, user, secret, k)
  {
    hide Applied;
    if k > 0 {
      var n := k - 1;
      PasswordsAreLastSet(rules, ts, events, user, secret, n);
      CredentialAfter(rules, ts[n], events[n].op, events[n].now, user);
      if !SetsPasswordAt(rules, ts, events, n, user) && HasPassword(rules, ts, events, user, secret, n) {
        var j: nat :|
          && j < n && SetsPasswordAt(rules, ts, events, j, user) && PasswordOf(events[j].op) == secret
          && forall i :: j < i < n ==> !SetsPasswordAt(rules, ts, events, i, user);
        assert j < k;
      }
    }
  }

  lemma CreatedOnce(rules: Rules, t: Tables, op: Op, now: int, user: UserId)
    requires Applied(rules, t, op, now).Done? && Creates(op, user)
    ensures user !in t.users
  {
    hide Created;
    CreationShape(rules, t, op);
  }

  lemma {:induction false} NamesStay(rules: Rules, ts: seq<Tables>, events: seq<Event>, user: UserId, j: nat, k: nat)
    requires IsHistory(rules, ts, events) && j < k < |ts| && CreatesAt(rules, ts, events, j, user)
    ensures user in ts[k].users && rules.canonical(events[j].op.username) == Some(ts[k].users[user].username)
    decreases k
  {
    hide Applied, CleanOptional;
    var n := k - 1;
    if j < n {
      NamesStay(rules, ts, events, user, j, n);
      if CreatesAt(rules, ts, events, n, user) {
        CreatedOnce(rules, ts[n], events[n].op, events[n].now, user);
      }
    }
    if Succeeded(rules, ts, events, n) {
      RowAfter(rules, ts[n], events[n].op, events[n].now, user);
    }
  }

  /** In every history: a name and a password log in as a user if and only if the user is active,
      was created under that name and had that password set last. */
  lemma LoginsAreThoseSet(rules: Rules, ts: seq<Tables>, events: seq<Event>, k: nat, username: Text, secret: Text, user: UserId)
    requires IsHistory(rules, ts, events) && k < |ts|
    ensures IsLogin(rules, ts[k], username, secret, user) <==>
            && IsActive(rules, ts, events, user, k) && HasPassword(rules, ts, events, user, secret, k)
            && rules.canonical(username).Some? && IsNamed(rules, ts, events, user, rules.canonical(username).value, k)
  {
    hide After, IsActive, HasPassword;
    ActivityIsLastSet(rules, ts, events, user, k);
    PasswordsAreLastSet(rules, ts, events, user, secret, k);
    if user in ts[k].users {
      NamesAreGiven(rules, ts, events, user, k);
    }
    if rules.canonical(username).Some? && IsNamed(rules, ts, events, user, rules.canonical(username).value, k) {
      var j: nat :| j < k && CreatesAt(rules, ts, events, j, user)
                    && rules.canonical(events[j].op.username) == Some(rules.canonical(username).value);
      NamesStay(rules, ts, events, user, j, k);
    }
  }

  // ------------------------------------------------------------------------------------------
  // Sessions over a history

  /** The login that handed out the token was that of `user`. */
  ghost predicate IsLoginAt(rules: Rules, ts: seq<Tables>, events: seq<Event>, j: nat, token: Token, user: UserId) {
    && j < |events| && j < |ts| && events[j].op.Login? && events[j].op.token == token
    && IsLogin(rules, ts[j], events[j].op.username, events[j].op.secret, user)
  }

  /** The session as it was handed out. */
  function SessionOf(e: Event, user: UserId): Session
    requires e.op.Login?
  {
    Session(user, e.op.csrf, e.now + e.op.ttl, false)
  }

  lemma UniqueLogin(rules: Rules, t: Tables, username: Text, secret: Text, user: UserId)
    requires ReferencesHold(t) && IsLogin(rules, t, username, secret, user)
    ensures LoginUser(rules, t, username, secret) == Some(user)
  {
  }

  /** Only a login issues a session, under a new token. */
  lemma IssuedAfter(rules: Rules, t: Tables, op: Op, now: int)
    requires IsFreshFor(t, op)
    ensures After(rules, t, op, now).issued ==
            if op.Login? && LoginUser(rules, t, op.username, op.secret).Some?
            then t.issued[op.token := Session(LoginUser(rules, t, op.username, op.secret).value, op.csrf, now + op.ttl, false)]
            else t.issued
  {
    hide LoginUser, Created, CleanOptional, IsLastAdmin, IsKnownRole, AssignmentName, IsSlotTaken;
    if op.CreateUser? && Created(rules, t, op).Done? {
      CreationShape(rules, t, op);
    }
  }

  lemma {:induction false} LoginsIssue(rules: Rules, ts: seq<Tables>, events: seq<Event>, j: nat, k: nat, token: Token, user: UserId)
    requires IsHistory(rules, ts, events) && j < k < |ts| && IsLoginAt(rules, ts, events, j, token, user)
    ensures token in ts[k].issued && ts[k].issued[token] == SessionOf(events[j], user)
    decreases k
  {
    hide After, Inv, IsLogin;
    var n := k - 1;
    IssuedAfter(rules, ts[n], events[n].op, events[n].now);
    if j < n {
      LoginsIssue(rules, ts, events, j, n, token, user);
    } else {
      HistoriesHold(rules, ts, events, j);
      InvReferences(ts[j]);
      UniqueLogin(rules, ts[j], events[j].op.username, events[j].op.secret, user);
    }
  }

  lemma InvReferences(t: Tables)
    requires Inv(t)
    ensures ReferencesHold(t) && SessionsHold(t)
  {
    hide ReferencesHold, SessionsHold;
  }

  /** Every session was handed out by a login. */
  lemma {:induction false} IssuedByLogin(rules: Rules, ts: seq<Tables>, events: seq<Event>, k: nat, token: Token) returns (j: nat)
    requires IsHistory(rules, ts, events) && k < |ts| && token in ts[k].issued
    ensures j < k && IsLoginAt(rules, ts, events, j, token, ts[k].issued[token].user)
    ensures ts[k].issued[token] == SessionOf(events[j], ts[k].issued[token].user)
    decreases k
  {
    hide After, IsLogin;
    var n := k - 1;
    IssuedAfter(rules, ts[n], events[n].op, events[n].now);
    if token in ts[n].issued {
      j := IssuedByLogin(rules, ts, events, n, token);
    } else {
      j := n;
    }
  }

  predicate IsLive(t: Tables, token: Token) {
    token in t.sessions && !t.sessions[token].revoked
  }

  lemma LiveAfterActivity(t: Tables, id: UserId, user: User, token: Token)
    requires token in t.issued && (token in t.sessions ==> t.sessions[token].user == t.issued[token].user)
    ensures IsLive(WithActivity(t, id, user), token) <==> IsLive(t, token) && !(t.issued[token].user == id && !user.isActive)
  {
  }

  lemma LiveAfterCreation(rules: Rules, t: Tables, op: Op, token: Token)
    requires op.CreateUser? && Created(rules, t, op).Done?
    ensures IsLive(Created(rules, t, op).tables, token) <==> IsLive(t, token)
  {
    hide Created;
    CreationShape(rules, t, op);
  }

  lemma LiveAfterLogin(rules: Rules, t: Tables, op: Op, now: int, token: Token)
    requires op.Login? && token != op.token
    ensures IsLive(LoggedIn(rules, t, op, now).tables, token) <==> IsLive(t, token)
  {
    hide LoginUser;
  }

  /** A live session lives on unless the operation succeeds and ends it. */
  lemma LiveAfter(rules: Rules, t: Tables, op: Op, now: int, token: Token)
    requires SessionsHold(t) && IsFreshFor(t, op) && token in t.issued
    ensures var session := t.issued[token];
            IsLive(After(rules, t, op, now), token) <==>
            IsLive(t, token) && !(Applied(rules, t, op, now).Done? && EndsSession(op, now, token, session.user, session.expires))
  {
    hide Created, LoggedIn, CleanOptional, IsLastAdmin, WithActivity, ProjectRoleGrantedBy, ProjectRoleRevokedBy;
    hide RoleGrantedBy, RoleRevokedBy, ProfileSet;
    if Applied(rules, t, op, now).Done? {
      match op
      case CreateUser(_, _, _, _, _, _, _) => LiveAfterCreation(rules, t, op, token);
      case Login(_, _, _, _, _) => LiveAfterLogin(rules, t, op, now, token);
      case SetActive(id, isActive) => LiveAfterActivity(t, id, t.users[id].(isActive := isActive), token);
      case UpdateAccount(id, displayName, email, isActive) =>
        LiveAfterActivity(t, id, t.users[id].(
          displayName := CleanOptional(displayName), email := CleanOptional(email), isActive := isActive), token);
      case RevokeSession(_) =>
      case PruneSessions =>
      case ResetPassword(_, _) =>
      case _ => SessionsStay(rules, t, op, now);
    }
  }

  lemma SessionsStay(rules: Rules, t: Tables, op: Op, now: int)
    requires op.UpdateProfile? || op.GrantRole? || op.RevokeRole? || op.GrantProjectRole? || op.RevokeProjectRole?
    ensures After(rules, t, op, now).sessions == t.sessions
  {
    hide CleanOptional, IsLastAdmin, IsKnownRole, AssignmentName, IsSlotTaken;
  }

  ghost predicate EndsSessionAt(rules: Rules, ts: seq<Tables>, events: seq<Event>, i: nat, token: Token, user: UserId, expires: int) {
    Succeeded(rules, ts, events, i) && EndsSession(events[i].op, events[i].now, token, user, expires)
  }

  lemma {:induction false} LiveUntilEnded(rules: Rules, ts: seq<Tables>, events: seq<Event>, j: nat, k: nat, token: Token, user: UserId)
    requires IsHistory(rules, ts, events) && j < k < |ts| && IsLoginAt(rules, ts, events, j, token, user)
    ensures var expires := SessionOf(events[j], user).expires;
            IsLive(ts[k], token) <==> forall i :: j < i < k ==> !EndsSessionAt(rules, ts, events, i, token, user, expires)
    decreases k
  {
    hide After, Inv, IsLogin, IsLive, EndsSession, Applied;
    var n := k - 1;
    HistoriesHold(rules, ts, events, n);
    InvReferences(ts[n]);
    if j < n {
      hide SessionsHold, ReferencesHold;
      LiveUntilEnded(rules, ts, events, j, n, token, user);
      LoginsIssue(rules, ts, events, j, n, token, user);
      LiveAfter(rules, ts[n], events[n].op, events[n].now, token);
      var expires := SessionOf(events[j], user).expires;
      assert ts[k] == After(rules, ts[n], events[n].op, events[n].now);
      assert IsLive(ts[k], token) <==> IsLive(ts[n], token) && !EndsSessionAt(rules, ts, events, n, token, user, expires);
    } else {
      LiveAtFirst(rules, ts[n], events[n].op, events[n].now, user);
    }
  }

  lemma LiveAtFirst(rules: Rules, t: Tables, op: Op, now: int, user: UserId)
    requires op.Login? && ReferencesHold(t) && IsLogin(rules, t, op.username, op.secret, user)
    ensures IsLive(After(rules, t, op, now), op.token)
  {
    UniqueLogin(rules, t, op.username, op.secret, user);
    hide LoginUser;
  }

  /** A session resolves exactly from its login until it expires, is revoked, or its user is
      disabled or given another password. */
  lemma SessionResolvesExactly(rules: Rules, ts: seq<Tables>, events: seq<Event>, j: nat, k: nat, token: Token, user: UserId, now: int)
    requires IsHistory(rules, ts, events) && j < k < |ts| && IsLoginAt(rules, ts, events, j, token, user)
    ensures var expires := events[j].now + events[j].op.ttl;
            ResolvedSession(ts[k], token, now).Some? <==>
            now < expires && forall i :: j < i < k ==> !EndsSessionAt(rules, ts, events, i, token, user, expires)
  {
    hide After, IsLogin, EndsSessionAt, ReferencesHold, SlotsHold, AuditHolds, PrincipalOf, RolesOf;
    HistoriesHold(rules, ts, events, k);
    LoginsIssue(rules, ts, events, j, k, token, user);
    LiveUntilEnded(rules, ts, events, j, k, token, user);
  }

  // ------------------------------------------------------------------------------------------
  // Identities over a history

  /** An active user under the name it was created with, with the profile last set and the roles
      last given. */
  ghost predicate IsIdentity(rules: Rules, ts: seq<Tables>, events: seq<Event>, k: nat, a: Authenticated) {
    var p := a.principal;
    && IsActive(rules, ts, events, p.user, k)
    && IsNamed(rules, ts, events, p.user, p.username, k)
    && IsProfile(rules, ts, events, p.user, p.displayName, p.email, k)
    && forall role :: role in a.roles <==> HoldsRole(rules, ts, events, p.user, role, k)
  }

  lemma RowIsIdentity(rules: Rules, ts: seq<Tables>, events: seq<Event>, k: nat, user: UserId, source: Source, csrf: Option<Text>)
    requires IsHistory(rules, ts, events) && k < |ts| && user in ts[k].users && ts[k].users[user].isActive
    ensures IsIdentity(rules, ts, events, k, Authenticated(PrincipalOf(ts[k], user, source), RolesOf(ts[k], user), csrf))
  {
    hide After, IsActive, IsNamed, IsProfile, HoldsRole;
    ActivityIsLastSet(rules, ts, events, user, k);
    NamesAreGiven(rules, ts, events, user, k);
    ProfilesAreLastSet(rules, ts, events, user, k);
    var roles := RolesOf(ts[k], user);
    forall role ensures role in roles <==> HoldsRole(rules, ts, events, user, role, k) {
      RolesAreLastGiven(rules, ts, events, user, role, k);
      RolePairs(ts[k], user, role);
    }
  }

  lemma RolePairs(t: Tables, user: UserId, role: Text)
    ensures role in RolesOf(t, user) <==> (user, role) in t.userRoles
  {
    if (user, role) in t.userRoles {
      assert (user, role).1 == role;
    }
  }

  /** Who a session is resolved to is the user who logged in with its token, as the operations
      have left them, with the login's token against forgery. */
  lemma SessionsServeTheirUser(rules: Rules, ts: seq<Tables>, events: seq<Event>, k: nat, token: Token, now: int) returns (j: nat)
    requires IsHistory(rules, ts, events) && k < |ts| && ResolvedSession(ts[k], token, now).Some?
    ensures var a := ResolvedSession(ts[k], token, now).value;
            && IsIdentity(rules, ts, events, k, a)
            && j < k && IsLoginAt(rules, ts, events, j, token, a.principal.user)
            && a.csrf == Some(events[j].op.csrf) && a.principal.source == Password
  {
    hide After, IsLogin, ReferencesHold, SlotsHold, AuditHolds, IsIdentity, RolesOf;
    HistoriesHold(rules, ts, events, k);
    j := IssuedByLogin(rules, ts, events, k, token);
    var session := ts[k].sessions[token];
    RowIsIdentity(rules, ts, events, k, session.user, Password, Some(session.csrf));
  }

  /** The user was created with this identity of the proxy. */
  ghost predicate IsLinkedAt(rules: Rules, ts: seq<Tables>, events: seq<Event>, j: nat, user: UserId, source: Source, subject: Text) {
    && CreatesAt(rules, ts, events, j, user) && events[j].op.external.Some? && events[j].op.external.value.0 == source
    && rules.canonical(events[j].op.username).Some?
    && subject == SubjectOf(events[j].op.external.value.1, rules.canonical(events[j].op.username).value)
  }

  lemma LinkAfter(rules: Rules, t: Tables, op: Op, now: int)
    requires Applied(rules, t, op, now).Done?
    ensures op.CreateUser? && op.external.Some? ==> rules.canonical(op.username).Some?
    ensures After(rules, t, op, now).externals ==
            if op.CreateUser? && op.external.Some?
            then t.externals[(op.external.value.0, SubjectOf(op.external.value.1, rules.canonical(op.username).value)) := op.id]
            else t.externals
  {
    hide Created;
    if op.CreateUser? {
      CreatedLink(rules, t, op);
    } else {
      LinksAlone(rules, t, op, now);
    }
  }

  lemma CreatedLink(rules: Rules, t: Tables, op: Op)
    requires op.CreateUser? && Created(rules, t, op).Done?
    ensures rules.canonical(op.username).Some?
    ensures Created(rules, t, op).tables.externals ==
            if op.external.Some?
            then t.externals[(op.external.value.0, SubjectOf(op.external.value.1, rules.canonical(op.username).value)) := op.id]
            else t.externals
  {
    hide CleanOptional, SubjectOf, AssignRoles, IsUsernameTaken;
    var name := rules.canonical(op.username).value;
    var user := User(name, CleanOptional(op.displayName), CleanOptional(op.email), true);
    var t1 := WithExternal(SetUser(t, op.id, user), op.id, name, op.external).tables;
    RolesAreAdded(WithPassword(rules, t1, op.id, op.password).tables, op.id, op.roles);
  }

  lemma LinksAlone(rules: Rules, t: Tables, op: Op, now: int)
    requires !op.CreateUser?
    ensures After(rules, t, op, now).externals == t.externals
  {
    hide LoginUser, CleanOptional, IsLastAdmin, IsKnownRole, AssignmentName, IsSlotTaken, WithActivity, RevokedOf;
    match op
    case SetActive(id, isActive) =>
      if id in t.users {
        ActivityLinks(t, id, t.users[id].(isActive := isActive));
      }
    case UpdateAccount(id, displayName, email, isActive) =>
      if id in t.users {
        ActivityLinks(t, id, t.users[id].(
          displayName := CleanOptional(displayName), email := CleanOptional(email), isActive := isActive));
      }
    case ResetPassword(id, secret) => RevocationLinks(t.(credentials := t.credentials[id := secret]), id);
    case _ =>
  }

  lemma RevocationLinks(t: Tables, id: UserId)
    ensures RevokedOf(t, id).externals == t.externals
  {
  }

  lemma ActivityLinks(t: Tables, id: UserId, user: User)
    ensures WithActivity(t, id, user).externals == t.externals
  {
  }

  lemma {:induction false} LinkedByCreation(rules: Rules, ts: seq<Tables>, events: seq<Event>, k: nat, source: Source, subject: Text) returns (j: nat)
    requires IsHistory(rules, ts, events) && k < |ts| && (source, subject) in ts[k].externals
    ensures j < k && IsLinkedAt(rules, ts, events, j, ts[k].externals[(source, subject)], source, subject)
    decreases k
  {
    hide Applied, SubjectOf;
    var n := k - 1;
    if Succeeded(rules, ts, events, n) {
      LinkAfter(rules, ts[n], events[n].op, events[n].now);
      if IsLinkedAt(rules, ts, events, n, ts[k].externals[(source, subject)], source, subject) {
        return n;
      }
    }
    j := LinkedByCreation(rules, ts, events, n, source, subject);
  }

  /** Who a proxy's subject is resolved to is the user created with it. */
  lemma ProxiesServeTheirUser(rules: Rules, ts: seq<Tables>, events: seq<Event>, k: nat, subject: Text) returns (j: nat)
    requires IsHistory(rules, ts, events) && k < |ts| && ResolvedProxy(ts[k], subject).Some?
    ensures var a := ResolvedProxy(ts[k], subject).value;
            && IsIdentity(rules, ts, events, k, a)
            && j < k && IsLinkedAt(rules, ts, events, j, a.principal.user, TrustedProxy, subject)
            && a.csrf == None && a.principal.source == TrustedProxy
  {
    hide After, IsIdentity, RolesOf, IsLinkedAt;
    j := LinkedByCreation(rules, ts, events, k, TrustedProxy, subject);
    RowIsIdentity(rules, ts, events, k, ts[k].externals[(TrustedProxy, subject)], TrustedProxy, None);
  }

  // ------------------------------------------------------------------------------------------
  // Operations on others

  /** The user an operation is about; nothing else of an account depends on it. */
  function About(t: Tables, op: Op): Option<UserId> {
    match op
    case CreateUser(id, _, _, _, _, _, _) => Some(id)
    case RevokeSession(token) => if token in t.sessions then Some(t.sessions[token].user) else None
    case SetActive(id, _) => Some(id)
    case UpdateProfile(id, _, _) => Some(id)
    case UpdateAccount(id, _, _, _) => Some(id)
    case ResetPassword(id, _) => Some(id)
    case GrantRole(id, _) => Some(id)
    case RevokeRole(id, _) => Some(id)
    case _ => None
  }

  lemma SameRoles(t: Tables, t': Tables, user: UserId)
    requires forall role :: (user, role) in t'.userRoles <==> (user, role) in t.userRoles
    ensures RolesOf(t', user) == RolesOf(t, user)
  {
    hide RolesOf;
    forall role ensures role in RolesOf(t', user) <==> role in RolesOf(t, user) {
      RolePairs(t, user, role);
      RolePairs(t', user, role);
    }
  }

  /** An operation on another user changes nothing about this one. */
  lemma OthersAreUntouched(rules: Rules, t: Tables, op: Op, now: int, user: UserId)
    requires Inv(t) && About(t, op) != Some(user) && user in t.users
    ensures var t' := After(rules, t, op, now);
            user in t'.users && t'.users[user] == t.users[user] && RolesOf(t', user) == RolesOf(t, user)
  {
    hide After, Inv, CleanOptional, RolesOf;
    var t' := After(rules, t, op, now);
    forall role ensures (user, role) in t'.userRoles <==> (user, role) in t.userRoles {
      RoleAfter(rules, t, op, now, user, role);
    }
    SameRoles(t, t', user);
    NotAboutRow(rules, t, op, now, user);
  }

  lemma NotAboutRow(rules: Rules, t: Tables, op: Op, now: int, user: UserId)
    requires About(t, op) != Some(user) && user in t.users
    ensures var t' := After(rules, t, op, now); user in t'.users && t'.users[user] == t.users[user]
  {
    hide Applied, CleanOptional;
    if Applied(rules, t, op, now).Done? {
      RowAfter(rules, t, op, now, user);
    }
  }

  /** So the identity served for a session of this user stays the same, until it expires. */
  lemma OthersKeepSessions(rules: Rules, t: Tables, op: Op, now: int, token: Token, later: int)
    requires Inv(t) && IsFreshFor(t, op) && now <= later && token in t.sessions
    requires About(t, op) != Some(t.sessions[token].user)
    ensures ResolvedSession(After(rules, t, op, now), token, later) == ResolvedSession(t, token, later)
  {
    hide After, Inv, LoginUser, RolesOf, ResolvedSession, IsLive, Applied;
    var t', user := After(rules, t, op, now), t.sessions[token].user;
    OperationsKeepInvariant(rules, t, op, now);
    InvReferences(t);
    InvReferences(t');
    OthersAreUntouched(rules, t, op, now, user);
    LiveAfter(rules, t, op, now, token);
    IssuedAfter(rules, t, op, now);
    EndedByOthers(t, op, now, token, later);
    SameSession(t, t', token, later);
  }

  /** Only pruning ends a session of this user, one that has expired. */
  lemma EndedByOthers(t: Tables, op: Op, now: int, token: Token, later: int)
    requires SessionsHold(t) && now <= later && token in t.sessions && About(t, op) != Some(t.sessions[token].user)
    ensures token in t.issued && t.issued[token].user == t.sessions[token].user
    ensures EndsSession(op, now, token, t.issued[token].user, t.issued[token].expires) ==> t.issued[token].expires <= later
  {
  }

  lemma SameSession(t: Tables, t': Tables, token: Token, later: int)
    requires SessionsHold(t) && SessionsHold(t') && token in t.issued && token in t'.issued && t'.issued[token] == t.issued[token]
    requires IsLive(t', token) ==> IsLive(t, token)
    requires IsLive(t, token) ==> IsLive(t', token) || t.issued[token].expires <= later
    requires var user := t.issued[token].user;
             user in t.users && user in t'.users && t'.users[user] == t.users[user] && RolesOf(t', user) == RolesOf(t, user)
    ensures ResolvedSession(t', token, later) == ResolvedSession(t, token, later)
  {
    hide RolesOf;
  }

  /** And so does the identity served for a proxy's subject that is linked to this user. */
  lemma OthersKeepProxies(rules: Rules, t: Tables, op: Op, now: int, subject: Text)
    requires Inv(t) && (TrustedProxy, subject) in t.externals && About(t, op) != Some(t.externals[(TrustedProxy, subject)])
    ensures ResolvedProxy(After(rules, t, op, now), subject) == ResolvedProxy(t, subject)
  {
    var t', user := After(rules, t, op, now), t.externals[(TrustedProxy, subject)];
    OthersAreUntouched(rules, t, op, now, user);
    LinksStay(rules, t, op, now, subject);
    hide After, Inv, RolesOf;
  }

  lemma LinksStay(rules: Rules, t: Tables, op: Op, now: int, subject: Text)
    requires (TrustedProxy, subject) in t.externals
    ensures var t' := After(rules, t, op, now);
            (TrustedProxy, subject) in t'.externals && t'.externals[(TrustedProxy, subject)] == t.externals[(TrustedProxy, subject)]
  {
    hide Created, LoginUser, CleanOptional, IsLastAdmin, IsKnownRole, AssignmentName, IsSlotTaken;
    if op.CreateUser? && Created(rules, t, op).Done? {
      CreationShape(rules, t, op);
    }
  }

  // ------------------------------------------------------------------------------------------
  // Project roles over a history

  /** The assignment `a` was made by operation `j`, under the given names without the white space
      around them. */
  ghost predicate IsGrantedAt(rules: Rules, ts: seq<Tables>, events: seq<Event>, j: nat, a: nat, row: Assignment) {
    && Succeeded(rules, ts, events, j) && events[j].op.GrantProjectRole? && events[j].op.assignment == a
    && row.user == events[j].op.id
    && IsCleaned(Some(events[j].op.project), Some(row.project)) && IsCleaned(Some(events[j].op.role), Some(row.role))
    && (if events[j].op.target.None? then row.target.None? else row.target.Some? && IsCleaned(events[j].op.target, row.target))
  }

  ghost predicate IsRevokedAt(rules: Rules, ts: seq<Tables>, events: seq<Event>, j: nat, a: nat) {
    Succeeded(rules, ts, events, j) && events[j].op == RevokeProjectRole(a)
  }

  lemma NameIsCleaned(value: Text, limit: nat)
    ensures AssignmentName(value, limit).Some? ==> IsCleaned(Some(value), AssignmentName(value, limit))
  {
    hide Strip, Trimmed, AllSpace;
    var left, right := StripSplits(value);
  }

  lemma AssignmentsStay(rules: Rules, t: Tables, op: Op, now: int)
    requires !op.GrantProjectRole? && !op.RevokeProjectRole?
    ensures After(rules, t, op, now).assignments == t.assignments
  {
    hide Created, LoggedIn, Pruned, CleanOptional, IsLastAdmin, IsKnownRole, WithActivity, PasswordSet;
    if Applied(rules, t, op, now).Done? {
      match op
      case CreateUser(_, _, _, _, _, _, _) => CreationShape(rules, t, op);
      case PruneSessions => AssignmentsAfterPruning(t, now);
      case Login(_, _, _, _, _) => LoginKeepsAssignments(rules, t, op, now);
      case SetActive(id, isActive) => ActivityKeepsAssignments(t, id, t.users[id].(isActive := isActive));
      case UpdateAccount(id, displayName, email, isActive) =>
        ActivityKeepsAssignments(t, id, t.users[id].(
          displayName := CleanOptional(displayName), email := CleanOptional(email), isActive := isActive));
      case ResetPassword(id, secret) => PasswordKeepsAssignments(rules, t, id, secret);
      case _ =>
    }
  }

  lemma GrantedNow(rules: Rules, ts: seq<Tables>, events: seq<Event>, n: nat)
    requires IsHistory(rules, ts, events) && n < |events| && Succeeded(rules, ts, events, n) && events[n].op.GrantProjectRole?
    ensures var a := events[n].op.assignment;
            && a !in ts[n].assignments && a in ts[n + 1].assignments && !ts[n + 1].assignments[a].revoked
            && IsGrantedAt(rules, ts, events, n, a, ts[n + 1].assignments[a])
            && ts[n + 1].assignments == ts[n].assignments[a := ts[n + 1].assignments[a]]
  {
    hide AssignmentName, IsSlotTaken, IsCleaned;
    var op := events[n].op;
    assert ts[n + 1] == After(rules, ts[n], op, events[n].now);
    NameIsCleaned(op.project, 256);
    NameIsCleaned(op.role, 128);
    if op.target.Some? {
      NameIsCleaned(op.target.value, 128);
    }
  }

  lemma RevokedNow(rules: Rules, ts: seq<Tables>, events: seq<Event>, n: nat)
    requires IsHistory(rules, ts, events) && n < |events| && Succeeded(rules, ts, events, n) && events[n].op.RevokeProjectRole?
    ensures var a := events[n].op.assignment;
            && a in ts[n].assignments && ts[n + 1].assignments == ts[n].assignments[a := ts[n].assignments[a].(revoked := true)]
  {
    assert ts[n + 1] == After(rules, ts[n], events[n].op, events[n].now);
  }

  /** In every history, an assignment is what was granted under its id, and active until an
      operation revokes it. */
  lemma {:induction false} AssignmentsAreThoseGranted(rules: Rules, ts: seq<Tables>, events: seq<Event>, k: nat, a: nat) returns (j: nat)
    requires IsHistory(rules, ts, events) && k < |ts| && a in ts[k].assignments
    ensures j < k && IsGrantedAt(rules, ts, events, j, a, ts[k].assignments[a])
    ensures ts[k].assignments[a].revoked <==> exists i :: j < i < k && IsRevokedAt(rules, ts, events, i, a)
    decreases k
  {
    hide Applied, IsCleaned;
    var n := k - 1;
    var e := events[n];
    if Succeeded(rules, ts, events, n) && e.op.GrantProjectRole? {
      GrantedNow(rules, ts, events, n);
      if e.op.assignment == a {
        return n;
      }
    } else if Succeeded(rules, ts, events, n) && e.op.RevokeProjectRole? {
      RevokedNow(rules, ts, events, n);
    } else {
      AssignmentsUnchanged(rules, ts, events, n);
    }
    j := AssignmentsAreThoseGranted(rules, ts, events, n, a);
    if ts[n].assignments[a].revoked {
      var i :| j < i < n && IsRevokedAt(rules, ts, events, i, a);
      assert i < k;
    }
    if IsRevokedAt(rules, ts, events, n, a) {
      assert j < n < k;
    }
  }

  lemma AssignmentsUnchanged(rules: Rules, ts: seq<Tables>, events: seq<Event>, n: nat)
    requires IsHistory(rules, ts, events) && n < |events|
    requires !(Succeeded(rules, ts, events, n) && (events[n].op.GrantProjectRole? || events[n].op.RevokeProjectRole?))
    ensures ts[n + 1].assignments == ts[n].assignments
  {
    hide Applied;
    if Succeeded(rules, ts, events, n) {
      AssignmentsStay(rules, ts[n], events[n].op, events[n].now);
    }
  }
}
