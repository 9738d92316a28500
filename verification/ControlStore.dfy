/** The account repository as written, with its process-local revision
    (src/sqltide/auth/classes/control_store.py). */
module ControlStores {
  import opened Chars
  import opened Accounts
  import opened AccountInvariants

  /** Transactions work on the tables and are rolled back when they raise: a method that answers
      with an error has changed nothing. */
  class ControlStore {
    const rules: Rules
    var users: map<UserId, User>
    var externals: map<(Source, Text), UserId>
    var credentials: map<UserId, Text>
    var userRoles: set<(UserId, Text)>
    var sessions: map<Token, Session>
    var assignments: map<nat, Assignment>
    var audit: seq<AuditRecord>
    var authenticationRevision: nat
    ghost var issued: map<Token, Session>
    ghost var everRevoked: set<Token>

    ghost function Contents(): Tables
      reads this
    {
      Tables(users, externals, credentials, userRoles, sessions, assignments, audit, authenticationRevision,
             issued, everRevoked)
    }

    constructor (rules: Rules)
      ensures Contents() == NoAccounts && this.rules == rules
    {
      this.rules := rules;
      users, externals, credentials, userRoles, sessions, assignments := map[], map[], map[], {}, map[], map[];
      audit, authenticationRevision, issued, everRevoked := [], 0, map[], {};
    }

    method Audit(operation: Operation, affected: UserId)
      modifies `audit
      ensures Contents() == Audited(old(Contents()), operation, affected)
    {
      audit := audit + [AuditRecord(operation, affected)];
    }

    method InvalidateAuthentication()
      modifies `authenticationRevision
      ensures Contents() == Bumped(old(Contents()))
    {
      authenticationRevision := authenticationRevision + 1;
    }

    method CountActiveAdmins() returns (count: nat)
      ensures count == |ActiveAdmins(Contents())|
    {
      var admins := set id | id in users && users[id].isActive && (id, ADMIN_ROLE) in userRoles;
      assert admins == ActiveAdmins(Contents());
      return |admins|;
    }

    method CheckLastAdmin(id: UserId) returns (last: bool)
      ensures last == IsLastAdmin(Contents(), id)
    {
      if (id, ADMIN_ROLE) !in userRoles {
        return false;
      }
      var count := CountActiveAdmins();
      return count <= 1;
    }

    method RevokeSessionsOf(id: UserId)
      modifies `sessions, `everRevoked
      ensures Contents() == RevokedOf(old(Contents()), id)
    {
      everRevoked := everRevoked + set token | token in sessions && sessions[token].user == id;
      sessions := map token | token in sessions ::
        if sessions[token].user == id then sessions[token].(revoked := true) else sessions[token];
    }

    method AddUser(id: UserId, username: Text, displayName: Option<Text>, email: Option<Text>, password: Option<Text>,
                   external: Option<(Source, Text)>, roles: seq<Text>) returns (error: Option<Error>)
      modifies this
      ensures var op := CreateUser(id, username, displayName, email, password, external, roles);
              match Created(rules, old(Contents()), op)
              case Refused(e) => error == Some(e) && Contents() == old(Contents())
              case Done(t) => error == None && Contents() == t
    {
      hide AssignRoles, WithExternal, CleanOptional, IsUsernameTaken;
      var name := rules.canonical(username);
      if name.None? {
        return Some(Invalid);
      }
      if id in users || IsUsernameTaken(users, name.value) {
        return Some(Conflict);
      }
      var newUsers := users[id := User(name.value, CleanOptional(displayName), CleanOptional(email), true)];
      ghost var t0 := Contents().(users := newUsers);
      var failed, newExternals := LinkIdentity(t0, id, name.value, external);
      if failed.Some? {
        return failed;
      }
      if password.Some? && !rules.acceptable(password.value) {
        return Some(Invalid);
      }
      var newCredentials := if password.Some? then credentials[id := password.value] else credentials;
      var newRoles;
      failed, newRoles := RolesFor(t0.(externals := newExternals, credentials := newCredentials), newUsers, userRoles, id, roles);
      if failed.Some? {
        return failed;
      }
      users, externals, credentials, userRoles := newUsers, newExternals, newCredentials, newRoles;
      Audit(UserCreated, id);
      InvalidateAuthentication();
      return None;
    }

    method LinkIdentity(ghost t: Tables, id: UserId, name: Text, external: Option<(Source, Text)>)
      returns (error: Option<Error>, linked: map<(Source, Text), UserId>)
      requires t.externals == externals
      ensures match WithExternal(t, id, name, external)
              case Refused(e) => error == Some(e)
              case Done(t') => error == None && t' == t.(externals := linked)
    {
      hide SubjectOf;
      if external.None? {
        return None, externals;
      }
      var (source, given) := external.value;
      var subject := SubjectOf(given, name);
      if source.Local? || subject == [] {
        return Some(Invalid), externals;
      }
      if (source, subject) in externals {
        return Some(Conflict), externals;
      }
      return None, externals[(source, subject) := id];
    }

    /** Assign one role after the other, as long as none fails. */
    method RolesFor(ghost t: Tables, known: map<UserId, User>, current: set<(UserId, Text)>, id: UserId, roles: seq<Text>)
      returns (error: Option<Error>, r: set<(UserId, Text)>)
      requires t.users == known && t.userRoles == current
      ensures match AssignRoles(t, id, roles)
              case Refused(e) => error == Some(e)
              case Done(t') => error == None && t' == t.(userRoles := r)
    {
      r := current;
      assert roles[..|roles|] == roles;
      for k := 0 to |roles|
        invariant AssignRoles(t, id, roles[..k]) == Done(t.(userRoles := r))
      {
        assert roles[..k + 1][..k] == roles[..k];
        RefusedPrefix(t, id, roles, k + 1);
        if !IsKnownRole(roles[k]) {
          return Some(NotFound), r;
        }
        if id !in known || (id, roles[k]) in r {
          return Some(Conflict), r;
        }
        r := r + {(id, roles[k])};
      }
      return None, r;
    }

    method AuthenticatePassword(username: Text, secret: Text, token: Token, csrf: Text, ttl: int, now: int) returns (user: Option<UserId>)
      requires Inv(Contents()) && token !in issued
      modifies this
      ensures Contents() == After(rules, old(Contents()), Login(username, secret, token, csrf, ttl), now)
      ensures user == LoginUser(rules, old(Contents()), username, secret)
    {
      hide Inv, LoginUser, IsLogin;
      ghost var before := Contents();
      var canonical := rules.canonical(username);
      LoginIsUnique(rules, before, username, secret);
      if canonical.None? {
        return None;
      }
      var rows := set id | id in users && id in credentials && users[id].username == canonical.value;
      if id :| id in rows && users[id].isActive && credentials[id] == secret {
        LoginIs(rules, before, username, secret, id);
        var session := Session(id, csrf, now + ttl, false);
        sessions := sessions[token := session];
        issued := issued[token := session];
        Audit(SessionCreated, id);
        return Some(id);
      }
      return None;
    }

    method RevokeSession(token: Token, now: int)
      modifies this
      ensures Contents() == After(rules, old(Contents()), Op.RevokeSession(token), now)
    {
      if token !in sessions {
        return;
      }
      var user := sessions[token].user;
      sessions := sessions[token := sessions[token].(revoked := true)];
      everRevoked := everRevoked + {token};
      Audit(SessionRevoked, user);
      InvalidateAuthentication();
    }

    method SetUserActive(id: UserId, isActive: bool) returns (error: Option<Error>)
      modifies this
      ensures match ActivitySet(old(Contents()), id, isActive)
              case Refused(e) => error == Some(e) && Contents() == old(Contents())
              case Done(t) => error == None && Contents() == t
    {
      hide IsLastAdmin, RevokedOf;
      var last := CheckLastAdmin(id);
      if !isActive && last {
        return Some(Conflict);
      }
      if id !in users {
        return Some(NotFound);
      }
      users := users[id := users[id].(isActive := isActive)];
      if !isActive {
        RevokeSessionsOf(id);
      }
      Audit(if isActive then UserEnabled else UserDisabled, id);
      InvalidateAuthentication();
      return None;
    }

    method UpdateProfile(id: UserId, displayName: Option<Text>, email: Option<Text>) returns (error: Option<Error>)
      modifies this
      ensures match ProfileSet(old(Contents()), id, displayName, email)
              case Refused(e) => error == Some(e) && Contents() == old(Contents())
              case Done(t) => error == None && Contents() == t
    {
      hide CleanOptional;
      if id !in users {
        return Some(NotFound);
      }
      users := users[id := users[id].(displayName := CleanOptional(displayName), email := CleanOptional(email))];
      Audit(ProfileUpdated, id);
      InvalidateAuthentication();
      return None;
    }

    method UpdateAccount(id: UserId, displayName: Option<Text>, email: Option<Text>, isActive: bool) returns (error: Option<Error>)
      modifies this
      ensures match AccountSet(old(Contents()), id, displayName, email, isActive)
              case Refused(e) => error == Some(e) && Contents() == old(Contents())
              case Done(t) => error == None && Contents() == t
    {
      hide IsLastAdmin, RevokedOf, CleanOptional;
      if id !in users {
        return Some(NotFound);
      }
      if !isActive && users[id].isActive {
        var last := CheckLastAdmin(id);
        if last {
          return Some(Conflict);
        }
      }
      var user := users[id].(displayName := CleanOptional(displayName), email := CleanOptional(email), isActive := isActive);
      users := users[id := user];
      if !isActive {
        RevokeSessionsOf(id);
      }
      Audit(UserUpdated, id);
      InvalidateAuthentication();
      return None;
    }

    method ResetPassword(id: UserId, secret: Text) returns (error: Option<Error>)
      modifies this
      ensures match PasswordSet(rules, old(Contents()), id, secret)
              case Refused(e) => error == Some(e) && Contents() == old(Contents())
              case Done(t) => error == None && Contents() == t
    {
      hide RevokedOf;
      if !rules.acceptable(secret) {
        return Some(Invalid);
      }
      if id !in users {
        return Some(NotFound);
      }
      credentials := credentials[id := secret];
      RevokeSessionsOf(id);
      Audit(PasswordReset, id);
      InvalidateAuthentication();
      return None;
    }

    method GrantRole(id: UserId, role: Text) returns (error: Option<Error>)
      modifies this
      ensures match RoleGrantedBy(old(Contents()), id, role)
              case Refused(e) => error == Some(e) && Contents() == old(Contents())
              case Done(t) => error == None && Contents() == t
    {
      hide IsKnownRole;
      if !IsKnownRole(role) {
        return Some(NotFound);
      }
      if id !in users || (id, role) in userRoles {
        return Some(Conflict);
      }
      userRoles := userRoles + {(id, role)};
      Audit(RoleGranted, id);
      InvalidateAuthentication();
      return None;
    }

    method RevokeRole(id: UserId, role: Text) returns (error: Option<Error>)
      modifies this
      ensures match RoleRevokedBy(old(Contents()), id, role)
              case Refused(e) => error == Some(e) && Contents() == old(Contents())
              case Done(t) => error == None && Contents() == t
    {
      hide IsLastAdmin;
      if role == ADMIN_ROLE {
        var last := CheckLastAdmin(id);
        if last {
          return Some(Conflict);
        }
      }
      if (id, role) !in userRoles {
        return Some(NotFound);
      }
      userRoles := userRoles - {(id, role)};
      Audit(RoleRevoked, id);
      InvalidateAuthentication();
      return None;
    }

    /** Project roles are no part of an identity: the revision stays. */
    method GrantProjectRole(id: UserId, assignment: nat, project: Text, role: Text, target: Option<Text>) returns (error: Option<Error>)
      modifies this
      ensures match ProjectRoleGrantedBy(old(Contents()), Op.GrantProjectRole(id, assignment, project, role, target))
              case Refused(e) => error == Some(e) && Contents() == old(Contents())
              case Done(t) => error == None && Contents() == t
    {
      hide AssignmentName;
      var cleanProject, cleanRole := AssignmentName(project, 256), AssignmentName(role, 128);
      var cleanTarget := if target.None? then None else AssignmentName(target.value, 128);
      if cleanProject.None? || cleanRole.None? || (target.Some? && cleanTarget.None?) {
        return Some(Invalid);
      }
      var granted := Assignment(id, cleanProject.value, cleanRole.value, cleanTarget, false);
      if assignment in assignments || id !in users || exists k :: k in assignments && assignments[k] == granted {
        return Some(Conflict);
      }
      assignments := assignments[assignment := granted];
      Audit(ProjectRoleGranted, id);
      return None;
    }

    method RevokeProjectRole(assignment: nat) returns (error: Option<Error>)
      modifies this
      ensures match ProjectRoleRevokedBy(old(Contents()), assignment)
              case Refused(e) => error == Some(e) && Contents() == old(Contents())
              case Done(t) => error == None && Contents() == t
    {
      if assignment !in assignments || assignments[assignment].revoked {
        return Some(NotFound);
      }
      var row := assignments[assignment];
      assignments := assignments[assignment := row.(revoked := true)];
      Audit(ProjectRoleRevoked, row.user);
      return None;
    }

    method PruneSessions(now: int) returns (removed: nat)
      modifies `sessions
      ensures Contents() == Pruned(old(Contents()), now)
      ensures removed == |old(sessions)| - |sessions|
    {
      ghost var before := sessions;
      var kept := map token | token in sessions && sessions[token].expires > now && !sessions[token].revoked :: sessions[token];
      FewerKeys(kept, sessions);
      removed := |sessions| - |kept|;
      sessions := kept;
    }

    method ResolveSession(token: Token, now: int) returns (r: Option<Authenticated>)
      ensures r == Accounts.ResolvedSession(Contents(), token, now)
      ensures r.Some? ==>
                && token in sessions && r.value.principal.user == sessions[token].user && r.value.csrf == Some(sessions[token].csrf)
                && forall role :: role in r.value.roles <==> (sessions[token].user, role) in userRoles
    {
      if token !in sessions {
        return None;
      }
      var row := sessions[token];
      if row.user !in users || row.revoked || !users[row.user].isActive || row.expires <= now {
        return None;
      }
      var account := users[row.user];
      var principal := Principal(row.user, account.username, account.displayName, account.email, Password);
      var roles := RolesForUser(row.user);
      return Some(Authenticated(principal, roles, Some(row.csrf)));
    }

    /** The active assignments of a user in a project, in no particular order. */
    method ListProjectRoleAssignments(user: UserId, project: Text) returns (rows: seq<Assignment>)
      ensures forall row :: row in rows <==>
                exists k :: k in ActiveAssignments(Contents()) && assignments[k] == row && row.user == user && row.project == project
    {
      rows := [];
      var left := assignments.Keys;
      while left != {}
        invariant left <= assignments.Keys
        invariant forall row :: row in rows <==>
          exists k :: k in ActiveAssignments(Contents()) && k !in left && assignments[k] == row && row.user == user && row.project == project
        decreases |left|
      {
        var k :| k in left;
        ghost var todo := left;
        left := left - {k};
        var row := assignments[k];
        if !row.revoked && row.user == user && row.project == project {
          assert k in ActiveAssignments(Contents());
          rows := rows + [row];
        }
        assert forall j :: j in ActiveAssignments(Contents()) && j !in left ==> j == k || j !in todo;
      }
    }

    method RolesForUser(id: UserId) returns (roles: set<Text>)
      ensures roles == RolesOf(Contents(), id)
      ensures forall role :: role in roles <==> (id, role) in userRoles
    {
      roles := set pair | pair in userRoles && pair.0 == id :: pair.1;
      forall role ensures role in roles <==> (id, role) in userRoles {
        if (id, role) in userRoles {
          assert (id, role).1 == role;
        }
      }
    }

    /** The identity's user, whether or not it may be used. */
    method ResolveExternalIdentity(source: Source, subject: Text) returns (id: Option<UserId>)
      ensures id == if (source, subject) in externals && externals[(source, subject)] in users
                    then Some(externals[(source, subject)]) else None
    {
      if (source, subject) !in externals || externals[(source, subject)] !in users {
        return None;
      }
      return Some(externals[(source, subject)]);
    }
  }

  lemma {:induction false} RefusedPrefix(t: Tables, id: UserId, roles: seq<Text>, k: nat)
    requires k <= |roles|
    ensures AssignRoles(t, id, roles[..k]).Refused? ==> AssignRoles(t, id, roles) == AssignRoles(t, id, roles[..k])
    decreases |roles| - k
  {
    if k == |roles| {
      assert roles[..k] == roles;
    } else {
      assert roles[..k + 1][..k] == roles[..k];
      RefusedPrefix(t, id, roles, k + 1);
    }
  }

  lemma LoginIsUnique(rules: Rules, t: Tables, username: Text, secret: Text)
    requires Inv(t)
    ensures forall id: UserId :: IsLogin(rules, t, username, secret, id) ==> LoginUser(rules, t, username, secret) == Some(id)
    ensures LoginUser(rules, t, username, secret).Some? ==>
              var id := LoginUser(rules, t, username, secret).value;
              && id in t.users && id in t.credentials && rules.canonical(username) == Some(t.users[id].username)
              && t.users[id].isActive && t.credentials[id] == secret
  {
    hide SessionsHold, SlotsHold, AuditHolds;
  }

  lemma LoginIs(rules: Rules, t: Tables, username: Text, secret: Text, id: UserId)
    requires id in t.users && id in t.credentials && rules.canonical(username) == Some(t.users[id].username)
    requires t.users[id].isActive && t.credentials[id] == secret
    ensures IsLogin(rules, t, username, secret, id)
  {
  }

  lemma FewerKeys<K, V>(a: map<K, V>, b: map<K, V>)
    requires a.Keys <= b.Keys
    ensures |a| <= |b|
  {
    assert |a.Keys| <= |b.Keys| by {
      FewerElements(a.Keys, b.Keys);
    }
  }

  lemma FewerElements<K>(a: set<K>, b: set<K>)
    requires a <= b
    ensures |a| <= |b|
  {
    assert b == a + (b - a);
  }
}
