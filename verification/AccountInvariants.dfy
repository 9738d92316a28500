/** What every sequence of account operations keeps. */
module AccountInvariants {
  import opened Chars
  import opened Accounts

  /** A token not handed out before: tokens are drawn at random from a large space. */
  predicate IsFreshFor(t: Tables, op: Op) {
    op.Login? ==> op.token !in t.issued
  }

  ghost predicate SessionsHold(t: Tables) {
    && (forall token :: token in t.sessions ==>
          && t.sessions[token].user in t.users
          && (!t.sessions[token].revoked ==> t.users[t.sessions[token].user].isActive)
          && token in t.issued && t.issued[token] == t.sessions[token].(revoked := false))
    && (forall token :: token in t.everRevoked ==>
          token in t.issued && (token in t.sessions ==> t.sessions[token].revoked))
    && (forall token :: token in t.sessions && t.sessions[token].revoked ==> token in t.everRevoked)
  }

  ghost predicate ReferencesHold(t: Tables) {
    && (forall pair :: pair in t.userRoles ==> pair.0 in t.users)
    && (forall key :: key in t.externals ==> t.externals[key] in t.users)
    && (forall id :: id in t.credentials ==> id in t.users)
    && (forall a, b :: a in t.users && b in t.users && t.users[a].username == t.users[b].username ==> a == b)
  }

  function SlotOf(a: Assignment): (UserId, Text, Text, Option<Text>) {
    (a.user, a.project, a.role, a.target)
  }

  /** At most one active assignment for each user, project, role and scope. */
  ghost predicate SlotsHold(t: Tables) {
    forall j, k :: j in ActiveAssignments(t) && k in ActiveAssignments(t) && j != k ==>
      SlotOf(t.assignments[j]) != SlotOf(t.assignments[k])
  }

  function Count(audit: seq<AuditRecord>, operation: Operation): nat {
    if audit == [] then 0
    else Count(audit[..|audit| - 1], operation) + if audit[|audit| - 1].operation == operation then 1 else 0
  }

  function ActiveAssignments(t: Tables): set<nat> {
    set k | k in t.assignments && !t.assignments[k].revoked
  }

  /** The audit log balances. */
  ghost predicate AuditHolds(t: Tables) {
    Count(t.audit, ProjectRoleGranted) == Count(t.audit, ProjectRoleRevoked) + |ActiveAssignments(t)|
  }

  ghost predicate Inv(t: Tables) {
    SessionsHold(t) && ReferencesHold(t) && SlotsHold(t) && AuditHolds(t)
  }

  lemma CountNext(audit: seq<AuditRecord>, record: AuditRecord, operation: Operation)
    ensures Count(audit + [record], operation) == Count(audit, operation) + if record.operation == operation then 1 else 0
  {
    assert (audit + [record])[..|audit|] == audit;
  }

  /** What `AssignRoles` leaves alone. */
  lemma {:induction false} RolesAreAdded(t: Tables, id: UserId, roles: seq<Text>)
    requires AssignRoles(t, id, roles).Done?
    ensures var t' := AssignRoles(t, id, roles).tables;
            && t' == t.(userRoles := t'.userRoles) && t.userRoles <= t'.userRoles
            && forall pair :: pair in t'.userRoles - t.userRoles ==> pair.0 == id && id in t.users
  {
    if roles != [] {
      RolesAreAdded(t, id, roles[..|roles| - 1]);
    }
  }

  /** What the first part of a creation makes: the user, the identity and the password. */
  lemma IdentityShape(rules: Rules, t: Tables, id: UserId, name: Text, user: User, external: Option<(Source, Text)>, password: Option<Text>)
    requires id !in t.users
    requires WithExternal(SetUser(t, id, user), id, name, external).Done?
    requires WithPassword(rules, WithExternal(SetUser(t, id, user), id, name, external).tables, id, password).Done?
    ensures var t2 := WithPassword(rules, WithExternal(SetUser(t, id, user), id, name, external).tables, id, password).tables;
            && t2 == t.(users := t.users[id := user], externals := t2.externals, credentials := t2.credentials)
            && (forall key :: key in t2.externals ==> t2.externals[key] == id || (key in t.externals && t2.externals[key] == t.externals[key]))
            && (forall key :: key in t.externals ==> key in t2.externals && t2.externals[key] == t.externals[key])
            && (forall other :: other in t2.credentials ==> other == id || other in t.credentials)
  {
    hide SubjectOf;
  }

  /** A new user and everything that comes with it. */
  lemma CreationShape(rules: Rules, t: Tables, op: Op)
    requires op.CreateUser? && Created(rules, t, op).Done?
    ensures var t' := Created(rules, t, op).tables;
            && op.id !in t.users && t'.users.Keys == t.users.Keys + {op.id}
            && (forall id :: id in t.users ==> t'.users[id] == t.users[id])
            && !IsUsernameTaken(t.users, t'.users[op.id].username) && t'.users[op.id].isActive
            && t' == t.(users := t'.users, externals := t'.externals, credentials := t'.credentials,
                        userRoles := t'.userRoles, audit := t.audit + [AuditRecord(UserCreated, op.id)],
                        revision := t.revision + 1)
            && t.userRoles <= t'.userRoles
            && (forall pair :: pair in t'.userRoles - t.userRoles ==> pair.0 == op.id)
            && (forall key :: key in t'.externals ==> t'.externals[key] == op.id || (key in t.externals && t'.externals[key] == t.externals[key]))
            && (forall key :: key in t.externals ==> key in t'.externals && t'.externals[key] == t.externals[key])
            && (forall id :: id in t'.credentials ==> id == op.id || id in t.credentials)
  {
    hide AssignRoles, Strip, CleanOptional, WithExternal, WithPassword, IsUsernameTaken;
    var name := rules.canonical(op.username).value;
    var user := User(name, CleanOptional(op.displayName), CleanOptional(op.email), true);
    var t1 := WithExternal(SetUser(t, op.id, user), op.id, name, op.external).tables;
    var t2 := WithPassword(rules, t1, op.id, op.password).tables;
    IdentityShape(rules, t, op.id, name, user, op.external, op.password);
    RolesAreAdded(t2, op.id, op.roles);
  }

  // ------------------------------------------------------------------------------------------
  // Sessions

  lemma SessionsDepend(t: Tables, t': Tables)
    requires SessionsHold(t)
    requires t'.sessions == t.sessions && t'.issued == t.issued && t'.everRevoked == t.everRevoked
    requires forall id :: id in t.users ==> id in t'.users && t'.users[id].isActive == t.users[id].isActive
    ensures SessionsHold(t')
  {
  }

  lemma EnabledSessions(t: Tables, id: UserId, user: User)
    requires SessionsHold(t) && user.isActive
    ensures SessionsHold(SetUser(t, id, user))
  {
  }

  lemma RevokedSessions(t: Tables, id: UserId, user: User)
    requires SessionsHold(t)
    ensures SessionsHold(RevokedOf(SetUser(t, id, user), id))
  {
  }

  lemma OneRevoked(t: Tables, token: Token)
    requires SessionsHold(t)
    ensures SessionsHold(SessionRevokedBy(t, token))
  {
  }

  lemma PrunedHold(t: Tables, now: int)
    requires SessionsHold(t)
    ensures SessionsHold(Pruned(t, now))
  {
  }

  lemma LoginHolds(rules: Rules, t: Tables, op: Op, now: int)
    requires SessionsHold(t) && op.Login? && IsFreshFor(t, op)
    ensures SessionsHold(LoggedIn(rules, t, op, now).tables)
  {
  }

  // ------------------------------------------------------------------------------------------
  // References between tables

  lemma ReferencesDepend(t: Tables, t': Tables)
    requires ReferencesHold(t)
    requires t'.users.Keys == t.users.Keys && forall id :: id in t.users ==> t'.users[id].username == t.users[id].username
    requires t'.externals == t.externals && t'.credentials.Keys <= t'.users.Keys
    requires forall pair :: pair in t'.userRoles ==> pair in t.userRoles || pair.0 in t.users
    ensures ReferencesHold(t')
  {
  }

  lemma CreationReferences(rules: Rules, t: Tables, op: Op)
    requires ReferencesHold(t) && op.CreateUser? && Created(rules, t, op).Done?
    ensures ReferencesHold(Created(rules, t, op).tables)
  {
    hide Created;
    CreationShape(rules, t, op);
    var t' := Created(rules, t, op).tables;
    forall a, b | a in t'.users && b in t'.users && t'.users[a].username == t'.users[b].username ensures a == b {
      assert (a in t.users || a == op.id) && (b in t.users || b == op.id);
    }
    forall pair | pair in t'.userRoles ensures pair.0 in t'.users {
      assert pair in t.userRoles || pair in t'.userRoles - t.userRoles;
    }
  }

  // ------------------------------------------------------------------------------------------
  // Project roles and their audit

  /** One more record, about anything but project roles. */
  predicate IsOtherRecord(audit: seq<AuditRecord>, audit': seq<AuditRecord>) {
    && |audit'| == |audit| + 1 && audit <= audit'
    && !audit'[|audit|].operation.ProjectRoleGranted? && !audit'[|audit|].operation.ProjectRoleRevoked?
  }

  lemma ActiveDepend(t: Tables, t': Tables)
    requires SlotsHold(t) && AuditHolds(t) && t'.assignments == t.assignments
    requires t'.audit == t.audit || IsOtherRecord(t.audit, t'.audit)
    ensures SlotsHold(t') && AuditHolds(t')
  {
    assert ActiveAssignments(t') == ActiveAssignments(t);
    if t'.audit != t.audit {
      var record := t'.audit[|t.audit|];
      assert t'.audit == t.audit + [record];
      CountNext(t.audit, record, ProjectRoleGranted);
      CountNext(t.audit, record, ProjectRoleRevoked);
    }
  }

  lemma GrantHolds(t: Tables, op: Op)
    requires SlotsHold(t) && AuditHolds(t) && op.GrantProjectRole? && ProjectRoleGrantedBy(t, op).Done?
    ensures var t' := ProjectRoleGrantedBy(t, op).tables; SlotsHold(t') && AuditHolds(t')
  {
    hide AssignmentName, Count;
    var t' := ProjectRoleGrantedBy(t, op).tables;
    var k := op.assignment;
    assert ActiveAssignments(t') == ActiveAssignments(t) + {k};
    CountNext(t.audit, AuditRecord(ProjectRoleGranted, op.id), ProjectRoleGranted);
    CountNext(t.audit, AuditRecord(ProjectRoleGranted, op.id), ProjectRoleRevoked);
    var new_ := t'.assignments[k];
    forall j | j in ActiveAssignments(t) ensures SlotOf(t.assignments[j]) != SlotOf(new_) {
      assert !IsActiveAt(t, j, new_.user, new_.project, new_.role, new_.target);
    }
  }

  lemma RevocationHolds(t: Tables, k: nat)
    requires SlotsHold(t) && AuditHolds(t) && ProjectRoleRevokedBy(t, k).Done?
    ensures var t' := ProjectRoleRevokedBy(t, k).tables; SlotsHold(t') && AuditHolds(t')
  {
    hide Count;
    var t' := ProjectRoleRevokedBy(t, k).tables;
    assert ActiveAssignments(t) == ActiveAssignments(t') + {k};
    CountNext(t.audit, AuditRecord(ProjectRoleRevoked, t.assignments[k].user), ProjectRoleGranted);
    CountNext(t.audit, AuditRecord(ProjectRoleRevoked, t.assignments[k].user), ProjectRoleRevoked);
  }

  // ------------------------------------------------------------------------------------------
  // Each operation

  lemma CreationKeeps(rules: Rules, t: Tables, op: Op)
    requires Inv(t) && op.CreateUser? && Created(rules, t, op).Done?
    ensures Inv(Created(rules, t, op).tables)
  {
    hide Created, SessionsHold, ReferencesHold, SlotsHold, AuditHolds, IsUsernameTaken;
    var t' := Created(rules, t, op).tables;
    CreationShape(rules, t, op);
    SessionsDepend(t, t');
    CreationReferences(rules, t, op);
    ActiveDepend(t, t');
  }

  lemma LoginKeeps(rules: Rules, t: Tables, op: Op, now: int)
    requires Inv(t) && op.Login? && IsFreshFor(t, op)
    ensures Inv(LoggedIn(rules, t, op, now).tables)
  {
    hide SessionsHold, ReferencesHold, SlotsHold, AuditHolds, LoginUser;
    var t' := LoggedIn(rules, t, op, now).tables;
    LoginHolds(rules, t, op, now);
    CredentialsExist(t);
    ReferencesDepend(t, t');
    ActiveDepend(t, t');
  }

  lemma RevocationKeeps(t: Tables, token: Token)
    requires Inv(t)
    ensures Inv(SessionRevokedBy(t, token))
  {
    hide SessionsHold, ReferencesHold, SlotsHold, AuditHolds;
    OneRevoked(t, token);
    CredentialsExist(t);
    ReferencesDepend(t, SessionRevokedBy(t, token));
    ActiveDepend(t, SessionRevokedBy(t, token));
  }

  lemma PruningKeeps(t: Tables, now: int)
    requires Inv(t)
    ensures Inv(Pruned(t, now))
  {
    PrunedHold(t, now);
    hide SessionsHold, ReferencesHold, SlotsHold, AuditHolds;
    CredentialsExist(t);
    ReferencesDepend(t, Pruned(t, now));
    ActiveDepend(t, Pruned(t, now));
  }

  /** Changing a user's row, and ending the sessions of a user that becomes inactive. */
  lemma ActivityKeeps(t: Tables, id: UserId, user: User, operation: Operation)
    requires Inv(t) && id in t.users && user.username == t.users[id].username
    requires !operation.ProjectRoleGranted? && !operation.ProjectRoleRevoked?
    ensures Inv(Bumped(Audited(WithActivity(t, id, user), operation, id)))
  {
    hide SessionsHold, ReferencesHold, SlotsHold, AuditHolds;
    var t' := Bumped(Audited(WithActivity(t, id, user), operation, id));
    if user.isActive {
      EnabledSessions(t, id, user);
    } else {
      RevokedSessions(t, id, user);
    }
    SessionsDepend(WithActivity(t, id, user), t');
    CredentialsExist(t);
    ReferencesDepend(t, t');
    ActiveDepend(t, t');
  }

  lemma ProfileKeeps(t: Tables, id: UserId, displayName: Option<Text>, email: Option<Text>)
    requires Inv(t) && ProfileSet(t, id, displayName, email).Done?
    ensures Inv(ProfileSet(t, id, displayName, email).tables)
  {
    hide SessionsHold, ReferencesHold, SlotsHold, AuditHolds, CleanOptional;
    var t' := ProfileSet(t, id, displayName, email).tables;
    SessionsDepend(t, t');
    CredentialsExist(t);
    ReferencesDepend(t, t');
    ActiveDepend(t, t');
  }

  lemma PasswordKeeps(rules: Rules, t: Tables, id: UserId, password: Text)
    requires Inv(t) && PasswordSet(rules, t, id, password).Done?
    ensures Inv(PasswordSet(rules, t, id, password).tables)
  {
    hide SessionsHold, ReferencesHold, SlotsHold, AuditHolds;
    var t' := PasswordSet(rules, t, id, password).tables;
    var t1 := t.(credentials := t.credentials[id := password]);
    SessionsDepend(t, t1);
    assert SetUser(t1, id, t.users[id]) == t1;
    RevokedSessions(t1, id, t.users[id]);
    SessionsDepend(RevokedOf(t1, id), t');
    CredentialsExist(t);
    ReferencesDepend(t, t');
    ActiveDepend(t, t');
  }

  lemma RolesKeep(t: Tables, t': Tables)
    requires Inv(t) && t' == t.(userRoles := t'.userRoles, audit := t'.audit, revision := t'.revision)
    requires forall pair :: pair in t'.userRoles ==> pair in t.userRoles || pair.0 in t.users
    requires IsOtherRecord(t.audit, t'.audit)
    ensures Inv(t')
  {
    hide SessionsHold, ReferencesHold, SlotsHold, AuditHolds;
    CredentialsExist(t);
    SessionsDepend(t, t');
    ReferencesDepend(t, t');
    ActiveDepend(t, t');
  }

  lemma CredentialsExist(t: Tables)
    requires ReferencesHold(t)
    ensures t.credentials.Keys <= t.users.Keys
  {
  }

  /** Every operation keeps what the tables promise. */
  lemma OperationsKeepInvariant(rules: Rules, t: Tables, op: Op, now: int)
    requires Inv(t) && IsFreshFor(t, op)
    ensures Inv(After(rules, t, op, now))
  {
    hide Inv, Created, LoggedIn, SessionRevokedBy, Pruned, WithActivity, ProfileSet, PasswordSet;
    hide ProjectRoleGrantedBy, ProjectRoleRevokedBy, CleanOptional, IsLastAdmin, Bumped, Audited, IsKnownRole;
    if Applied(rules, t, op, now).Done? {
      match op
      case CreateUser(_, _, _, _, _, _, _) => CreationKeeps(rules, t, op);
      case Login(_, _, _, _, _) => LoginKeeps(rules, t, op, now);
      case RevokeSession(token) => RevocationKeeps(t, token);
      case PruneSessions => PruningKeeps(t, now);
      case SetActive(id, isActive) =>
        ActivityKeeps(t, id, t.users[id].(isActive := isActive), if isActive then UserEnabled else UserDisabled);
      case UpdateAccount(id, displayName, email, isActive) =>
        var user := t.users[id].(
          displayName := CleanOptional(displayName), email := CleanOptional(email), isActive := isActive);
        ActivityKeeps(t, id, user, UserUpdated);
      case UpdateProfile(id, displayName, email) => ProfileKeeps(t, id, displayName, email);
      case ResetPassword(id, secret) => PasswordKeeps(rules, t, id, secret);
      case GrantRole(id, role) => RoleGrantKeeps(t, id, role);
      case RevokeRole(id, role) => RoleRevocationKeeps(t, id, role);
      case GrantProjectRole(_, _, _, _, _) => ProjectGrantKeeps(t, op);
      case RevokeProjectRole(k) => ProjectRevocationKeeps(t, k);
    }
  }

  lemma RoleGrantKeeps(t: Tables, id: UserId, role: Text)
    requires Inv(t) && RoleGrantedBy(t, id, role).Done?
    ensures Inv(RoleGrantedBy(t, id, role).tables)
  {
    hide Inv, IsKnownRole;
    RolesKeep(t, RoleGrantedBy(t, id, role).tables);
  }

  lemma RoleRevocationKeeps(t: Tables, id: UserId, role: Text)
    requires Inv(t) && RoleRevokedBy(t, id, role).Done?
    ensures Inv(RoleRevokedBy(t, id, role).tables)
  {
    hide Inv, IsLastAdmin;
    RolesKeep(t, RoleRevokedBy(t, id, role).tables);
  }

  lemma ProjectGrantKeeps(t: Tables, op: Op)
    requires Inv(t) && op.GrantProjectRole? && ProjectRoleGrantedBy(t, op).Done?
    ensures Inv(ProjectRoleGrantedBy(t, op).tables)
  {
    GrantHolds(t, op);
    hide SessionsHold, ReferencesHold, SlotsHold, AuditHolds, AssignmentName, IsSlotTaken;
    var t' := ProjectRoleGrantedBy(t, op).tables;
    CredentialsExist(t);
    SessionsDepend(t, t');
    ReferencesDepend(t, t');
  }

  lemma ProjectRevocationKeeps(t: Tables, k: nat)
    requires Inv(t) && ProjectRoleRevokedBy(t, k).Done?
    ensures Inv(ProjectRoleRevokedBy(t, k).tables)
  {
    RevocationHolds(t, k);
    hide SessionsHold, ReferencesHold, SlotsHold, AuditHolds;
    var t' := ProjectRoleRevokedBy(t, k).tables;
    CredentialsExist(t);
    SessionsDepend(t, t');
    ReferencesDepend(t, t');
  }

  // ------------------------------------------------------------------------------------------
  // Administrators

  lemma AdminsSame(t: Tables, t': Tables)
    requires forall id :: id in t.users ==> id in t'.users && t'.users[id].isActive == t.users[id].isActive
    requires t.userRoles <= t'.userRoles
    ensures ActiveAdmins(t) <= ActiveAdmins(t')
  {
  }

  /** Taking one administrator away leaves another when it was not the last. */
  lemma AdminsLess(t: Tables, t': Tables, id: UserId)
    requires !IsLastAdmin(t, id) && ActiveAdmins(t) != {}
    requires forall other :: other in ActiveAdmins(t) && other != id ==> other in ActiveAdmins(t')
    requires (id, ADMIN_ROLE) !in t.userRoles ==> ActiveAdmins(t) <= ActiveAdmins(t')
    ensures ActiveAdmins(t') != {}
  {
    hide ActiveAdmins;
    var admins := ActiveAdmins(t);
    if (id, ADMIN_ROLE) in t.userRoles {
      if admins <= {id} {
        OneAtMost(admins, id);
        assert false;
      }
      var other :| other in admins && other != id;
      assert other in ActiveAdmins(t');
    }
  }

  lemma OneAtMost(s: set<UserId>, id: UserId)
    requires s <= {id}
    ensures |s| <= 1
  {
    if s != {} {
      assert s == {id};
    }
  }

  lemma ActivityAdmins(t: Tables, id: UserId, user: User)
    requires id in t.users && ActiveAdmins(t) != {}
    requires !user.isActive && t.users[id].isActive ==> !IsLastAdmin(t, id)
    ensures ActiveAdmins(WithActivity(t, id, user)) != {}
  {
    var t' := WithActivity(t, id, user);
    if user.isActive || !t.users[id].isActive {
      forall other | other in ActiveAdmins(t) ensures other in ActiveAdmins(t') {
      }
    } else {
      AdminsLess(t, t', id);
    }
  }

  lemma AdminsDepend(t: Tables, t': Tables)
    requires t'.users == t.users && t'.userRoles == t.userRoles
    ensures ActiveAdmins(t') == ActiveAdmins(t)
  {
  }

  /** Once there is an active administrator, there always is one. */
  lemma AnAdminRemains(rules: Rules, t: Tables, op: Op, now: int)
    requires ActiveAdmins(t) != {}
    ensures ActiveAdmins(After(rules, t, op, now)) != {}
  {
    hide ActiveAdmins, IsLastAdmin, Created, WithActivity, CleanOptional, ProjectRoleGrantedBy, IsKnownRole;
    hide ProjectRoleRevokedBy, LoggedIn, Pruned, PasswordSet, ProfileSet, RoleRevokedBy;
    var t' := After(rules, t, op, now);
    if Applied(rules, t, op, now).Done? {
      match op
      case CreateUser(_, _, _, _, _, _, _) => CreationShape(rules, t, op); AdminsSame(t, t');
      case SetActive(id, isActive) =>
        ActivityAdmins(t, id, t.users[id].(isActive := isActive));
        AdminsDepend(WithActivity(t, id, t.users[id].(isActive := isActive)), t');
      case UpdateAccount(id, displayName, email, isActive) =>
        var user := t.users[id].(
          displayName := CleanOptional(displayName), email := CleanOptional(email), isActive := isActive);
        ActivityAdmins(t, id, user);
        AdminsDepend(WithActivity(t, id, user), t');
      case UpdateProfile(id, displayName, email) => ProfileAdmins(t, id, displayName, email);
      case RevokeRole(id, role) => RoleRevocationAdmins(t, id, role);
      case GrantRole(_, _) => AdminsSame(t, t');
      case Login(_, _, _, _, _) => LoginAdmins(rules, t, op, now);
      case GrantProjectRole(_, _, _, _, _) => ProjectAdmins(t, op);
      case RevokeProjectRole(k) => ProjectRevocationAdmins(t, k);
      case ResetPassword(id, secret) => PasswordAdmins(rules, t, id, secret);
      case PruneSessions => AssignmentsAfterPruning(t, now); AdminsDepend(t, t');
      case RevokeSession(_) => AdminsDepend(t, t');
    }
  }

  lemma AssignmentsAfterPruning(t: Tables, now: int)
    ensures Pruned(t, now) == t.(sessions := Pruned(t, now).sessions)
  {
  }

  lemma ProfileAdmins(t: Tables, id: UserId, displayName: Option<Text>, email: Option<Text>)
    requires ProfileSet(t, id, displayName, email).Done?
    ensures ActiveAdmins(t) <= ActiveAdmins(ProfileSet(t, id, displayName, email).tables)
  {
    hide CleanOptional;
    AdminsSame(t, ProfileSet(t, id, displayName, email).tables);
  }

  lemma LoginAdmins(rules: Rules, t: Tables, op: Op, now: int)
    requires op.Login?
    ensures ActiveAdmins(LoggedIn(rules, t, op, now).tables) == ActiveAdmins(t)
  {
    hide LoginUser;
    AdminsDepend(t, LoggedIn(rules, t, op, now).tables);
  }

  lemma ProjectAdmins(t: Tables, op: Op)
    requires op.GrantProjectRole? && ProjectRoleGrantedBy(t, op).Done?
    ensures ActiveAdmins(ProjectRoleGrantedBy(t, op).tables) == ActiveAdmins(t)
  {
    hide AssignmentName, IsSlotTaken;
    AdminsDepend(t, ProjectRoleGrantedBy(t, op).tables);
  }

  lemma ProjectRevocationAdmins(t: Tables, k: nat)
    requires ProjectRoleRevokedBy(t, k).Done?
    ensures ActiveAdmins(ProjectRoleRevokedBy(t, k).tables) == ActiveAdmins(t)
  {
    AdminsDepend(t, ProjectRoleRevokedBy(t, k).tables);
  }

  lemma PasswordAdmins(rules: Rules, t: Tables, id: UserId, password: Text)
    requires PasswordSet(rules, t, id, password).Done?
    ensures ActiveAdmins(PasswordSet(rules, t, id, password).tables) == ActiveAdmins(t)
  {
    AdminsDepend(t, PasswordSet(rules, t, id, password).tables);
  }

  lemma RoleRevocationAdmins(t: Tables, id: UserId, role: Text)
    requires RoleRevokedBy(t, id, role).Done? && ActiveAdmins(t) != {}
    ensures ActiveAdmins(RoleRevokedBy(t, id, role).tables) != {}
  {
    var t' := RoleRevokedBy(t, id, role).tables;
    if role == ADMIN_ROLE {
      AdminsLess(t, t', id);
    } else {
      assert forall other :: other in ActiveAdmins(t) ==> other in ActiveAdmins(t');
    }
  }

  // ------------------------------------------------------------------------------------------
  // Histories of operations

  datatype Event = Event(op: Op, now: int)

  /** Tables after each operation, from no accounts on. */
  ghost predicate IsHistory(rules: Rules, ts: seq<Tables>, events: seq<Event>) {
    && |ts| == |events| + 1 && ts[0] == NoAccounts
    && forall k :: 0 <= k < |events| ==>
      IsFreshFor(ts[k], events[k].op) && ts[k + 1] == After(rules, ts[k], events[k].op, events[k].now)
  }

  lemma NoAccountsHold()
    ensures Inv(NoAccounts)
  {
    assert ActiveAssignments(NoAccounts) == {};
  }

  lemma {:induction false} HistoriesHold(rules: Rules, ts: seq<Tables>, events: seq<Event>, k: nat)
    requires IsHistory(rules, ts, events) && k < |ts|
    ensures Inv(ts[k])
  {
    hide Inv, After;
    NoAccountsHold();
    if k > 0 {
      HistoriesHold(rules, ts, events, k - 1);
      OperationsKeepInvariant(rules, ts[k - 1], events[k - 1].op, events[k - 1].now);
    }
  }

  /** An administrator at any time of a history means one at every later time. */
  lemma {:induction false} AdminsAreForever(rules: Rules, ts: seq<Tables>, events: seq<Event>, j: nat, k: nat)
    requires IsHistory(rules, ts, events) && j <= k < |ts| && ActiveAdmins(ts[j]) != {}
    ensures ActiveAdmins(ts[k]) != {}
  {
    hide ActiveAdmins, After;
    if j < k {
      AdminsAreForever(rules, ts, events, j, k - 1);
      AnAdminRemains(rules, ts[k - 1], events[k - 1].op, events[k - 1].now);
    }
  }

  lemma RevokedGrow(rules: Rules, t: Tables, op: Op, now: int)
    ensures t.everRevoked <= After(rules, t, op, now).everRevoked
  {
    hide IsLastAdmin, CleanOptional, AssignmentName, IsSlotTaken, LoginUser, Created, IsKnownRole;
    if op.CreateUser? && Created(rules, t, op).Done? {
      CreationShape(rules, t, op);
    }
  }

  lemma {:induction false} RevokedStayRevoked(rules: Rules, ts: seq<Tables>, events: seq<Event>, j: nat, k: nat)
    requires IsHistory(rules, ts, events) && j <= k < |ts|
    ensures ts[j].everRevoked <= ts[k].everRevoked
  {
    hide After;
    if j < k {
      RevokedStayRevoked(rules, ts, events, j, k - 1);
      RevokedGrow(rules, ts[k - 1], events[k - 1].op, events[k - 1].now);
    }
  }

  /** A session once revoked is never resolved again, and sessions that resolve belong to active users. */
  lemma RevokedSessionsNeverResolve(rules: Rules, ts: seq<Tables>, events: seq<Event>, j: nat, k: nat, token: Token, now: int)
    requires IsHistory(rules, ts, events) && j <= k < |ts|
    requires token in ts[j].sessions && ts[j].sessions[token].revoked
    ensures ResolvedSession(ts[k], token, now) == None
  {
    hide RolesOf, PrincipalOf;
    HistoriesHold(rules, ts, events, j);
    HistoriesHold(rules, ts, events, k);
    hide After, ReferencesHold, SlotsHold, AuditHolds;
    RevokedStayRevoked(rules, ts, events, j, k);
    assert token in ts[k].everRevoked;
  }

  /** In every history: unrevoked sessions belong to active users, no two active assignments
      share a slot, and the audit log counts the active assignments. */
  lemma HistoriesKeepTheTables(rules: Rules, ts: seq<Tables>, events: seq<Event>, k: nat)
    requires IsHistory(rules, ts, events) && k < |ts|
    ensures var t := ts[k];
            && (forall token :: token in t.sessions && !t.sessions[token].revoked ==>
                  t.sessions[token].user in t.users && t.users[t.sessions[token].user].isActive)
            && (forall a, b :: a in ActiveAssignments(t) && b in ActiveAssignments(t) && a != b ==>
                  SlotOf(t.assignments[a]) != SlotOf(t.assignments[b]))
            && Count(t.audit, ProjectRoleGranted) - Count(t.audit, ProjectRoleRevoked) == |ActiveAssignments(t)|
  {
    hide After, ActiveAssignments;
    HistoriesHold(rules, ts, events, k);
  }

  // ------------------------------------------------------------------------------------------
  // Granting again

  /** Assignments are those of existing users, under names that are clean already. */
  ghost predicate AssignmentsHold(t: Tables) {
    forall k :: k in t.assignments ==> IsClean(t.users, t.assignments[k])
  }

  predicate IsClean(users: map<UserId, User>, a: Assignment) {
    && a.user in users
    && AssignmentName(a.project, 256) == Some(a.project) && AssignmentName(a.role, 128) == Some(a.role)
    && (a.target.Some? ==> AssignmentName(a.target.value, 128) == a.target)
  }

  lemma CleanNames(value: Text, limit: nat)
    ensures AssignmentName(value, limit).Some? ==>
              AssignmentName(AssignmentName(value, limit).value, limit) == AssignmentName(value, limit)
  {
    var left, right := StripSplits(value);
    hide Strip;
    StripPadded([], Strip(value), []);
    assert [] + Strip(value) + [] == Strip(value);
  }

  lemma AssignmentsDepend(t: Tables, t': Tables)
    requires AssignmentsHold(t) && t'.assignments == t.assignments && t.users.Keys <= t'.users.Keys
    ensures AssignmentsHold(t')
  {
    hide AssignmentName;
    forall k | k in t'.assignments ensures IsClean(t'.users, t'.assignments[k]) {
      assert IsClean(t.users, t.assignments[k]);
    }
  }

  lemma GrantIsClean(t: Tables, op: Op)
    requires AssignmentsHold(t) && op.GrantProjectRole? && ProjectRoleGrantedBy(t, op).Done?
    ensures AssignmentsHold(ProjectRoleGrantedBy(t, op).tables)
  {
    hide AssignmentName, IsSlotTaken;
    CleanNames(op.project, 256);
    CleanNames(op.role, 128);
    if op.target.Some? {
      CleanNames(op.target.value, 128);
    }
  }

  lemma RevocationIsClean(t: Tables, k: nat)
    requires AssignmentsHold(t) && ProjectRoleRevokedBy(t, k).Done?
    ensures AssignmentsHold(ProjectRoleRevokedBy(t, k).tables)
  {
    hide AssignmentName;
    assert IsClean(t.users, t.assignments[k]);
  }

  lemma ActivityKeepsAssignments(t: Tables, id: UserId, user: User)
    ensures var t' := WithActivity(t, id, user); t'.assignments == t.assignments && t.users.Keys <= t'.users.Keys
  {
  }

  lemma OperationsKeepAssignments(rules: Rules, t: Tables, op: Op, now: int)
    requires AssignmentsHold(t)
    ensures AssignmentsHold(After(rules, t, op, now))
  {
    hide AssignmentsHold, Created, LoggedIn, Pruned, CleanOptional, IsLastAdmin, IsKnownRole, WithActivity;
    hide ProjectRoleGrantedBy, ProjectRoleRevokedBy, RevokedOf, LoginUser;
    var t' := After(rules, t, op, now);
    if Applied(rules, t, op, now).Done? {
      match op
      case CreateUser(_, _, _, _, _, _, _) => CreationShape(rules, t, op); AssignmentsDepend(t, t');
      case GrantProjectRole(_, _, _, _, _) => GrantIsClean(t, op);
      case RevokeProjectRole(k) => RevocationIsClean(t, k);
      case PruneSessions => AssignmentsAfterPruning(t, now); AssignmentsDepend(t, t');
      case Login(_, _, _, _, _) => LoginKeepsAssignments(rules, t, op, now); AssignmentsDepend(t, t');
      case SetActive(id, isActive) =>
        ActivityKeepsAssignments(t, id, t.users[id].(isActive := isActive));
        AssignmentsDepend(t, t');
      case UpdateAccount(id, displayName, email, isActive) =>
        ActivityKeepsAssignments(t, id, t.users[id].(
          displayName := CleanOptional(displayName), email := CleanOptional(email), isActive := isActive));
        AssignmentsDepend(t, t');
      case ResetPassword(id, secret) => PasswordKeepsAssignments(rules, t, id, secret); AssignmentsDepend(t, t');
      case _ => AssignmentsDepend(t, t');
    }
  }

  lemma LoginKeepsAssignments(rules: Rules, t: Tables, op: Op, now: int)
    requires op.Login?
    ensures var t' := LoggedIn(rules, t, op, now).tables; t'.assignments == t.assignments && t'.users == t.users
  {
    hide LoginUser;
  }

  lemma PasswordKeepsAssignments(rules: Rules, t: Tables, id: UserId, password: Text)
    requires PasswordSet(rules, t, id, password).Done?
    ensures var t' := PasswordSet(rules, t, id, password).tables; t'.assignments == t.assignments && t'.users == t.users
  {
  }

  lemma {:induction false} HistoriesKeepAssignments(rules: Rules, ts: seq<Tables>, events: seq<Event>, k: nat)
    requires IsHistory(rules, ts, events) && k < |ts|
    ensures AssignmentsHold(ts[k])
  {
    hide After, IsClean;
    if k > 0 {
      HistoriesKeepAssignments(rules, ts, events, k - 1);
      OperationsKeepAssignments(rules, ts[k - 1], events[k - 1].op, events[k - 1].now);
    }
  }

  /** In every history, once an assignment is revoked the same one may be granted again under a
      new id, and no sooner. */
  lemma RevokingFreesTheSlot(rules: Rules, ts: seq<Tables>, events: seq<Event>, j: nat, k: nat, id: nat)
    requires IsHistory(rules, ts, events) && j < |events| && events[j].op == RevokeProjectRole(k)
    requires k in ts[j].assignments && !ts[j].assignments[k].revoked && id !in ts[j].assignments
    ensures var a := ts[j].assignments[k];
            var grant := GrantProjectRole(a.user, id, a.project, a.role, a.target);
            && ProjectRoleGrantedBy(ts[j], grant).Refused? && ProjectRoleGrantedBy(ts[j + 1], grant).Done?
  {
    HistoriesHold(rules, ts, events, j);
    HistoriesKeepAssignments(rules, ts, events, j);
    hide AssignmentName, SessionsHold, ReferencesHold, AuditHolds, Inv;
    var t, a := ts[j], ts[j].assignments[k];
    var t' := ts[j + 1];
    assert t' == After(rules, t, events[j].op, events[j].now);
    assert IsClean(t.users, a);
    assert IsActiveAt(t, k, a.user, a.project, a.role, a.target);
    SlotIsFree(t, k);
  }

  lemma SlotIsFree(t: Tables, k: nat)
    requires Inv(t) && ProjectRoleRevokedBy(t, k).Done?
    ensures var a, t' := t.assignments[k], ProjectRoleRevokedBy(t, k).tables;
            !IsSlotTaken(t', a.user, a.project, a.role, a.target)
  {
    hide SessionsHold, ReferencesHold, AuditHolds;
    var a, t' := t.assignments[k], ProjectRoleRevokedBy(t, k).tables;
    assert k in ActiveAssignments(t);
    forall j | j in t'.assignments ensures !IsActiveAt(t', j, a.user, a.project, a.role, a.target) {
      if j != k && j in ActiveAssignments(t) {
        assert SlotOf(t.assignments[j]) != SlotOf(a);
      }
    }
  }
}
