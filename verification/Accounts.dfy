/** The account tables and what each operation makes of them, one transaction at a time
    (src/sqltide/auth/classes/control_store.py). */
module Accounts {
  import opened Chars

  const ADMIN_ROLE: Text := "admin"
  const VIEWER_ROLE: Text := "viewer"

  datatype Source = Password | TrustedProxy | Local

  type UserId = nat
  type Token = nat

  datatype User = User(username: Text, displayName: Option<Text>, email: Option<Text>, isActive: bool)

  datatype Session = Session(user: UserId, csrf: Text, expires: int, revoked: bool)

  datatype Assignment = Assignment(user: UserId, project: Text, role: Text, target: Option<Text>, revoked: bool)

  datatype Operation =
    | UserCreated | SessionCreated | SessionRevoked | UserEnabled | UserDisabled | ProfileUpdated
    | UserUpdated | PasswordReset | RoleGranted | RoleRevoked | ProjectRoleGranted | ProjectRoleRevoked

  datatype AuditRecord = AuditRecord(operation: Operation, affected: UserId)

  /** Credentials stand for the hash of a password, tokens for their hash; both are injective.
      `issued` and `everRevoked` only remember the past: no operation reads them. */
  datatype Tables = Tables(
    users: map<UserId, User>,
    externals: map<(Source, Text), UserId>,
    credentials: map<UserId, Text>,
    userRoles: set<(UserId, Text)>,
    sessions: map<Token, Session>,
    assignments: map<nat, Assignment>,
    audit: seq<AuditRecord>,
    revision: nat,
    issued: map<Token, Session>,
    everRevoked: set<Token>)

  const NoAccounts: Tables := Tables(map[], map[], map[], {}, map[], map[], [], 0, map[], {})

  datatype Error = Conflict | NotFound | Invalid

  datatype Outcome = Done(tables: Tables) | Refused(error: Error)

  /** Canonical form of a user name, or none for an invalid one. */
  datatype Rules = Rules(canonical: Text -> Option<Text>, acceptable: Text -> bool)

  datatype Op =
    | CreateUser(id: UserId, username: Text, displayName: Option<Text>, email: Option<Text>,
                 password: Option<Text>, external: Option<(Source, Text)>, roles: seq<Text>)
    | Login(username: Text, secret: Text, token: Token, csrf: Text, ttl: int)
    | RevokeSession(token: Token)
    | SetActive(id: UserId, isActive: bool)
    | UpdateProfile(id: UserId, displayName: Option<Text>, email: Option<Text>)
    | UpdateAccount(id: UserId, displayName: Option<Text>, email: Option<Text>, isActive: bool)
    | ResetPassword(id: UserId, secret: Text)
    | GrantRole(id: UserId, role: Text)
    | RevokeRole(id: UserId, role: Text)
    | GrantProjectRole(id: UserId, assignment: nat, project: Text, role: Text, target: Option<Text>)
    | RevokeProjectRole(assignment: nat)
    | PruneSessions

  function CleanOptional(value: Option<Text>): Option<Text> {
    if value.None? || Strip(value.value) == [] then None else Some(Strip(value.value))
  }

  function Audited(t: Tables, operation: Operation, affected: UserId): Tables {
    t.(audit := t.audit + [AuditRecord(operation, affected)])
  }

  function Bumped(t: Tables): Tables {
    t.(revision := t.revision + 1)
  }

  // ------------------------------------------------------------------------------------------
  // Roles

  predicate IsKnownRole(role: Text) {
    role == ADMIN_ROLE || role == VIEWER_ROLE
  }

  function AssignRole(t: Tables, id: UserId, role: Text): Outcome {
    if !IsKnownRole(role) then Refused(NotFound)
    else if id !in t.users || (id, role) in t.userRoles then Refused(Conflict)
    else Done(t.(userRoles := t.userRoles + {(id, role)}))
  }

  function AssignRoles(t: Tables, id: UserId, roles: seq<Text>): Outcome {
    if roles == [] then Done(t)
    else
      var n := |roles| - 1;
      match AssignRoles(t, id, roles[..n]) case Refused(e) => Refused(e) case Done(t') => AssignRole(t', id, roles[n])
  }

  function ActiveAdmins(t: Tables): set<UserId> {
    set id | id in t.users && t.users[id].isActive && (id, ADMIN_ROLE) in t.userRoles
  }

  predicate IsLastAdmin(t: Tables, id: UserId) {
    (id, ADMIN_ROLE) in t.userRoles && |ActiveAdmins(t)| <= 1
  }

  // ------------------------------------------------------------------------------------------
  // Users

  predicate IsUsernameTaken(users: map<UserId, User>, username: Text) {
    exists id :: id in users && users[id].username == username
  }

  /** A missing subject is the user's name. */
  function SubjectOf(subject: Text, name: Text): Text {
    Strip(if subject == [] then name else subject)
  }

  function WithExternal(t: Tables, id: UserId, name: Text, external: Option<(Source, Text)>): Outcome {
    match external
    case None => Done(t)
    case Some((source, given)) =>
      var subject := SubjectOf(given, name);
      if source.Local? || subject == [] then Refused(Invalid)
      else if (source, subject) in t.externals then Refused(Conflict)
      else Done(t.(externals := t.externals[(source, subject) := id]))
  }

  function WithPassword(rules: Rules, t: Tables, id: UserId, password: Option<Text>): Outcome {
    match password
    case None => Done(t)
    case Some(p) => if !rules.acceptable(p) then Refused(Invalid) else Done(t.(credentials := t.credentials[id := p]))
  }

  function Created(rules: Rules, t: Tables, op: Op): Outcome
    requires op.CreateUser?
  {
    match rules.canonical(op.username)
    case None => Refused(Invalid)
    case Some(name) =>
      if op.id in t.users || IsUsernameTaken(t.users, name) then Refused(Conflict)
      else
        var user := User(name, CleanOptional(op.displayName), CleanOptional(op.email), true);
        match WithExternal(t.(users := t.users[op.id := user]), op.id, name, op.external)
        case Refused(e) => Refused(e)
        case Done(t1) =>
          match WithPassword(rules, t1, op.id, op.password)
          case Refused(e) => Refused(e)
          case Done(t2) =>
            match AssignRoles(t2, op.id, op.roles)
            case Refused(e) => Refused(e)
            case Done(t3) => Done(Bumped(Audited(t3, UserCreated, op.id)))
  }

  function SetUser(t: Tables, id: UserId, user: User): Tables {
    t.(users := t.users[id := user])
  }

  // ------------------------------------------------------------------------------------------
  // Sessions

  /** All unrevoked sessions of a user revoked. */
  function RevokedOf(t: Tables, id: UserId): Tables {
    t.(sessions := map token | token in t.sessions ::
                     if t.sessions[token].user == id then t.sessions[token].(revoked := true) else t.sessions[token],
       everRevoked := t.everRevoked + set token | token in t.sessions && t.sessions[token].user == id)
  }

  predicate IsLogin(rules: Rules, t: Tables, username: Text, password: Text, id: UserId) {
    && id in t.users && id in t.credentials && t.users[id].isActive && t.credentials[id] == password
    && rules.canonical(username) == Some(t.users[id].username)
  }

  /** The user a login is for: user names are unique. */
  ghost function LoginUser(rules: Rules, t: Tables, username: Text, password: Text): (r: Option<UserId>)
    ensures r.Some? ==> IsLogin(rules, t, username, password, r.value)
    ensures r.None? ==> forall id :: !IsLogin(rules, t, username, password, id)
  {
    if exists id :: IsLogin(rules, t, username, password, id)
    then (var id :| IsLogin(rules, t, username, password, id); Some(id)) else None
  }

  /** A failed login is an answer, not an error: nothing changes. */
  ghost function LoggedIn(rules: Rules, t: Tables, op: Op, now: int): Outcome
    requires op.Login?
  {
    match LoginUser(rules, t, op.username, op.secret)
    case None => Done(t)
    case Some(id) =>
      var session := Session(id, op.csrf, now + op.ttl, false);
      Done(Audited(t.(sessions := t.sessions[op.token := session], issued := t.issued[op.token := session]),
                   SessionCreated, id))
  }

  function SessionRevokedBy(t: Tables, token: Token): Tables {
    if token !in t.sessions then t
    else
      Bumped(Audited(t.(sessions := t.sessions[token := t.sessions[token].(revoked := true)],
                        everRevoked := t.everRevoked + {token}),
                     SessionRevoked, t.sessions[token].user))
  }

  function Pruned(t: Tables, now: int): Tables {
    t.(sessions := map token | token in t.sessions && t.sessions[token].expires > now && !t.sessions[token].revoked
                     :: t.sessions[token])
  }

  // ------------------------------------------------------------------------------------------
  // Project roles

  function AssignmentName(value: Text, limit: nat): Option<Text> {
    var name := Strip(value);
    if name == [] || |name| > limit then None else Some(name)
  }

  predicate IsActiveAt(t: Tables, k: nat, user: UserId, project: Text, role: Text, target: Option<Text>) {
    k in t.assignments && t.assignments[k] == Assignment(user, project, role, target, false)
  }

  predicate IsSlotTaken(t: Tables, user: UserId, project: Text, role: Text, target: Option<Text>) {
    exists k :: k in t.assignments && IsActiveAt(t, k, user, project, role, target)
  }

  function ProjectRoleGrantedBy(t: Tables, op: Op): Outcome
    requires op.GrantProjectRole?
  {
    var project, role := AssignmentName(op.project, 256), AssignmentName(op.role, 128);
    var target := if op.target.None? then None else AssignmentName(op.target.value, 128);
    if project.None? || role.None? || (op.target.Some? && target.None?) then Refused(Invalid)
    else if op.assignment in t.assignments || op.id !in t.users
         || IsSlotTaken(t, op.id, project.value, role.value, target) then Refused(Conflict)
    else
      var granted := Assignment(op.id, project.value, role.value, target, false);
      Done(Audited(t.(assignments := t.assignments[op.assignment := granted]), ProjectRoleGranted, op.id))
  }

  function ProjectRoleRevokedBy(t: Tables, k: nat): Outcome {
    if k !in t.assignments || t.assignments[k].revoked then Refused(NotFound)
    else
      Done(Audited(t.(assignments := t.assignments[k := t.assignments[k].(revoked := true)]),
                   ProjectRoleRevoked, t.assignments[k].user))
  }

  // ------------------------------------------------------------------------------------------
  // Changes to accounts

  function WithActivity(t: Tables, id: UserId, user: User): Tables {
    if user.isActive then SetUser(t, id, user) else RevokedOf(SetUser(t, id, user), id)
  }

  function ActivitySet(t: Tables, id: UserId, isActive: bool): Outcome {
    if !isActive && IsLastAdmin(t, id) then Refused(Conflict)
    else if id !in t.users then Refused(NotFound)
    else
      var t' := WithActivity(t, id, t.users[id].(isActive := isActive));
      Done(Bumped(Audited(t', if isActive then UserEnabled else UserDisabled, id)))
  }

  function ProfileSet(t: Tables, id: UserId, displayName: Option<Text>, email: Option<Text>): Outcome {
    if id !in t.users then Refused(NotFound)
    else
      var user := t.users[id].(displayName := CleanOptional(displayName), email := CleanOptional(email));
      Done(Bumped(Audited(SetUser(t, id, user), ProfileUpdated, id)))
  }

  function AccountSet(t: Tables, id: UserId, displayName: Option<Text>, email: Option<Text>, isActive: bool): Outcome {
    if id !in t.users then Refused(NotFound)
    else if !isActive && t.users[id].isActive && IsLastAdmin(t, id) then Refused(Conflict)
    else
      var user := t.users[id].(
        displayName := CleanOptional(displayName), email := CleanOptional(email), isActive := isActive);
      Done(Bumped(Audited(WithActivity(t, id, user), UserUpdated, id)))
  }

  function PasswordSet(rules: Rules, t: Tables, id: UserId, password: Text): Outcome {
    if !rules.acceptable(password) then Refused(Invalid)
    else if id !in t.users then Refused(NotFound)
    else Done(Bumped(Audited(RevokedOf(t.(credentials := t.credentials[id := password]), id), PasswordReset, id)))
  }

  function RoleGrantedBy(t: Tables, id: UserId, role: Text): Outcome {
    match AssignRole(t, id, role)
    case Refused(e) => Refused(e)
    case Done(t') => Done(Bumped(Audited(t', RoleGranted, id)))
  }

  function RoleRevokedBy(t: Tables, id: UserId, role: Text): Outcome {
    if role == ADMIN_ROLE && IsLastAdmin(t, id) then Refused(Conflict)
    else if (id, role) !in t.userRoles then Refused(NotFound)
    else Done(Bumped(Audited(t.(userRoles := t.userRoles - {(id, role)}), RoleRevoked, id)))
  }

  // ------------------------------------------------------------------------------------------
  // Every operation

  ghost function Applied(rules: Rules, t: Tables, op: Op, now: int): Outcome {
    match op
    case CreateUser(_, _, _, _, _, _, _) => Created(rules, t, op)
    case Login(_, _, _, _, _) => LoggedIn(rules, t, op, now)
    case RevokeSession(token) => Done(SessionRevokedBy(t, token))
    case SetActive(id, isActive) => ActivitySet(t, id, isActive)
    case UpdateProfile(id, displayName, email) => ProfileSet(t, id, displayName, email)
    case UpdateAccount(id, displayName, email, isActive) => AccountSet(t, id, displayName, email, isActive)
    case ResetPassword(id, secret) => PasswordSet(rules, t, id, secret)
    case GrantRole(id, role) => RoleGrantedBy(t, id, role)
    case RevokeRole(id, role) => RoleRevokedBy(t, id, role)
    case GrantProjectRole(_, _, _, _, _) => ProjectRoleGrantedBy(t, op)
    case RevokeProjectRole(k) => ProjectRoleRevokedBy(t, k)
    case PruneSessions => Done(Pruned(t, now))
  }

  /** A refused transaction is rolled back. */
  ghost function After(rules: Rules, t: Tables, op: Op, now: int): Tables {
    match Applied(rules, t, op, now) case Done(t') => t' case Refused(_) => t
  }

  // ------------------------------------------------------------------------------------------
  // Reading

  datatype Principal = Principal(user: UserId, username: Text, displayName: Option<Text>, email: Option<Text>, source: Source)

  datatype Authenticated = Authenticated(principal: Principal, roles: set<Text>, csrf: Option<Text>)

  function RolesOf(t: Tables, id: UserId): set<Text> {
    set pair | pair in t.userRoles && pair.0 == id :: pair.1
  }

  function PrincipalOf(t: Tables, id: UserId, source: Source): Principal
    requires id in t.users
  {
    var user := t.users[id];
    Principal(id, user.username, user.displayName, user.email, source)
  }

  /** `resolve_session` at `now`. */
  function ResolvedSession(t: Tables, token: Token, now: int): Option<Authenticated> {
    if token !in t.sessions then None
    else
      var session := t.sessions[token];
      if session.user !in t.users || session.revoked || !t.users[session.user].isActive || session.expires <= now then None
      else Some(Authenticated(PrincipalOf(t, session.user, Password), RolesOf(t, session.user), Some(session.csrf)))
  }

  /** `resolve_external_identity`, for an account that may be used. */
  function ResolvedProxy(t: Tables, subject: Text): Option<Authenticated> {
    if (TrustedProxy, subject) !in t.externals then None
    else
      var id := t.externals[(TrustedProxy, subject)];
      if id !in t.users || !t.users[id].isActive then None
      else Some(Authenticated(PrincipalOf(t, id, TrustedProxy), RolesOf(t, id), None))
  }
}
