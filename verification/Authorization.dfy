/** Project-role decisions and the capability summary
    (src/sqltide/authorization/classes/project_authorizer.py). */
module Authorization {
  import opened Chars
  import opened Accounts

  datatype Permission =
    | ProjectReload | SourceMessagesRead | QualityTestRun | QualityAuditRun | BuildDirectRun | DeploymentCreate
    | BuildCancel | BuildKill | DeploymentPromote | DeploymentCleanup | PipelineDestroy | TargetReset
    | AutomationManage | AccountManage | RoleAssign

  const PIPELINE_PERMISSIONS: set<Permission> := {
    QualityTestRun, QualityAuditRun, BuildDirectRun, DeploymentCreate, BuildCancel, DeploymentPromote, PipelineDestroy
  }
  const PROJECT_PERMISSIONS: set<Permission> := {
    ProjectReload, SourceMessagesRead, QualityTestRun, QualityAuditRun, AutomationManage
  }
  const TARGET_PERMISSIONS: set<Permission> := {
    SourceMessagesRead, BuildKill, DeploymentCleanup, TargetReset, AutomationManage
  }

  datatype Scope = Project | Target

  datatype Grant = Grant(permissions: set<Permission>, pipelines: set<Text>, scope: Option<Scope>)

  datatype Role = Role(name: Text, grants: seq<Grant>)

  /** The compiled policy, by role name. */
  type Policy = map<Text, Role>

  datatype Reason =
    | SystemAdmin | Granted | PolicyAbsent | NoMatchingAssignment | StaleAssignment | EmptyPipelineScope
    | MissingPermission | MissingPipelines

  datatype Request = Request(
    isAdmin: bool, user: UserId, permission: Permission, project: Text, target: Option<Text>,
    scope: Option<Scope>, pipelines: set<Text>, policy: Option<Policy>)

  datatype Decision = Decision(allowed: bool, reason: Reason, matched: set<Text>, missing: set<Text>)

  datatype Capabilities = Capabilities(
    isAdmin: bool, permissions: set<Permission>, pipelinePermissions: map<Permission, set<Text>>, staleRoles: set<Text>)

  // ------------------------------------------------------------------------------------------
  // What is granted

  /** Names of the roles assigned at all targets or at this one. */
  function AssignedNames(rows: seq<Assignment>, target: Option<Text>): set<Text> {
    set k | 0 <= k < |rows| && (rows[k].target.None? || rows[k].target == target) :: rows[k].role
  }

  /** The rows for another target: neither for all targets nor for this one. */
  predicate IsElsewhere(row: Assignment, target: Option<Text>) {
    row.target.Some? && row.target != target
  }

  predicate MatchesScope(grant: Grant, permission: Permission, scope: Scope) {
    permission in grant.permissions && (grant.scope == Some(scope) || (scope.Target? && grant.scope == Some(Project)))
  }

  predicate Covers(grant: Grant, permission: Permission, pipeline: Text) {
    permission in grant.permissions && (grant.scope == Some(Project) || (grant.scope.None? && pipeline in grant.pipelines))
  }

  predicate HasScoped(role: Role, permission: Permission, scope: Scope) {
    exists k :: 0 <= k < |role.grants| && MatchesScope(role.grants[k], permission, scope)
  }

  predicate RoleCovers(role: Role, permission: Permission, pipeline: Text) {
    exists k :: 0 <= k < |role.grants| && Covers(role.grants[k], permission, pipeline)
  }

  /** Some assigned role of the policy covers the pipeline. */
  predicate IsCovered(policy: Policy, names: set<Text>, permission: Permission, pipeline: Text) {
    exists name :: name in names && name in policy && RoleCovers(policy[name], permission, pipeline)
  }

  predicate IsScoped(policy: Policy, names: set<Text>, permission: Permission, scope: Scope) {
    exists name :: name in names && name in policy && HasScoped(policy[name], permission, scope)
  }

  /** Whether a request is allowed, apart from the explanation. */
  predicate Allows(request: Request, names: set<Text>) {
    || request.isAdmin
    || (request.policy.Some?
        && if request.scope.Some? then IsScoped(request.policy.value, names, request.permission, request.scope.value)
           else request.pipelines != {}
                && forall pipeline :: pipeline in request.pipelines ==>
                     IsCovered(request.policy.value, names, request.permission, pipeline))
  }

  predicate HasAnyScoped(role: Role, permission: Permission) {
    exists k :: 0 <= k < |role.grants| && role.grants[k].scope.Some? && permission in role.grants[k].permissions
  }

  /** A permission the summary lists beside the pipelines. */
  predicate IsListed(policy: Policy, names: set<Text>, permission: Permission) {
    exists name :: name in names && name in policy && HasAnyScoped(policy[name], permission)
  }

  /** Why, in the order in which the reasons are looked for. */
  function ReasonFor(request: Request, names: set<Text>): Reason {
    if request.isAdmin then SystemAdmin
    else if request.policy.None? then PolicyAbsent
    else if names == {} then NoMatchingAssignment
    else if names * request.policy.value.Keys == {} then StaleAssignment
    else if request.scope.None? && request.pipelines == {} then EmptyPipelineScope
    else if Allows(request, names) then Granted
    else if request.scope.Some? then MissingPermission
    else MissingPipelines
  }

  /** The assigned roles with a grant that matches any of the request. */
  function MatchedRoles(request: Request, names: set<Text>): set<Text> {
    if request.policy.None? then {}
    else set name | name in names * request.policy.value.Keys && HasMatch(request.policy.value[name], request)
  }

  predicate HasMatch(role: Role, request: Request) {
    if request.scope.Some? then HasScoped(role, request.permission, request.scope.value)
    else CoversAny(role, request.permission, request.pipelines)
  }

  predicate CoversAny(role: Role, permission: Permission, pipelines: set<Text>) {
    exists pipeline :: pipeline in pipelines && RoleCovers(role, permission, pipeline)
  }

  // ------------------------------------------------------------------------------------------
  // The authorizer as written

  method MatchScoped(role: Role, permission: Permission, scope: Scope) returns (found: bool)
    ensures found == HasScoped(role, permission, scope)
  {
    for k := 0 to |role.grants|
      invariant forall j :: 0 <= j < k ==> !MatchesScope(role.grants[j], permission, scope)
    {
      if MatchesScope(role.grants[k], permission, scope) {
        return true;
      }
    }
    return false;
  }

  method CoveredBy(role: Role, permission: Permission, pipelines: set<Text>) returns (covered: set<Text>)
    ensures covered == set pipeline | pipeline in pipelines && RoleCovers(role, permission, pipeline)
  {
    covered := {};
    for k := 0 to |role.grants|
      invariant covered <= pipelines
      invariant forall pipeline :: pipeline in pipelines ==>
        (pipeline in covered <==> exists j :: 0 <= j < k && Covers(role.grants[j], permission, pipeline))
    {
      var grant := role.grants[k];
      if grant.scope.None? && permission in grant.permissions {
        covered := covered + (grant.pipelines * pipelines);
      }
      if grant.scope == Some(Project) && permission in grant.permissions {
        covered := covered + pipelines;
      }
    }
  }

  method Decide(request: Request, rows: seq<Assignment>) returns (r: Decision)
    ensures r.allowed == Allows(request, AssignedNames(rows, request.target))
    ensures r.reason == ReasonFor(request, AssignedNames(rows, request.target))
    ensures request.policy.Some? && request.scope.None? && r.reason.MissingPipelines? ==>
              r.missing == (set pipeline | pipeline in request.pipelines
                && !IsCovered(request.policy.value, AssignedNames(rows, request.target), request.permission, pipeline))
    ensures r.reason.NoMatchingAssignment? || r.reason.StaleAssignment? ==> r.missing == request.pipelines
    ensures r.reason.Granted? || r.reason.MissingPermission? ==> r.missing == {}
    ensures r.reason.Granted? || r.reason.MissingPipelines? ==>
              r.matched == MatchedRoles(request, AssignedNames(rows, request.target))
  {
    hide HasScoped, RoleCovers;
    if request.isAdmin {
      return Decision(true, SystemAdmin, {ADMIN_ROLE}, {});
    }
    if request.policy.None? {
      return Decision(false, PolicyAbsent, {}, {});
    }
    var policy := request.policy.value;
    var names := AssignedNames(rows, request.target);
    var held := names * policy.Keys;
    if held == {} {
      NothingAssigned(request, names);
      return Decision(false, if names == {} then NoMatchingAssignment else StaleAssignment, {}, request.pipelines);
    }
    if request.scope.Some? {
      var matching := MatchingRoles(policy, held, request.permission, request.scope.value);
      ScopedAmong(policy, names, request.permission, request.scope.value, matching);
      return Decision(matching != {}, if matching != {} then Granted else MissingPermission, matching, {});
    }
    if request.pipelines == {} {
      return Decision(false, EmptyPipelineScope, {}, {});
    }
    var matched, covered := CoveringRoles(policy, held, request.permission, request.pipelines);
    CoveredAmong(policy, names, request.permission);
    var missing := request.pipelines - covered;
    NothingMissing(policy, names, request.permission, request.pipelines, covered);
    return Decision(missing == {}, if missing == {} then Granted else MissingPipelines, matched, missing);
  }

  lemma NothingAssigned(request: Request, names: set<Text>)
    requires !request.isAdmin && request.policy.Some? && names * request.policy.value.Keys == {}
    ensures !Allows(request, names)
  {
    hide HasScoped, RoleCovers;
    var policy := request.policy.value;
    assert forall name :: name in names && name in policy ==> name in names * policy.Keys;
  }

  lemma ScopedAmong(policy: Policy, names: set<Text>, permission: Permission, scope: Scope, matching: set<Text>)
    requires matching == set name | name in names * policy.Keys && HasScoped(policy[name], permission, scope)
    ensures matching != {} <==> IsScoped(policy, names, permission, scope)
  {
    hide HasScoped;
    if IsScoped(policy, names, permission, scope) {
      var name :| name in names && name in policy && HasScoped(policy[name], permission, scope);
      assert name in matching;
    }
    if name :| name in matching {
      assert name in names && name in policy && HasScoped(policy[name], permission, scope);
    }
  }

  lemma NothingMissing(policy: Policy, names: set<Text>, permission: Permission, pipelines: set<Text>, covered: set<Text>)
    requires covered == set pipeline | pipeline in pipelines && IsCovered(policy, names * policy.Keys, permission, pipeline)
    ensures pipelines - covered == set pipeline | pipeline in pipelines && !IsCovered(policy, names, permission, pipeline)
    ensures pipelines - covered == {} <==>
            forall pipeline :: pipeline in pipelines ==> IsCovered(policy, names, permission, pipeline)
  {
    CoveredAmong(policy, names, permission);
    hide IsCovered;
    if forall pipeline :: pipeline in pipelines ==> IsCovered(policy, names, permission, pipeline) {
      assert pipelines - covered == {};
    }
    if pipelines - covered == {} {
      forall pipeline | pipeline in pipelines ensures IsCovered(policy, names, permission, pipeline) {
        assert pipeline !in pipelines - covered;
      }
    }
  }

  lemma CoveredAmong(policy: Policy, names: set<Text>, permission: Permission)
    ensures forall pipeline ::
              IsCovered(policy, names * policy.Keys, permission, pipeline) <==> IsCovered(policy, names, permission, pipeline)
  {
    hide RoleCovers;
  }

  method MatchingRoles(policy: Policy, held: set<Text>, permission: Permission, scope: Scope) returns (matching: set<Text>)
    requires held <= policy.Keys
    ensures matching == set name | name in held && HasScoped(policy[name], permission, scope)
  {
    hide HasScoped;
    matching := {};
    var left := held;
    while left != {}
      invariant left <= held && matching <= held
      invariant forall name :: name in held && name !in left ==> (name in matching <==> HasScoped(policy[name], permission, scope))
      invariant matching * left == {}
      decreases |left|
    {
      var name :| name in left;
      left := left - {name};
      var found := MatchScoped(policy[name], permission, scope);
      if found {
        matching := matching + {name};
      }
    }
  }

  function CoveredSet(policy: Policy, done: set<Text>, permission: Permission, pipelines: set<Text>): set<Text> {
    set pipeline | pipeline in pipelines && IsCovered(policy, done, permission, pipeline)
  }

  function CoveringSet(policy: Policy, done: set<Text>, permission: Permission, pipelines: set<Text>): set<Text> {
    set name | name in done * policy.Keys && CoversAny(policy[name], permission, pipelines)
  }

  method CoveringRoles(policy: Policy, held: set<Text>, permission: Permission, pipelines: set<Text>)
    returns (matched: set<Text>, covered: set<Text>)
    requires held <= policy.Keys
    ensures matched == CoveringSet(policy, held, permission, pipelines)
    ensures covered == CoveredSet(policy, held, permission, pipelines)
  {
    hide RoleCovers, CoveredSet, CoveringSet;
    matched, covered := {}, {};
    NothingCovers(policy, permission, pipelines);
    var left := held;
    ghost var done: set<Text> := {};
    while left != {}
      invariant left <= held && done == held - left
      invariant matched == CoveringSet(policy, done, permission, pipelines)
      invariant covered == CoveredSet(policy, done, permission, pipelines)
      decreases |left|
    {
      var name :| name in left;
      left := left - {name};
      var own := CoveredBy(policy[name], permission, pipelines);
      CoveredMore(policy, done, name, permission, pipelines, own);
      if own != {} {
        matched := matched + {name};
      }
      covered := covered + own;
      done := done + {name};
    }
    assert done == held;
  }

  lemma NothingCovers(policy: Policy, permission: Permission, pipelines: set<Text>)
    ensures CoveringSet(policy, {}, permission, pipelines) == {} && CoveredSet(policy, {}, permission, pipelines) == {}
  {
  }

  /** One more role covers what it covers. */
  lemma CoveredMore(policy: Policy, done: set<Text>, name: Text, permission: Permission, pipelines: set<Text>, own: set<Text>)
    requires name in policy && own == set pipeline | pipeline in pipelines && RoleCovers(policy[name], permission, pipeline)
    ensures CoveredSet(policy, done + {name}, permission, pipelines) == CoveredSet(policy, done, permission, pipelines) + own
    ensures CoveringSet(policy, done + {name}, permission, pipelines) ==
            CoveringSet(policy, done, permission, pipelines) + if own != {} then {name} else {}
  {
    hide RoleCovers, CoversAny;
    OwnCovers(policy[name], permission, pipelines, own);
    forall pipeline | pipeline in pipelines
      ensures IsCovered(policy, done + {name}, permission, pipeline) <==>
              IsCovered(policy, done, permission, pipeline) || pipeline in own
    {
      if IsCovered(policy, done, permission, pipeline) {
        var other :| other in done && other in policy && RoleCovers(policy[other], permission, pipeline);
        assert other in done + {name};
      } else if pipeline in own {
        assert name in done + {name};
      }
    }
  }

  lemma OwnCovers(role: Role, permission: Permission, pipelines: set<Text>, own: set<Text>)
    requires own == set pipeline | pipeline in pipelines && RoleCovers(role, permission, pipeline)
    ensures own != {} <==> CoversAny(role, permission, pipelines)
  {
    hide RoleCovers;
    if pipeline :| pipeline in pipelines && RoleCovers(role, permission, pipeline) {
      assert pipeline in own;
    }
  }

  /** The pipelines the summary lists for a permission: of a project-wide grant, those of the
      project; of a pipeline grant, those it names. */
  predicate IsSummarized(policy: Policy, names: set<Text>, permission: Permission, project: set<Text>, pipeline: Text) {
    exists name :: name in names && name in policy && RoleSummarizes(policy[name], permission, project, pipeline)
  }

  predicate RoleSummarizes(role: Role, permission: Permission, project: set<Text>, pipeline: Text) {
    exists k :: 0 <= k < |role.grants| && GrantSummarizes(role.grants[k], permission, project, pipeline)
  }

  predicate GrantSummarizes(grant: Grant, permission: Permission, project: set<Text>, pipeline: Text) {
    && permission in grant.permissions
    && ((grant.scope == Some(Project) && pipeline in project) || (grant.scope.None? && pipeline in grant.pipelines))
  }

  method CoveredPipelines(grants: seq<Grant>, permission: Permission, project: set<Text>) returns (covered: set<Text>)
    ensures forall pipeline :: pipeline in covered <==>
              exists k :: 0 <= k < |grants| && GrantSummarizes(grants[k], permission, project, pipeline)
  {
    covered := {};
    for k := 0 to |grants|
      invariant forall pipeline :: pipeline in covered <==>
        exists j :: 0 <= j < k && GrantSummarizes(grants[j], permission, project, pipeline)
    {
      if permission !in grants[k].permissions {
        continue;
      }
      if grants[k].scope == Some(Project) {
        covered := covered + project;
      }
      if grants[k].scope.None? {
        covered := covered + grants[k].pipelines;
      }
    }
  }

  /** The grants of the assigned roles, one role after the other. */
  method CollectGrants(policy: Policy, held: set<Text>) returns (grants: seq<Grant>)
    requires held <= policy.Keys
    ensures forall grant :: grant in grants <==> exists name :: name in held && grant in policy[name].grants
  {
    grants := [];
    var left := held;
    while left != {}
      invariant left <= held
      invariant forall grant :: grant in grants <==> exists name :: name in held && name !in left && grant in policy[name].grants
      decreases |left|
    {
      var name :| name in left;
      left := left - {name};
      grants := grants + policy[name].grants;
    }
  }

  method ScopedPermissionGranted(grants: seq<Grant>, permission: Permission) returns (granted: bool)
    ensures granted <==> exists k :: 0 <= k < |grants| && grants[k].scope.Some? && permission in grants[k].permissions
  {
    for k := 0 to |grants|
      invariant forall j :: 0 <= j < k ==> grants[j].scope.None? || permission !in grants[j].permissions
    {
      if grants[k].scope.Some? && permission in grants[k].permissions {
        return true;
      }
    }
    return false;
  }

  /** What the summary lists for someone who is no administrator. */
  ghost predicate IsSummaryOf(c: Capabilities, policy: Policy, names: set<Text>, project: set<Text>) {
    && !c.isAdmin && c.staleRoles == names - policy.Keys
    && (forall permission :: permission in c.permissions <==>
          permission in PROJECT_PERMISSIONS + TARGET_PERMISSIONS && IsListed(policy, names, permission))
    && c.pipelinePermissions.Keys <= PIPELINE_PERMISSIONS
    && (forall permission, pipeline :: permission in PIPELINE_PERMISSIONS ==>
          (permission in c.pipelinePermissions && pipeline in c.pipelinePermissions[permission]
           <==> IsSummarized(policy, names, permission, project, pipeline)))
  }

  /** The summary of someone who is no administrator. */
  method Summarize(rows: seq<Assignment>, target: Option<Text>, policy: Option<Policy>, project: set<Text>) returns (r: Capabilities)
    ensures IsSummaryOf(r, if policy.Some? then policy.value else map[], AssignedNames(rows, target), project)
  {
    hide HasAnyScoped, RoleSummarizes;
    var names := AssignedNames(rows, target);
    var roles := if policy.Some? then policy.value else map[];
    var grants := CollectGrants(roles, names * roles.Keys);
    var scoped := ScopedPermissions(roles, names, grants);
    var pipelines := PipelinePermissions(roles, names, grants, project);
    return Capabilities(false, scoped, pipelines, names - roles.Keys);
  }

  /** The summary of anyone; an administrator has every permission on every pipeline. */
  method CapabilitiesOf(isAdmin: bool, rows: seq<Assignment>, target: Option<Text>, policy: Option<Policy>, project: set<Text>)
    returns (r: Capabilities)
    ensures r.isAdmin == isAdmin
    ensures isAdmin ==> r.permissions == PROJECT_PERMISSIONS + TARGET_PERMISSIONS && r.staleRoles == {}
    ensures isAdmin ==> r.pipelinePermissions == map permission | permission in PIPELINE_PERMISSIONS :: project
    ensures !isAdmin ==> IsSummaryOf(r, if policy.Some? then policy.value else map[], AssignedNames(rows, target), project)
  {
    if isAdmin {
      return Capabilities(true, PROJECT_PERMISSIONS + TARGET_PERMISSIONS,
                          map permission | permission in PIPELINE_PERMISSIONS :: project, {});
    }
    hide IsListed, IsSummarized;
    r := Summarize(rows, target, policy, project);
  }

  method ScopedPermissions(roles: Policy, names: set<Text>, grants: seq<Grant>) returns (scoped: set<Permission>)
    requires forall grant :: grant in grants <==> exists name :: name in names * roles.Keys && grant in roles[name].grants
    ensures forall permission :: permission in scoped <==>
              permission in PROJECT_PERMISSIONS + TARGET_PERMISSIONS && IsListed(roles, names, permission)
  {
    hide IsListed;
    scoped := {};
    var left := PROJECT_PERMISSIONS + TARGET_PERMISSIONS;
    while left != {}
      invariant left <= PROJECT_PERMISSIONS + TARGET_PERMISSIONS
      invariant forall permission :: permission in scoped <==>
        permission in PROJECT_PERMISSIONS + TARGET_PERMISSIONS && permission !in left && IsListed(roles, names, permission)
      decreases |left|
    {
      var permission :| permission in left;
      left := left - {permission};
      var granted := ScopedPermissionGranted(grants, permission);
      ListedByGrants(roles, names, grants, permission);
      if granted {
        scoped := scoped + {permission};
      }
    }
  }

  method PipelinePermissions(roles: Policy, names: set<Text>, grants: seq<Grant>, project: set<Text>) returns (r: map<Permission, set<Text>>)
    requires forall grant :: grant in grants <==> exists name :: name in names * roles.Keys && grant in roles[name].grants
    ensures r.Keys <= PIPELINE_PERMISSIONS
    ensures forall permission, pipeline :: permission in PIPELINE_PERMISSIONS ==>
              (permission in r && pipeline in r[permission] <==> IsSummarized(roles, names, permission, project, pipeline))
  {
    hide IsSummarized;
    r := map[];
    var left := PIPELINE_PERMISSIONS;
    while left != {}
      invariant left <= PIPELINE_PERMISSIONS && r.Keys <= PIPELINE_PERMISSIONS - left
      invariant forall permission, pipeline :: permission in PIPELINE_PERMISSIONS - left ==>
        (permission in r && pipeline in r[permission] <==> IsSummarized(roles, names, permission, project, pipeline))
      decreases |left|
    {
      var permission :| permission in left;
      left := left - {permission};
      var covered := CoveredPipelines(grants, permission, project);
      SummarizedByGrants(roles, names, grants, permission, project);
      ghost var before := r;
      assert permission !in before;
      if covered != {} {
        r := r[permission := covered];
      }
      forall other, pipeline | other in PIPELINE_PERMISSIONS - left
        ensures other in r && pipeline in r[other] <==> IsSummarized(roles, names, other, project, pipeline)
      {
        if other == permission {
          assert pipeline in covered <==> IsSummarized(roles, names, permission, project, pipeline);
        } else {
          assert other in PIPELINE_PERMISSIONS - (left + {permission});
        }
      }
    }
  }

  lemma ListedByGrants(roles: Policy, names: set<Text>, grants: seq<Grant>, permission: Permission)
    requires forall grant :: grant in grants <==> exists name :: name in names * roles.Keys && grant in roles[name].grants
    ensures IsListed(roles, names, permission) <==>
            exists k :: 0 <= k < |grants| && grants[k].scope.Some? && permission in grants[k].permissions
  {
    if IsListed(roles, names, permission) {
      var name :| name in names && name in roles && HasAnyScoped(roles[name], permission);
      var k :| 0 <= k < |roles[name].grants| && roles[name].grants[k].scope.Some? && permission in roles[name].grants[k].permissions;
      assert name in names * roles.Keys && roles[name].grants[k] in grants;
    }
    if k :| 0 <= k < |grants| && grants[k].scope.Some? && permission in grants[k].permissions {
      assert grants[k] in grants;
      var name :| name in names * roles.Keys && grants[k] in roles[name].grants;
      assert HasAnyScoped(roles[name], permission);
    }
  }

  lemma SummarizedByGrants(roles: Policy, names: set<Text>, grants: seq<Grant>, permission: Permission, project: set<Text>)
    requires forall grant :: grant in grants <==> exists name :: name in names * roles.Keys && grant in roles[name].grants
    ensures forall pipeline :: IsSummarized(roles, names, permission, project, pipeline) <==>
              exists k :: 0 <= k < |grants| && GrantSummarizes(grants[k], permission, project, pipeline)
  {
    hide GrantSummarizes;
    forall pipeline
      ensures IsSummarized(roles, names, permission, project, pipeline) <==>
              exists k :: 0 <= k < |grants| && GrantSummarizes(grants[k], permission, project, pipeline)
    {
      if IsSummarized(roles, names, permission, project, pipeline) {
        var name :| name in names && name in roles && RoleSummarizes(roles[name], permission, project, pipeline);
        var k :| 0 <= k < |roles[name].grants| && GrantSummarizes(roles[name].grants[k], permission, project, pipeline);
        assert name in names * roles.Keys && roles[name].grants[k] in grants;
      }
      if k :| 0 <= k < |grants| && GrantSummarizes(grants[k], permission, project, pipeline) {
        assert grants[k] in grants;
        var name :| name in names * roles.Keys && grants[k] in roles[name].grants;
        assert RoleSummarizes(roles[name], permission, project, pipeline);
      }
    }
  }

  // ------------------------------------------------------------------------------------------
  // Decisions and summaries agree

  lemma SummarizedIsCovered(policy: Policy, names: set<Text>, permission: Permission, project: set<Text>, pipeline: Text)
    requires pipeline in project
    ensures IsSummarized(policy, names, permission, project, pipeline) <==> IsCovered(policy, names, permission, pipeline)
  {
    forall name | name in names && name in policy
      ensures RoleSummarizes(policy[name], permission, project, pipeline) <==> RoleCovers(policy[name], permission, pipeline)
    {
      var grants := policy[name].grants;
      assert forall k :: 0 <= k < |grants| ==>
        (GrantSummarizes(grants[k], permission, project, pipeline) <==> Covers(grants[k], permission, pipeline));
    }
  }

  /** What the policy compiler accepts: a grant carries only the permissions of its scope. */
  predicate ValidPolicy(policy: Policy) {
    forall name, k :: name in policy && 0 <= k < |policy[name].grants| ==> ValidGrant(policy[name].grants[k])
  }

  predicate ValidGrant(grant: Grant) {
    grant.permissions <= match grant.scope
                         case None => PIPELINE_PERMISSIONS
                         case Some(Project) => PROJECT_PERMISSIONS
                         case Some(Target) => TARGET_PERMISSIONS
  }

  /** The summary lists every one of the pipelines for the permission. */
  predicate ListsPipelines(c: Capabilities, permission: Permission, pipelines: set<Text>) {
    permission in c.pipelinePermissions && pipelines <= c.pipelinePermissions[permission]
  }

  /** A request for pipelines of the project and a pipeline permission is allowed exactly when the
      summary lists every pipeline.  No other permission is listed for pipelines. */
  lemma PipelinesAgree(c: Capabilities, request: Request, names: set<Text>, project: set<Text>)
    requires !request.isAdmin && request.policy.Some? && request.scope.None?
    requires request.pipelines != {} && request.pipelines <= project
    requires IsSummaryOf(c, request.policy.value, names, project)
    ensures var listed := ListsPipelines(c, request.permission, request.pipelines);
            if request.permission in PIPELINE_PERMISSIONS then Allows(request, names) <==> listed else !listed
  {
    hide IsSummarized, IsCovered;
    var any :| any in request.pipelines;
    forall pipeline | pipeline in request.pipelines
      ensures IsSummarized(request.policy.value, names, request.permission, project, pipeline)
         <==> IsCovered(request.policy.value, names, request.permission, pipeline)
    {
      SummarizedIsCovered(request.policy.value, names, request.permission, project, pipeline);
    }
    if Allows(request, names) && request.permission in PIPELINE_PERMISSIONS {
      assert IsSummarized(request.policy.value, names, request.permission, project, any);
    }
  }

  /** With a valid policy, the two disagree exactly on permissions that are no pipeline permissions
      and that an assigned role has for the whole project. */
  lemma PipelinesDisagree(c: Capabilities, request: Request, names: set<Text>, project: set<Text>)
    requires !request.isAdmin && request.policy.Some? && request.scope.None? && ValidPolicy(request.policy.value)
    requires request.pipelines != {} && request.pipelines <= project
    requires IsSummaryOf(c, request.policy.value, names, project)
    ensures (Allows(request, names) <==> ListsPipelines(c, request.permission, request.pipelines)) <==>
            (request.permission in PIPELINE_PERMISSIONS
             || !IsScoped(request.policy.value, names, request.permission, Project))
  {
    hide IsSummaryOf, ListsPipelines, IsScoped, IsCovered;
    PipelinesAgree(c, request, names, project);
    if request.permission !in PIPELINE_PERMISSIONS {
      var any :| any in request.pipelines;
      forall pipeline
        ensures IsCovered(request.policy.value, names, request.permission, pipeline) <==>
                IsScoped(request.policy.value, names, request.permission, Project)
      {
        CoveredByProject(request.policy.value, names, request.permission, pipeline);
      }
    }
  }

  /** Only a project grant covers a pipeline for any other permission. */
  lemma CoveredByProject(policy: Policy, names: set<Text>, permission: Permission, pipeline: Text)
    requires ValidPolicy(policy) && permission !in PIPELINE_PERMISSIONS
    ensures IsCovered(policy, names, permission, pipeline) <==> IsScoped(policy, names, permission, Project)
  {
    forall name | name in names && name in policy
      ensures RoleCovers(policy[name], permission, pipeline) <==> HasScoped(policy[name], permission, Project)
    {
      var grants := policy[name].grants;
      forall k | 0 <= k < |grants|
        ensures Covers(grants[k], permission, pipeline) <==> MatchesScope(grants[k], permission, Project)
      {
        assert ValidGrant(grants[k]);
      }
    }
  }

  /** Such a request: reloading the project is no pipeline permission, yet a project grant of it
      allows a pipeline request that no summary lists. */
  lemma ReloadIsAllowedUnlisted(c: Capabilities)
    ensures var policy := map["operator" := Role("operator", [Grant({ProjectReload}, {}, Some(Project))])];
            var request := Request(false, 0, ProjectReload, "p", None, None, {"a"}, Some(policy));
            && ValidPolicy(policy) && Allows(request, {"operator"})
            && (IsSummaryOf(c, policy, {"operator"}, {"a"}) ==> !ListsPipelines(c, ProjectReload, {"a"}))
  {
    var role := Role("operator", [Grant({ProjectReload}, {}, Some(Project))]);
    var policy := map["operator" := role];
    assert MatchesScope(role.grants[0], ProjectReload, Project);
    assert HasScoped(role, ProjectReload, Project);
    assert Covers(role.grants[0], ProjectReload, "a");
    assert RoleCovers(role, ProjectReload, "a");
    assert IsCovered(policy, {"operator"}, ProjectReload, "a");
  }

  lemma ScopedIsListed(policy: Policy, names: set<Text>, permission: Permission, scope: Scope)
    ensures IsScoped(policy, names, permission, scope) ==> IsListed(policy, names, permission)
    ensures IsListed(policy, names, permission) ==> IsScoped(policy, names, permission, Target)
    ensures ValidPolicy(policy) && IsListed(policy, names, permission) ==>
              permission in PROJECT_PERMISSIONS + TARGET_PERMISSIONS
  {
    if IsScoped(policy, names, permission, scope) {
      var name :| name in names && name in policy && HasScoped(policy[name], permission, scope);
      assert HasAnyScoped(policy[name], permission);
    }
    if IsListed(policy, names, permission) {
      var name :| name in names && name in policy && HasAnyScoped(policy[name], permission);
      var k :| 0 <= k < |policy[name].grants| && policy[name].grants[k].scope.Some? && permission in policy[name].grants[k].permissions;
      var grant := policy[name].grants[k];
      assert grant.scope.value.Project? || grant.scope.value.Target?;
      assert ValidPolicy(policy) ==> ValidGrant(grant);
      assert MatchesScope(grant, permission, Target);
      assert HasScoped(policy[name], permission, Target);
    }
  }

  /** With a valid policy, a target request is allowed exactly when the summary lists the
      permission, a project request only then. */
  lemma ScopesAgree(c: Capabilities, request: Request, names: set<Text>, project: set<Text>)
    requires !request.isAdmin && request.policy.Some? && request.scope.Some? && ValidPolicy(request.policy.value)
    requires IsSummaryOf(c, request.policy.value, names, project)
    ensures Allows(request, names) ==> request.permission in c.permissions
    ensures request.scope == Some(Target) ==> (Allows(request, names) <==> request.permission in c.permissions)
  {
    hide IsListed, IsScoped, IsSummarized, ValidPolicy;
    ScopedIsListed(request.policy.value, names, request.permission, request.scope.value);
  }

  /** Every grant by which an assigned role has the permission beside the pipelines is for targets. */
  predicate IsForTargets(policy: Policy, names: set<Text>, permission: Permission) {
    forall name, k :: name in names && name in policy && 0 <= k < |policy[name].grants| ==>
      GrantsTargetsOnly(policy[name].grants[k], permission)
  }

  predicate GrantsTargetsOnly(grant: Grant, permission: Permission) {
    permission in grant.permissions && grant.scope.Some? ==> grant.scope.value.Target?
  }

  /** A listed permission is refused for a project request exactly when it is for targets. */
  lemma ListedForTargetsOnly(c: Capabilities, request: Request, names: set<Text>, project: set<Text>)
    requires !request.isAdmin && request.policy.Some? && request.scope == Some(Project)
    requires IsSummaryOf(c, request.policy.value, names, project) && request.permission in c.permissions
    ensures !Allows(request, names) <==> IsForTargets(request.policy.value, names, request.permission)
  {
    hide IsSummaryOf;
    var policy, permission := request.policy.value, request.permission;
    if !IsForTargets(policy, names, permission) {
      var name, k :| name in names && name in policy && 0 <= k < |policy[name].grants| &&
        !GrantsTargetsOnly(policy[name].grants[k], permission);
      assert MatchesScope(policy[name].grants[k], permission, Project);
      assert HasScoped(policy[name], permission, Project);
    }
    if Allows(request, names) {
      var name :| name in names && name in policy && HasScoped(policy[name], permission, Project);
      var k :| 0 <= k < |policy[name].grants| && MatchesScope(policy[name].grants[k], permission, Project);
      assert !GrantsTargetsOnly(policy[name].grants[k], permission);
    }
  }

  /** There are such permissions: managing automation at targets. */
  lemma ListedForTargetsOnlyHere()
    ensures var grant := Grant({AutomationManage}, {}, Some(Target));
            var policy := map["operator" := Role("operator", [grant])];
            var request := Request(false, 0, AutomationManage, "p", None, Some(Project), {}, Some(policy));
            && ValidPolicy(policy) && IsListed(policy, {"operator"}, AutomationManage) && !Allows(request, {"operator"})
  {
    var grant := Grant({AutomationManage}, {}, Some(Target));
    var role := Role("operator", [grant]);
    assert role.grants[0].scope.Some? && AutomationManage in role.grants[0].permissions;
    assert HasAnyScoped(role, AutomationManage);
    assert !HasScoped(role, AutomationManage, Project);
  }

  /** Deciding several non-empty sets of pipelines at once is deciding each. */
  lemma UnionIsConjunction(request: Request, a: set<Text>, b: set<Text>, names: set<Text>)
    requires request.scope.None? && a != {} && b != {}
    ensures Allows(request.(pipelines := a + b), names) <==>
            Allows(request.(pipelines := a), names) && Allows(request.(pipelines := b), names)
  {
    hide IsCovered;
    assert a + b != {} by {
      var any :| any in a;
      assert any in a + b;
    }
    if !request.isAdmin && request.policy.Some? {
      assert Allows(request.(pipelines := a + b), names) ==>
        forall pipeline :: pipeline in a || pipeline in b ==> pipeline in a + b;
    }
  }

  /** More assignments never take an allowed request away. */
  lemma AssignmentsOnlyAdd(request: Request, rows: seq<Assignment>, more: seq<Assignment>)
    requires Allows(request, AssignedNames(rows, request.target))
    ensures Allows(request, AssignedNames(rows + more, request.target))
  {
    hide RoleCovers, HasScoped;
    var a, b := AssignedNames(rows, request.target), AssignedNames(rows + more, request.target);
    forall name | name in a ensures name in b {
      var k :| 0 <= k < |rows| && (rows[k].target.None? || rows[k].target == request.target) && rows[k].role == name;
      assert (rows + more)[k] == rows[k];
    }
  }

  /** Rows for other targets count for nothing, and every other row counts: rows that agree but for
      other targets assign the same roles, and so give the same decision and the same summary. */
  lemma OtherTargetsAreIgnored(request: Request, rows: seq<Assignment>, others: seq<Assignment>)
    requires forall row :: !IsElsewhere(row, request.target) ==> (row in rows <==> row in others)
    ensures var names, same := AssignedNames(rows, request.target), AssignedNames(others, request.target);
            && names == same
            && Allows(request, names) == Allows(request, same) && ReasonFor(request, names) == ReasonFor(request, same)
            && MatchedRoles(request, names) == MatchedRoles(request, same)
    ensures forall name :: name in AssignedNames(rows, request.target) <==>
                      exists row :: row in others && !IsElsewhere(row, request.target) && row.role == name
  {
    hide Allows, ReasonFor, MatchedRoles;
    NamesAreOfRows(rows, request.target);
    NamesAreOfRows(others, request.target);
    hide AssignedNames;
    assert AssignedNames(rows, request.target) == AssignedNames(others, request.target);
  }

  lemma NamesAreOfRows(rows: seq<Assignment>, target: Option<Text>)
    ensures forall name :: name in AssignedNames(rows, target) <==>
                      exists row :: row in rows && !IsElsewhere(row, target) && row.role == name
  {
    forall name ensures name in AssignedNames(rows, target) <==>
                        exists row :: row in rows && !IsElsewhere(row, target) && row.role == name
    {
      if name in AssignedNames(rows, target) {
        var k :| 0 <= k < |rows| && (rows[k].target.None? || rows[k].target == target) && rows[k].role == name;
        assert rows[k] in rows && !IsElsewhere(rows[k], target);
      }
      if row :| row in rows && !IsElsewhere(row, target) && row.role == name {
        var k :| 0 <= k < |rows| && rows[k] == row;
        assert rows[k].role == name;
      }
    }
  }
}
