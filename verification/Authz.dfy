/** What a key may do: the model-action ladder, the admin scopes, and the published role table
    (internal/authz/authz.go). */
module Authz {
  import opened KeyService

  datatype Action = Pull | Load | Infer

  const ROLE_ADMIN := "admin"
  const ROLE_USER := "user"
  const ROLE_READ_ONLY := "read-only"

  datatype Reason =
    DenyListed | AdminRole | ReadOnlyForbids(action: Action) | AllowListedUser | AllowListedReadOnly
    | NoGrantingRole | DenyByDefault

  /** The deciding role (empty when none decides), the reason, and the verdict. */
  datatype Decision = Decision(role: string, reason: Reason, allowed: bool)

  function Contains(xs: seq<string>, s: string): (r: bool)
    ensures r <==> s in xs
  {
    xs != [] && (xs[0] == s || Contains(xs[1..], s))
  }

  /** The precedence ladder: the first rule that fires decides. A role is named iff it decides, and it
      is one the key has; a grant is by admin, or for a model on the allow-list by user before read-only. */
  function Decide(key: APIKey, model: string, action: Action): (d: Decision)
    ensures d.allowed ==> d.role != ""
    ensures d.role != "" ==> d.role in key.grants.roles
    ensures d.allowed <==> d.reason == AdminRole || d.reason == AllowListedUser || d.reason == AllowListedReadOnly
    ensures d.reason == DenyListed <==> model in key.grants.denyModels
    ensures d.reason == AdminRole ==> d.role == ROLE_ADMIN
    ensures d.allowed && d.reason != AdminRole ==> model in key.grants.allowModels && ROLE_ADMIN !in key.grants.roles
    ensures d.reason == AllowListedUser ==> d.role == ROLE_USER
    ensures d.reason == AllowListedReadOnly ==> d.role == ROLE_READ_ONLY && action.Infer? && ROLE_USER !in key.grants.roles
    ensures d.reason.ReadOnlyForbids? ==> d.role == ROLE_READ_ONLY && d.reason.action == action && !action.Infer?
    ensures d.reason == NoGrantingRole ==> model in key.grants.allowModels && ROLE_USER !in key.grants.roles && ROLE_READ_ONLY !in key.grants.roles
    ensures d.reason == DenyByDefault ==> model !in key.grants.allowModels && ROLE_ADMIN !in key.grants.roles
  {
    assert |ROLE_ADMIN| == 5 && |ROLE_USER| == 4 && |ROLE_READ_ONLY| == 9;
    if Contains(key.grants.denyModels, model) then Decision("", DenyListed, false)
    else if Contains(key.grants.roles, ROLE_ADMIN) then Decision(ROLE_ADMIN, AdminRole, true)
    else if Contains(key.grants.roles, ROLE_READ_ONLY) && (action == Pull || action == Load) then
      Decision(ROLE_READ_ONLY, ReadOnlyForbids(action), false)
    else if Contains(key.grants.allowModels, model) then
      if Contains(key.grants.roles, ROLE_USER) then Decision(ROLE_USER, AllowListedUser, true)
      else if Contains(key.grants.roles, ROLE_READ_ONLY) then Decision(ROLE_READ_ONLY, AllowListedReadOnly, true)
      else Decision("", NoGrantingRole, false)
    else Decision("", DenyByDefault, false)
  }

  predicate May(key: APIKey, model: string, action: Action) { Decide(key, model, action).allowed }

  predicate HasScope(key: APIKey, scope: string) {
    Contains(key.grants.roles, ROLE_ADMIN) || Contains(key.grants.adminScopes, scope)
  }

  // ----- the lists -----

  /** b is a with some models added to the allow-list and some taken off the deny-list. */
  predicate Widens(a: APIKey, b: APIKey) {
    && a.grants.roles == b.grants.roles
    && (forall m :: m in a.grants.allowModels ==> m in b.grants.allowModels)
    && (forall m :: m in b.grants.denyModels ==> m in a.grants.denyModels)
  }

  /** Permission is monotone in the allow-list and antitone in the deny-list, and a change to
      the lists only ever matters for the models it is about. */
  lemma ListsAreMonotone(a: APIKey, b: APIKey, model: string, action: Action)
    requires a.grants.roles == b.grants.roles
    ensures Widens(a, b) && May(a, model, action) ==> May(b, model, action)
    ensures (model in a.grants.allowModels <==> model in b.grants.allowModels)
         && (model in a.grants.denyModels <==> model in b.grants.denyModels)
        ==> Decide(a, model, action) == Decide(b, model, action)
  {
  }

  // ----- the published role table -----

  datatype RoleInfo = RoleInfo(name: string, actions: set<Action>, everyModel: bool, everyScope: bool)

  const ALL_ROLES := [
    RoleInfo(ROLE_ADMIN, {Pull, Load, Infer}, true, true),
    RoleInfo(ROLE_USER, {Pull, Load, Infer}, false, false),
    RoleInfo(ROLE_READ_ONLY, {Infer}, false, false)
  ]

  /** What the table says of one role of the key: it grants the action, on every model or on
      those that are allow-listed and not deny-listed. */
  predicate RowGrants(row: RoleInfo, key: APIKey, model: string, action: Action) {
    && row.name in key.grants.roles
    && action in row.actions
    && (row.everyModel || (model in key.grants.allowModels && model !in key.grants.denyModels))
  }

  predicate TableGrants(key: APIKey, model: string, action: Action) {
    exists i :: 0 <= i < |ALL_ROLES| && RowGrants(ALL_ROLES[i], key, model, action)
  }

  /** A model on an admin key's deny-list: the table says every model, the ladder denies. */
  predicate DeniedAdmin(key: APIKey, model: string) {
    ROLE_ADMIN in key.grants.roles && model in key.grants.denyModels
  }

  /** A key that is both user and read-only, asking for what only user grants: the table says
      yes, the ladder lets read-only forbid it. */
  predicate ForbiddenUser(key: APIKey, model: string, action: Action) {
    && ROLE_ADMIN !in key.grants.roles && ROLE_USER in key.grants.roles && ROLE_READ_ONLY in key.grants.roles
    && action != Infer
    && model in key.grants.allowModels && model !in key.grants.denyModels
  }

  lemma TableRows(key: APIKey, model: string, action: Action)
    ensures TableGrants(key, model, action) <==>
      || ROLE_ADMIN in key.grants.roles
      || (&& (ROLE_USER in key.grants.roles || (ROLE_READ_ONLY in key.grants.roles && action == Infer))
          && model in key.grants.allowModels && model !in key.grants.denyModels)
  {
    var listed := model in key.grants.allowModels && model !in key.grants.denyModels;
    assert RowGrants(ALL_ROLES[0], key, model, action) <==> ROLE_ADMIN in key.grants.roles;
    assert RowGrants(ALL_ROLES[1], key, model, action) <==> ROLE_USER in key.grants.roles && listed;
    assert RowGrants(ALL_ROLES[2], key, model, action) <==>
      ROLE_READ_ONLY in key.grants.roles && action == Infer && listed;
  }

  /** The table says what the ladder decides in all but two situations, and in those it grants
      what the ladder denies. */
  lemma TableMirrorsLadder(key: APIKey, model: string, action: Action)
    ensures (TableGrants(key, model, action) <==> May(key, model, action))
      <==> !DeniedAdmin(key, model) && !ForbiddenUser(key, model, action)
    ensures May(key, model, action) ==> TableGrants(key, model, action)
  {
    TableRows(key, model, action);
  }

  /** The admin surface has no such exceptions: a scope is held exactly when it is listed or
      when the table lets one of the key's roles hold every scope. */
  lemma ScopesMirrorTable(key: APIKey, scope: string)
    ensures HasScope(key, scope) <==>
      || scope in key.grants.adminScopes
      || exists i :: 0 <= i < |ALL_ROLES| && ALL_ROLES[i].name in key.grants.roles && ALL_ROLES[i].everyScope
  {
    assert ALL_ROLES[0].name == ROLE_ADMIN && ALL_ROLES[0].everyScope;
  }
}
