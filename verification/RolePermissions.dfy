/** The permission editor for dynamic roles: what a series of toggles saves, and what the saved role
    then allows. */
module RolePermissions {
  import opened Wrappers
  import opened Text
  import opened OrganizationRoles

  datatype Resource = Organization | Member | Invitation | Team | AccessControl

  const RESOURCES: seq<Resource> := [Organization, Member, Invitation, Team, AccessControl]

  /** The actions that can be granted on a resource, in canonical order. */
  function Statement(resource: Resource): seq<string> {
    match resource
    case Organization => ["update", "delete"]
    case Member => ["create", "update", "delete"]
    case Invitation => ["create", "cancel"]
    case Team => ["create", "update", "delete"]
    case AccessControl => ["create", "read", "update", "delete"]
  }

  type PermissionMap = map<Resource, seq<string>>

  datatype Draft = Draft(role: string, permission: PermissionMap)

  const EMPTY_DRAFT := Draft("", map[])

  function Actions(permission: PermissionMap, resource: Resource): seq<string> {
    if resource in permission then permission[resource] else []
  }

  /** The actions that were selected, in the order of the statement. */
  function Keep(allowed: seq<string>, selected: set<string>): seq<string> {
    if allowed == [] then []
    else (if allowed[0] in selected then [allowed[0]] else []) + Keep(allowed[1..], selected)
  }

  lemma {:induction false} KeepMembers(allowed: seq<string>, selected: set<string>, action: string)
    ensures action in Keep(allowed, selected) <==> action in allowed && action in selected
  {
    if allowed == [] {
    } else {
      KeepMembers(allowed[1..], selected, action);
    }
  }

  function AsSet(actions: seq<string>): set<string> { set a | a in actions }

  function Toggle(draft: Draft, resource: Resource, action: string, enabled: bool): Draft {
    var before := AsSet(Actions(draft.permission, resource));
    var selected := if enabled then before + {action} else before - {action};
    draft.(permission := draft.permission[resource := Keep(Statement(resource), selected)])
  }

  function Normal(permission: PermissionMap, resource: Resource): seq<string> {
    Keep(Statement(resource), AsSet(Actions(permission, resource)))
  }

  /** The payload that is saved: normal actions, and only for resources that have some. */
  function Payload(permission: PermissionMap): PermissionMap { PayloadOf(permission, RESOURCES) }

  function PayloadOf(permission: PermissionMap, resources: seq<Resource>): PermissionMap {
    map resource | resource in resources && Normal(permission, resource) != [] :: Normal(permission, resource)
  }

  lemma PayloadOfMore(permission: PermissionMap, resources: seq<Resource>, more: Resource)
    ensures PayloadOf(permission, resources + [more]) ==
            if Normal(permission, more) == [] then PayloadOf(permission, resources)
            else PayloadOf(permission, resources)[more := Normal(permission, more)]
  {
    hide Normal;
  }

  method ToggleRolePermission(draft: Draft, resource: Resource, action: string, enabled: bool) returns (r: Draft)
    ensures r == Toggle(draft, resource, action, enabled)
  {
    var selected := AsSet(Actions(draft.permission, resource));
    if enabled { selected := selected + {action}; } else { selected := selected - {action}; }
    r := draft.(permission := draft.permission[resource := Keep(Statement(resource), selected)]);
  }

  method ToRolePermissionPayload(permission: PermissionMap) returns (normalized: PermissionMap)
    ensures normalized == Payload(permission)
  {
    hide PayloadOf, Statement, Keep;
    var resources := RESOURCES;
    normalized := map[];
    PayloadOfNone(permission);
    for i := 0 to |resources|
      invariant normalized == PayloadOf(permission, resources[..i])
    {
      var resource := resources[i];
      var selected := AsSet(Actions(permission, resource));
      var actions := Keep(Statement(resource), selected);
      assert resources[..i + 1] == resources[..i] + [resource];
      PayloadOfMore(permission, resources[..i], resource);
      if |actions| > 0 { normalized := normalized[resource := actions]; }
    }
    assert resources[..|resources|] == resources;
  }

  lemma PayloadOfNone(permission: PermissionMap)
    ensures PayloadOf(permission, []) == map[]
  {}

  // Series of toggles.

  datatype Toggling = Toggling(resource: Resource, action: string, enabled: bool)

  function ToggleAll(draft: Draft, toggles: seq<Toggling>): Draft {
    if toggles == [] then draft
    else
      var before := ToggleAll(draft, toggles[..|toggles| - 1]);
      var last := toggles[|toggles| - 1];
      Toggle(before, last.resource, last.action, last.enabled)
  }

  /** What the last toggle of the pair asked for, if the pair was toggled. */
  function LastToggle(toggles: seq<Toggling>, resource: Resource, action: string): Option<bool> {
    if toggles == [] then None
    else
      var last := toggles[|toggles| - 1];
      if last.resource == resource && last.action == action then Some(last.enabled)
      else LastToggle(toggles[..|toggles| - 1], resource, action)
  }

  predicate Grants(permission: PermissionMap, resource: Resource, action: string) {
    action in Actions(permission, resource)
  }

  lemma EveryResourceIsListed(resource: Resource)
    ensures resource in RESOURCES
  {
    assert RESOURCES[0] == Organization && RESOURCES[1] == Member && RESOURCES[2] == Invitation;
    assert RESOURCES[3] == Team && RESOURCES[4] == AccessControl;
  }

  /** The payload grants what the draft grants, as far as it can be granted at all. */
  lemma PayloadGrants(permission: PermissionMap, resource: Resource, action: string)
    ensures Grants(Payload(permission), resource, action) <==>
            action in Statement(resource) && Grants(permission, resource, action)
  {
    hide Statement, Keep;
    EveryResourceIsListed(resource);
    KeepMembers(Statement(resource), AsSet(Actions(permission, resource)), action);
  }

  lemma ToggleGrants(draft: Draft, t: Toggling, resource: Resource, action: string)
    requires action in Statement(resource)
    ensures Grants(Toggle(draft, t.resource, t.action, t.enabled).permission, resource, action) <==>
            if t.resource == resource && t.action == action then t.enabled
            else Grants(draft.permission, resource, action)
  {
    hide Statement, Keep;
    var before := AsSet(Actions(draft.permission, t.resource));
    KeepMembers(Statement(t.resource), if t.enabled then before + {t.action} else before - {t.action}, action);
  }

  lemma {:induction false} TogglesGrant(draft: Draft, toggles: seq<Toggling>, resource: Resource, action: string)
    requires action in Statement(resource)
    ensures Grants(ToggleAll(draft, toggles).permission, resource, action) <==>
            if LastToggle(toggles, resource, action).None? then Grants(draft.permission, resource, action)
            else LastToggle(toggles, resource, action).value
  {
    hide Statement, Keep;
    if toggles == [] {
    } else {
      TogglesGrant(draft, toggles[..|toggles| - 1], resource, action);
      ToggleGrants(ToggleAll(draft, toggles[..|toggles| - 1]), toggles[|toggles| - 1], resource, action);
    }
  }

  /** After any toggles of an empty draft, the payload holds exactly the pairs whose last toggle
      enabled them. */
  lemma PayloadHoldsLastEnabled(toggles: seq<Toggling>, resource: Resource, action: string)
    ensures Grants(Payload(ToggleAll(EMPTY_DRAFT, toggles).permission), resource, action) <==>
            action in Statement(resource) && LastToggle(toggles, resource, action) == Some(true)
  {
    PayloadGrants(ToggleAll(EMPTY_DRAFT, toggles).permission, resource, action);
    if action in Statement(resource) {
      hide Statement;
      TogglesGrant(EMPTY_DRAFT, toggles, resource, action);
    }
  }

  // The shape of a payload.

  /** The actions appear in the order of the statement, each at most once. */
  ghost predicate InOrder(actions: seq<string>, allowed: seq<string>)
    decreases |allowed|
  {
    actions == [] ||
    (allowed != [] &&
     if actions[0] == allowed[0] then InOrder(actions[1..], allowed[1..]) else InOrder(actions, allowed[1..]))
  }

  lemma {:induction false} KeepInOrder(allowed: seq<string>, selected: set<string>)
    ensures InOrder(Keep(allowed, selected), allowed)
  {
    if allowed == [] {
    } else {
      KeepInOrder(allowed[1..], selected);
      if allowed[0] !in selected {
        assert Keep(allowed, selected) == Keep(allowed[1..], selected);
        var kept := Keep(allowed, selected);
        if kept != [] { KeepMembers(allowed, selected, kept[0]); }
      }
    }
  }

  lemma StatementsHaveNoRepeats(resource: Resource)
    ensures NoRepeats(Statement(resource))
  {
    assert "update"[0] != "delete"[0] && "create"[0] != "update"[0] && "create"[0] != "delete"[0];
    assert "create"[1] != "cancel"[1] && "read"[0] == 'r' && "update"[0] == 'u' && "delete"[0] == 'd'
        && "create"[0] == 'c';
  }

  lemma {:induction false} KeepNoRepeats(allowed: seq<string>, selected: set<string>)
    requires NoRepeats(allowed)
    ensures NoRepeats(Keep(allowed, selected))
  {
    if allowed == [] {
    } else {
      KeepNoRepeats(allowed[1..], selected);
      var rest := Keep(allowed[1..], selected);
      forall i | 0 <= i < |rest| ensures rest[i] != allowed[0] { KeepMembers(allowed[1..], selected, rest[i]); }
    }
  }

  /** A payload lists no empty resource, repeats no action and keeps the canonical order. */
  lemma PayloadIsCanonical(permission: PermissionMap, resource: Resource)
    requires resource in Payload(permission)
    ensures var actions := Payload(permission)[resource];
            actions != [] && NoRepeats(actions) && InOrder(actions, Statement(resource))
  {
    hide Statement, InOrder, NoRepeats, Keep;
    StatementsHaveNoRepeats(resource);
    KeepNoRepeats(Statement(resource), AsSet(Actions(permission, resource)));
    KeepInOrder(Statement(resource), AsSet(Actions(permission, resource)));
  }

  lemma {:induction false} KeepExtensional(allowed: seq<string>, s: set<string>, t: set<string>)
    requires forall a | a in allowed :: a in s <==> a in t
    ensures Keep(allowed, s) == Keep(allowed, t)
  {
    if allowed == [] {
    } else {
      KeepExtensional(allowed[1..], s, t);
    }
  }

  /** A payload is a fixed point of normalisation. */
  lemma PayloadIsFixed(permission: PermissionMap)
    ensures Payload(Payload(permission)) == Payload(permission)
  {
    hide Statement, Keep;
    forall resource: Resource ensures Normal(Payload(permission), resource) == Normal(permission, resource) {
      forall a | a in Statement(resource)
        ensures a in AsSet(Actions(Payload(permission), resource)) <==> a in AsSet(Actions(permission, resource))
      {
        PayloadGrants(permission, resource, a);
      }
      KeepExtensional(Statement(resource), AsSet(Actions(Payload(permission), resource)),
                      AsSet(Actions(permission, resource)));
    }
  }

  // What a role allows.

  datatype DynamicRole = DynamicRole(role: string, permission: PermissionMap)

  function StaticPermissions(role: string): Option<PermissionMap> {
    if role == OWNER then
      Some(map[Organization := ["update", "delete"], Member := ["create", "update", "delete"],
               Invitation := ["create", "cancel"], Team := ["create", "update", "delete"],
               AccessControl := ["create", "read", "update", "delete"]])
    else if role == ADMIN then
      Some(map[Organization := ["update"], Member := ["create", "update", "delete"],
               Invitation := ["create", "cancel"], Team := ["create", "update", "delete"],
               AccessControl := ["create", "read", "update", "delete"]])
    else if role == "member" then Some(map[AccessControl := ["read"]])
    else None
  }

  function Find(roles: seq<DynamicRole>, name: string): Option<DynamicRole> {
    if roles == [] then None else if roles[0].role == name then Some(roles[0]) else Find(roles[1..], name)
  }

  predicate NameAllows(name: string, dynamicRoles: seq<DynamicRole>, resource: Resource, action: string) {
    match StaticPermissions(name)
    case Some(permission) => Grants(permission, resource, action)
    case None =>
      var found := Find(dynamicRoles, name);
      found.Some? && Grants(found.value.permission, resource, action)
  }

  predicate HasPermission(role: string, dynamicRoles: seq<DynamicRole>, resource: Resource, action: string) {
    exists name | name in RoleNames(role) :: NameAllows(name, dynamicRoles, resource, action)
  }

  predicate IsRoleNameChar(c: char) { 'a' <= c <= 'z' || IsDigit(c) || c == '_' || c == '-' }

  predicate IsRoleName(name: string) {
    2 <= |name| <= 32 && 'a' <= name[0] <= 'z' && forall i | 0 <= i < |name| :: IsRoleNameChar(name[i])
  }

  datatype DraftError = NoName | Reserved | BadName | NameTaken | NothingGranted

  predicate IsTaken(role: string, roles: seq<DynamicRole>) {
    exists candidate | candidate in roles :: candidate.role == role
  }

  function RoleDraftError(draft: Draft, roles: seq<DynamicRole>, editingRole: Option<string>): Option<DraftError> {
    var role := Trim(draft.role);
    if role == "" then Some(NoName)
    else if StaticPermissions(role).Some? then Some(Reserved)
    else if !IsRoleName(role) then Some(BadName)
    else if Some(role) != editingRole && IsTaken(role, roles) then Some(NameTaken)
    else if Payload(draft.permission) == map[] then Some(NothingGranted)
    else None
  }

  /** A name of two to thirty-two lower-case letters, digits, hyphens and underscores that begins with a letter. */
  predicate IsPlainName(name: string) {
    2 <= |name| <= 32 && 'a' <= name[0] <= 'z'
    && forall c | c in name :: 'a' <= c <= 'z' || '0' <= c <= '9' || c in "_-"
  }

  ghost predicate GrantsSomething(permission: PermissionMap) {
    exists resource: Resource, action :: Grants(permission, resource, action) && action in Statement(resource)
  }

  /** Exactly when a draft can be saved, and else the first thing that is wrong with it. */
  lemma SavableExactlyWhen(draft: Draft, roles: seq<DynamicRole>, editingRole: Option<string>)
    ensures var role, error := Trim(draft.role), RoleDraftError(draft, roles, editingRole);
            var reserved := role in ["owner", "admin", "member"];
            var taken := exists other | other in roles :: other.role == role;
            && (error.None? <==>
                  && IsPlainName(role) && !reserved && (!taken || editingRole == Some(role))
                  && GrantsSomething(draft.permission))
            && (error == Some(NoName) <==> role == "") && (error == Some(Reserved) <==> reserved)
            && (error == Some(BadName) <==> role != "" && !reserved && !IsPlainName(role))
            && (error == Some(NameTaken) <==> IsPlainName(role) && !reserved && taken && editingRole != Some(role))
  {
    hide Statement, Trim, Payload, Grants, IsRoleName, IsPlainName, Find;
    var role := Trim(draft.role);
    PayloadEmptyExactlyWhen(draft.permission);
    PlainExactlyWhen(role);
    ReservedExactlyWhen(role);
    NoNameIsEmpty();
  }

  lemma PlainExactlyWhen(name: string)
    ensures IsRoleName(name) <==> IsPlainName(name)
  {
    assert forall c :: IsRoleNameChar(c) <==> ('a' <= c <= 'z' || '0' <= c <= '9' || c in "_-");
  }

  lemma ReservedExactlyWhen(name: string)
    ensures StaticPermissions(name).Some? <==> name in ["owner", "admin", "member"]
  {}

  lemma NoNameIsEmpty()
    ensures !IsRoleName("")
  {}

  lemma PayloadEmptyExactlyWhen(permission: PermissionMap)
    ensures Payload(permission) != map[] <==> GrantsSomething(permission)
  {
    hide Statement, Keep;
    if GrantsSomething(permission) {
      var resource: Resource, action :| Grants(permission, resource, action) && action in Statement(resource);
      PayloadGrants(permission, resource, action);
      assert resource in Payload(permission);
    } else if Payload(permission) != map[] {
      var resource :| resource in Payload(permission);
      var action := Payload(permission)[resource][0];
      assert Grants(Payload(permission), resource, action);
      PayloadGrants(permission, resource, action);
    }
  }

  lemma {:induction false} FindExactlyWhen(roles: seq<DynamicRole>, name: string)
    ensures Find(roles, name).Some? <==> exists candidate | candidate in roles :: candidate.role == name
    ensures Find(roles, name).Some? ==> Find(roles, name).value.role == name
  {
    if roles == [] {
    } else {
      FindExactlyWhen(roles[1..], name);
      if exists candidate | candidate in roles :: candidate.role == name {
        var candidate :| candidate in roles && candidate.role == name;
        assert candidate == roles[0] || candidate in roles[1..];
      }
    }
  }

  /** The text of a single role name names that role alone. */
  lemma NameStandsForItself(name: string)
    requires IsRoleName(name)
    ensures RoleNames(name) == [name]
  {
    assert forall i | 0 <= i < |name| :: name[i] != ',' && !IsSpace(name[i]);
    SplitPlain(name, ',');
    TrimOfTrimmed(name);
    assert TrimAll([name]) == [name];
    assert NonEmpty([name]) == [name];
  }

  lemma {:induction false} FindAppended(roles: seq<DynamicRole>, added: DynamicRole)
    requires Find(roles, added.role).None?
    ensures Find(roles + [added], added.role) == Some(added)
  {
    if roles == [] {
    } else {
      assert (roles + [added])[1..] == roles[1..] + [added];
      FindAppended(roles[1..], added);
    }
  }

  /** Saving a new role from a draft that was toggled together lets its bearers do exactly the pairs
      whose last toggle enabled them. */
  lemma SavedRoleAllows(name: string, toggles: seq<Toggling>, roles: seq<DynamicRole>, resource: Resource,
                        action: string)
    requires RoleDraftError(Draft(name, ToggleAll(EMPTY_DRAFT, toggles).permission), roles, None).None?
    ensures var saved := DynamicRole(Trim(name), Payload(ToggleAll(EMPTY_DRAFT, toggles).permission));
            HasPermission(saved.role, roles + [saved], resource, action) <==>
            action in Statement(resource) && LastToggle(toggles, resource, action) == Some(true)
  {
    hide Statement, StaticPermissions, Trim, IsRoleName, Payload, ToggleAll, LastToggle, Find, RoleNames;
    var draft := Draft(name, ToggleAll(EMPTY_DRAFT, toggles).permission);
    var saved := DynamicRole(Trim(name), Payload(draft.permission));
    SavableExactlyWhen(draft, roles, None);
    PlainExactlyWhen(saved.role);
    ReservedExactlyWhen(saved.role);
    FindExactlyWhen(roles, saved.role);
    NameStandsForItself(saved.role);
    FindAppended(roles, saved);
    PayloadHoldsLastEnabled(toggles, resource, action);
    assert saved.role in RoleNames(saved.role);
  }

  /** What a role allows, by its name: an owner everything there is, an administrator all but deleting the
      organization, a plain member to read roles; any other name what the first dynamic role of it grants. */
  lemma RolesAllowExactly(name: string, dynamicRoles: seq<DynamicRole>, resource: Resource, action: string)
    ensures name == "owner" ==>
              (NameAllows(name, dynamicRoles, resource, action) <==> action in Statement(resource))
    ensures name == "admin" ==>
              (NameAllows(name, dynamicRoles, resource, action) <==>
                 action in Statement(resource) && !(resource == Organization && action == "delete"))
    ensures name == "member" ==>
              (NameAllows(name, dynamicRoles, resource, action) <==> resource == AccessControl && action == "read")
    ensures name != "owner" && name != "admin" && name != "member" ==>
              (NameAllows(name, dynamicRoles, resource, action) <==>
                 exists k | 0 <= k < |dynamicRoles| ::
                   && dynamicRoles[k].role == name && Grants(dynamicRoles[k].permission, resource, action)
                   && forall j | 0 <= j < k :: dynamicRoles[j].role != name)
  {
    var owner, admin, member := "owner", "admin", "member";
    assert |owner| == 5 && |admin| == 5 && |member| == 6 && owner[0] == 'o' && admin[0] == 'a';
    assert |"update"| == 6 && "update"[0] == 'u' && "delete"[0] == 'd';
    if name != "owner" && name != "admin" && name != "member" {
      FindIsFirst(dynamicRoles, name);
    } else {
      StaticAllows(resource, action);
    }
  }

  lemma StaticAllows(resource: Resource, action: string)
    ensures Grants(StaticPermissions(OWNER).value, resource, action) <==> action in Statement(resource)
    ensures Grants(StaticPermissions(ADMIN).value, resource, action) <==>
            action in Statement(resource) && !(resource == Organization && action == "delete")
    ensures Grants(StaticPermissions("member").value, resource, action) <==>
            resource == AccessControl && action == "read"
  {
    assert OWNER[0] == 'o' && ADMIN[0] == 'a' && "member"[0] == 'm' && "update"[0] == 'u' && "delete"[0] == 'd';
  }

  lemma {:induction false} FindIsFirst(roles: seq<DynamicRole>, name: string)
    ensures Find(roles, name).Some? ==>
              exists k | 0 <= k < |roles| ::
                && roles[k] == Find(roles, name).value && roles[k].role == name
                && forall j | 0 <= j < k :: roles[j].role != name
    ensures Find(roles, name).None? ==> forall k | 0 <= k < |roles| :: roles[k].role != name
  {
    if roles == [] {
    } else if roles[0].role != name {
      FindIsFirst(roles[1..], name);
      if Find(roles, name).Some? {
        var k :| 0 <= k < |roles[1..]| && roles[1..][k] == Find(roles, name).value && roles[1..][k].role == name
                 && forall j | 0 <= j < k :: roles[1..][j].role != name;
        assert roles[k + 1] == Find(roles, name).value;
        forall j | 0 <= j < k + 1 ensures roles[j].role != name {
          if j > 0 { assert roles[1..][j - 1] == roles[j]; }
        }
      } else {
        forall k | 0 <= k < |roles| ensures roles[k].role != name {
          if k > 0 { assert roles[1..][k - 1] == roles[k]; }
        }
      }
    }
  }

  /** A role text allows what one of its names allows. */
  lemma TextAllowsExactly(role: string, dynamicRoles: seq<DynamicRole>, resource: Resource, action: string)
    ensures HasPermission(role, dynamicRoles, resource, action) <==>
            exists name | HasRole(role, name) :: NameAllows(name, dynamicRoles, resource, action)
  {
    hide HasRole, RoleNames, NameAllows;
    forall name ensures name in RoleNames(role) <==> HasRole(role, name) { ReadingsAgree(role, name); }
  }
}
