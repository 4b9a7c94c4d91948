/** Who may change, leave or remove a membership of an organization, and why an organization that has
    an owner keeps one. */
module OrganizationRoles {
  import opened Wrappers
  import opened Text

  const OWNER := "owner"
  const ADMIN := "admin"

  function TrimAll(names: seq<string>): seq<string> { seq(|names|, i requires 0 <= i < |names| => Trim(names[i])) }

  /** `.filter(Boolean)` on strings. */
  function NonEmpty(names: seq<string>): seq<string> {
    if names == [] then []
    else (if names[0] == "" then [] else [names[0]]) + NonEmpty(names[1..])
  }

  lemma {:induction false} NonEmptyMembers(names: seq<string>, x: string)
    ensures x in NonEmpty(names) <==> x in names && x != ""
  {
    if names == [] {
    } else {
      NonEmptyMembers(names[1..], x);
    }
  }

  /** The first occurrences, in order: spreading a `Set` built from the names. */
  function Distinct(names: seq<string>): seq<string> {
    if names == [] then []
    else
      var before := Distinct(names[..|names| - 1]);
      var last := names[|names| - 1];
      if last in before then before else before + [last]
  }

  lemma {:induction false} DistinctMembers(names: seq<string>, x: string)
    ensures x in Distinct(names) <==> x in names
  {
    if names == [] {
    } else {
      DistinctMembers(names[..|names| - 1], x);
      assert names == names[..|names| - 1] + [names[|names| - 1]];
    }
  }

  /** The role names in a member's role text; repeated names stay. */
  function RoleNames(role: string): seq<string> { NonEmpty(TrimAll(Split(role, ','))) }

  /** The role names in a member's role text, each once. */
  function OrganizationRoles(role: string): seq<string> { NonEmpty(Distinct(TrimAll(Split(role, ',')))) }

  predicate HasRole(role: string, expected: string) { expected in OrganizationRoles(role) }

  /** Both readings of a role text name the same roles. */
  lemma ReadingsAgree(role: string, expected: string)
    ensures expected in RoleNames(role) <==> HasRole(role, expected)
  {
    hide NonEmpty, Distinct, TrimAll, Split;
    var pieces := TrimAll(Split(role, ','));
    NonEmptyMembers(pieces, expected);
    NonEmptyMembers(Distinct(pieces), expected);
    DistinctMembers(pieces, expected);
  }

  datatype Permissions = Permissions(canManageMembers: bool, canManageInvitations: bool, canAssignOwner: bool)

  function OrganizationPermissions(role: string): Permissions {
    var owner := HasRole(role, OWNER);
    var administrator := owner || HasRole(role, ADMIN);
    Permissions(administrator, administrator, owner)
  }

  /** Owners and administrators manage members and invitations; owners alone assign ownership. */
  lemma PermittedExactlyWhen(role: string)
    ensures var permissions := OrganizationPermissions(role);
            && (permissions.canManageMembers <==> HasRole(role, "owner") || HasRole(role, "admin"))
            && (permissions.canManageInvitations <==> HasRole(role, "owner") || HasRole(role, "admin"))
            && (permissions.canAssignOwner <==> HasRole(role, "owner"))
  {}

  predicate CanManageMember(actorRole: string, targetRole: string) {
    var permissions := OrganizationPermissions(actorRole);
    permissions.canManageMembers && (permissions.canAssignOwner || !HasRole(targetRole, OWNER))
  }

  predicate CanLeave(role: string, ownerCount: int) {
    var roles := OrganizationRoles(role);
    roles != [] && (OWNER !in roles || ownerCount > 1)
  }

  datatype SelectionError =
    NothingSelected | NoLongerAvailable | CannotManage | OwnerRoleIsProtected | OwnerOnlyAssigns | FinalOwner

  function Selected(selectedRoles: seq<string>): seq<string> { NonEmpty(Distinct(TrimAll(selectedRoles))) }

  function RoleSelectionError(actorRole: string, targetRole: string, selectedRoles: seq<string>,
                              availableRoles: seq<string>, ownerCount: int, actorCanManage: Option<bool>)
    : Option<SelectionError>
  {
    var selected := Selected(selectedRoles);
    if selected == [] then Some(NothingSelected)
    else if exists role | role in selected :: role !in availableRoles then Some(NoLongerAvailable)
    else
      var actorIsOwner := OWNER in RoleNames(actorRole);
      var canManage := if actorCanManage.Some? then actorCanManage.value
                       else actorIsOwner || ADMIN in RoleNames(actorRole);
      var targetIsOwner := OWNER in RoleNames(targetRole);
      if !canManage then Some(CannotManage)
      else if targetIsOwner && !actorIsOwner then Some(OwnerRoleIsProtected)
      else if OWNER in selected && !actorIsOwner then Some(OwnerOnlyAssigns)
      else if targetIsOwner && ownerCount <= 1 && OWNER !in selected then Some(FinalOwner)
      else None
  }

  // The organization as a whole.

  /** The role text of each member. */
  type Members = map<string, string>

  function Owners(members: Members): set<string> { set m | m in members && HasRole(members[m], OWNER) }

  /** What members ask for; the permissions that dynamic roles grant are whatever they may be. */
  datatype Request =
    | ChangeRole(actor: string, target: string, selectedRoles: seq<string>, availableRoles: seq<string>,
                 actorCanManage: Option<bool>)
    | Leave(actor: string)
    | Remove(actor: string, target: string, canDeleteMembers: bool)

  predicate MayDelete(actorRole: string, targetRole: string, canDeleteMembers: bool) {
    CanManageMember(actorRole, targetRole) || (canDeleteMembers && !HasRole(targetRole, OWNER))
  }

  predicate Accepted(members: Members, r: Request) {
    r.actor in members &&
    match r
    case ChangeRole(actor, target, selectedRoles, availableRoles, actorCanManage) =>
      target in members &&
      RoleSelectionError(members[actor], members[target], selectedRoles, availableRoles, |Owners(members)|,
                         actorCanManage).None?
    case Leave(actor) => CanLeave(members[actor], |Owners(members)|)
    case Remove(actor, target, canDeleteMembers) =>
      target in members && actor != target && MayDelete(members[actor], members[target], canDeleteMembers)
  }

  /** The organization keeps the selected roles as one text, joined by commas. */
  function Apply(members: Members, r: Request): Members {
    match r
    case ChangeRole(_, target, selectedRoles, _, _) => members[target := Join(selectedRoles, ",")]
    case Leave(actor) => members - {actor}
    case Remove(_, target, _) => members - {target}
  }

  /** Names that can be told apart in a comma-separated text. */
  predicate CommaFree(names: seq<string>) { forall name | name in names :: ',' !in name }

  predicate Sensible(r: Request) { r.ChangeRole? ==> CommaFree(r.availableRoles) }

  /** A run: the requests, all accepted in turn, and the memberships they lead through. */
  ghost predicate IsRun(requests: seq<Request>, states: seq<Members>) {
    && |states| == |requests| + 1
    && forall i | 0 <= i < |requests| ::
         Sensible(requests[i]) && Accepted(states[i], requests[i]) && states[i + 1] == Apply(states[i], requests[i])
  }

  // What a stored role text says.

  lemma RegroupCons(x: string, p: seq<string>, q: seq<string>)
    ensures [x] + (p + q) == ([x] + p) + q
    ensures p != [] ==> (p + q)[0] == p[0] && (p + q)[1..] == p[1..] + q
  {}

  lemma SplitStep(s: string, c: char)
    requires s != []
    ensures Split(s, c) == var rest := Split(s[1..], c);
                           if s[0] == c then [""] + rest else [[s[0]] + rest[0]] + rest[1..]
  {}

  lemma {:induction false} SplitConcat(a: string, b: string, c: char)
    ensures Split(a + [c] + b, c) == Split(a, c) + Split(b, c)
  {
    SplitStep(a + [c] + b, c);
    if a == [] {
      assert (a + [c] + b)[1..] == b;
    } else {
      assert (a + [c] + b)[1..] == a[1..] + [c] + b;
      SplitConcat(a[1..], b, c);
      SplitStep(a, c);
      hide Split;
      var p, q := Split(a[1..], c), Split(b, c);
      RegroupCons("", p, q);
      RegroupCons([a[0]] + p[0], p[1..], q);
    }
  }

  ghost predicate SomeHas(roles: seq<string>, expected: string) {
    exists i | 0 <= i < |roles| :: HasRole(roles[i], expected)
  }

  ghost predicate SomeTrims(names: seq<string>, expected: string) {
    expected != "" && exists i | 0 <= i < |names| :: Trim(names[i]) == expected
  }

  lemma SelectedMembers(names: seq<string>, expected: string)
    ensures expected in Selected(names) <==> SomeTrims(names, expected)
  {
    hide NonEmpty, Distinct, Trim;
    var trimmed := TrimAll(names);
    NonEmptyMembers(Distinct(trimmed), expected);
    DistinctMembers(trimmed, expected);
    forall i | 0 <= i < |names| ensures trimmed[i] == Trim(names[i]) {}
    assert expected in trimmed <==> exists i | 0 <= i < |trimmed| :: trimmed[i] == expected;
  }

  lemma PieceMembership(role: string, expected: string)
    ensures HasRole(role, expected) <==> SomeTrims(Split(role, ','), expected)
  {
    hide Split, NonEmpty, Distinct, TrimAll;
    SelectedMembers(Split(role, ','), expected);
  }

  lemma HasRoleConcat(a: string, b: string, expected: string)
    ensures HasRole(a + "," + b, expected) <==> HasRole(a, expected) || HasRole(b, expected)
  {
    hide Split, Distinct, NonEmpty, Trim, HasRole;
    SplitConcat(a, b, ',');
    PieceMembership(a + "," + b, expected);
    PieceMembership(a, expected);
    PieceMembership(b, expected);
    var p, q := Split(a, ','), Split(b, ',');
    forall i | 0 <= i < |p| ensures (p + q)[i] == p[i] {}
    forall i | 0 <= i < |q| ensures (p + q)[|p| + i] == q[i] {}
  }

  /** The joined text names what the parts name. */
  lemma {:induction false} HasRoleJoin(roles: seq<string>, expected: string)
    requires roles != []
    ensures HasRole(Join(roles, ","), expected) <==> SomeHas(roles, expected)
  {
    hide HasRole;
    if |roles| > 1 {
      HasRoleJoin(roles[1..], expected);
      HasRoleConcat(roles[0], Join(roles[1..], ","), expected);
      if SomeHas(roles, expected) && !HasRole(roles[0], expected) {
        var i :| 0 <= i < |roles| && HasRole(roles[i], expected);
        assert roles[1..][i - 1] == roles[i];
      }
    }
  }

  lemma TrimKeepsCommas(name: string)
    ensures ',' in Trim(name) <==> ',' in name
  {
    var a, b := TrimParts(name);
    hide Trim;
    assert ',' !in a && ',' !in b;
    assert name == a + Trim(name) + b;
  }

  lemma CommaFreeRole(name: string, expected: string)
    requires ',' !in name
    ensures HasRole(name, expected) <==> expected != "" && Trim(name) == expected
  {
    hide HasRole, Trim;
    SplitPlain(name, ',');
    PieceMembership(name, expected);
    assert Split(name, ',')[0] == name;
  }

  /** An accepted selection of names without commas is read back as selected, whatever white space and
      repetitions it had. */
  lemma StoredAsSelected(selectedRoles: seq<string>, expected: string)
    requires selectedRoles != []
    requires forall role | role in Selected(selectedRoles) :: ',' !in role
    ensures HasRole(Join(selectedRoles, ","), expected) <==> expected in Selected(selectedRoles)
  {
    hide HasRole, Trim, Join, Selected;
    HasRoleJoin(selectedRoles, expected);
    SelectedMembers(selectedRoles, expected);
    forall i | 0 <= i < |selectedRoles|
      ensures HasRole(selectedRoles[i], expected) <==> expected != "" && Trim(selectedRoles[i]) == expected
    {
      TrimKeepsCommas(selectedRoles[i]);
      SelectedMembers(selectedRoles, Trim(selectedRoles[i]));
      CommaFreeRole(selectedRoles[i], expected);
    }
  }

  /** After an accepted change the target is an owner exactly when the owner role was selected. */
  lemma ChangedRole(members: Members, r: Request)
    requires r.ChangeRole? && Sensible(r) && Accepted(members, r)
    ensures HasRole(Join(r.selectedRoles, ","), OWNER) <==> OWNER in Selected(r.selectedRoles)
  {
    hide HasRole, Join, Owners, RoleNames;
    StoredAsSelected(r.selectedRoles, OWNER);
  }

  lemma OwnersAfterUpdate(members: Members, target: string, role: string)
    requires target in members
    ensures Owners(members[target := role]) ==
            if HasRole(role, OWNER) then Owners(members) + {target} else Owners(members) - {target}
  {
    hide HasRole;
  }

  lemma OwnersAfterRemoval(members: Members, target: string)
    ensures Owners(members - {target}) == Owners(members) - {target}
  {
    hide HasRole;
  }

  lemma LeavingOwner(role: string, ownerCount: int)
    requires CanLeave(role, ownerCount) && HasRole(role, OWNER)
    ensures ownerCount > 1
  {}

  /** No accepted request takes away the last owner. */
  lemma OwnerRemains(members: Members, r: Request)
    requires Sensible(r) && Accepted(members, r) && Owners(members) != {}
    ensures Owners(Apply(members, r)) != {}
  {
    hide HasRole, Join, Selected, RoleNames, OrganizationRoles;
    match r
    case ChangeRole(actor, target, selectedRoles, _, _) =>
      ChangedRole(members, r);
      OwnersAfterUpdate(members, target, Join(selectedRoles, ","));
      ReadingsAgree(members[target], OWNER);
      OneLeft(Owners(members), target);
    case Leave(actor) =>
      OwnersAfterRemoval(members, actor);
      OneLeft(Owners(members), actor);
      if HasRole(members[actor], OWNER) { LeavingOwner(members[actor], |Owners(members)|); }
    case Remove(actor, target, _) =>
      OwnersAfterRemoval(members, target);
      if target in Owners(members) {
        assert actor in Owners(members) - {target};
      }
  }

  lemma OneLeft(owners: set<string>, one: string)
    requires owners != {}
    ensures one !in owners || |owners| > 1 ==> owners - {one} != {}
  {
    if owners - {one} == {} {
      assert owners <= {one};
      assert owners == {one};
    }
  }

  /** A request by someone who is not an owner leaves the owners as they are. */
  lemma OnlyOwnersChangeOwners(members: Members, r: Request)
    requires Sensible(r) && Accepted(members, r) && r.actor !in Owners(members)
    ensures Owners(Apply(members, r)) == Owners(members)
  {
    hide HasRole, Join, Selected, RoleNames, OrganizationRoles;
    match r
    case ChangeRole(actor, target, selectedRoles, _, _) =>
      ChangedRole(members, r);
      OwnersAfterUpdate(members, target, Join(selectedRoles, ","));
      ReadingsAgree(members[actor], OWNER);
      ReadingsAgree(members[target], OWNER);
    case Leave(actor) => OwnersAfterRemoval(members, actor);
    case Remove(actor, target, _) => OwnersAfterRemoval(members, target);
  }

  /** In every state of every run of accepted role changes, leaves and removals, an organization that
      had an owner at the start has one. */
  lemma {:induction false} SomeOwnerAlways(requests: seq<Request>, states: seq<Members>, n: nat)
    requires IsRun(requests, states) && Owners(states[0]) != {} && n <= |requests|
    ensures Owners(states[n]) != {}
  {
    hide Owners, Accepted, Apply, Sensible;
    if n == 0 {
    } else {
      SomeOwnerAlways(requests, states, n - 1);
      OwnerRemains(states[n - 1], requests[n - 1]);
    }
  }

  /** Every request of the run comes from someone who is not an owner at that time. */
  ghost predicate NoOwnerActs(requests: seq<Request>, states: seq<Members>)
    requires |states| == |requests| + 1
  {
    forall i | 0 <= i < |requests| :: requests[i].actor !in Owners(states[i])
  }

  /** However long others act, and whatever management rights they are said to have, the owners stay
      the same people. */
  lemma {:induction false} OwnersStay(requests: seq<Request>, states: seq<Members>, n: nat)
    requires IsRun(requests, states) && NoOwnerActs(requests, states) && n <= |requests|
    ensures Owners(states[n]) == Owners(states[0])
  {
    hide Owners, Accepted, Apply, Sensible;
    if n == 0 {
    } else {
      OwnersStay(requests, states, n - 1);
      OnlyOwnersChangeOwners(states[n - 1], requests[n - 1]);
    }
  }

  /** The final-owner rule refuses no more than it must: an owner may make a change to an available
      selection exactly when somebody is an owner afterwards. */
  lemma RefusedOnlyForTheLastOwner(members: Members, r: Request)
    requires r.ChangeRole? && Sensible(r) && r.actor in Owners(members) && r.target in members
    requires r.actorCanManage != Some(false)
    requires Selected(r.selectedRoles) != []
             && forall role | role in Selected(r.selectedRoles) :: role in r.availableRoles
    ensures Accepted(members, r) <==> Owners(Apply(members, r)) != {}
  {
    hide HasRole, Join, Selected, RoleNames, OrganizationRoles;
    if Accepted(members, r) {
      OwnerRemains(members, r);
    } else {
      ReadingsAgree(members[r.actor], OWNER);
      ReadingsAgree(members[r.target], OWNER);
      SelectionIsNotEmpty(r.selectedRoles);
      StoredAsSelected(r.selectedRoles, OWNER);
      OwnersAfterUpdate(members, r.target, Join(r.selectedRoles, ","));
      OnlyMember(Owners(members), r.target);
    }
  }

  lemma SelectionIsNotEmpty(selectedRoles: seq<string>)
    requires Selected(selectedRoles) != []
    ensures selectedRoles != []
  {
    hide NonEmpty, Distinct;
    SelectedMembers(selectedRoles, Selected(selectedRoles)[0]);
  }

  lemma OnlyMember(owners: set<string>, one: string)
    requires one in owners && |owners| <= 1
    ensures owners - {one} == {}
  {
    assert |owners - {one}| == 0;
  }

  /** The management rule alone does not keep an owner: a removal it allows loses the last one exactly
      when the only owner removes itself, which the console rules out by offering no such button. */
  lemma ManagedRemovalLosesTheLastOwner(members: Members, actor: string, target: string)
    requires actor in members && target in members && Owners(members) != {}
    requires CanManageMember(members[actor], members[target])
    ensures Owners(members - {target}) == {} <==> actor == target && Owners(members) == {actor}
  {
    hide HasRole;
    OwnersAfterRemoval(members, target);
    if Owners(members) - {target} == {} {
      var o :| o in Owners(members);
      assert o in Owners(members) - {target} || o == target;
      assert Owners(members) == {target};
      assert actor in Owners(members);
    }
  }

  /** Such a case: the only owner of an organization of one. */
  lemma SoleOwnerCouldRemoveItself(member: string)
    ensures var members := map[member := OWNER];
            && CanManageMember(members[member], members[member])
            && Owners(members) == {member} && Owners(members - {member}) == {}
  {
    hide HasRole;
    assert Trim(OWNER) == OWNER by { TrimOfTrimmed(OWNER); }
    CommaFreeRole(OWNER, OWNER);
    OwnersAfterRemoval(map[member := OWNER], member);
  }

  // Exactly which requests are accepted.

  /** Who may change roles at all: whoever the flag names, and without a flag an owner or administrator. */
  ghost predicate MayChangeRoles(actorRole: string, actorCanManage: Option<bool>) {
    match actorCanManage
    case Some(flag) => flag
    case None => HasRole(actorRole, OWNER) || HasRole(actorRole, ADMIN)
  }

  ghost predicate SomethingSelected(selectedRoles: seq<string>) { exists role :: SomeTrims(selectedRoles, role) }

  ghost predicate AllAvailable(selectedRoles: seq<string>, availableRoles: seq<string>) {
    forall role | SomeTrims(selectedRoles, role) :: role in availableRoles
  }

  /** The conditions of a role change in the order in which they are checked. */
  datatype Conditions = Conditions(
    selected: bool, available: bool, manages: bool, ownerSpared: bool, ownerGranted: bool, ownerRemains: bool)

  ghost function ConditionsOf(actorRole: string, targetRole: string, selectedRoles: seq<string>,
                              availableRoles: seq<string>, ownerCount: int, actorCanManage: Option<bool>): Conditions
  {
    var actorIsOwner, targetIsOwner := HasRole(actorRole, OWNER), HasRole(targetRole, OWNER);
    var ownerSelected := SomeTrims(selectedRoles, OWNER);
    Conditions(SomethingSelected(selectedRoles), AllAvailable(selectedRoles, availableRoles),
               MayChangeRoles(actorRole, actorCanManage), targetIsOwner ==> actorIsOwner,
               ownerSelected ==> actorIsOwner, targetIsOwner && ownerCount <= 1 ==> ownerSelected)
  }

  /** A role change is accepted exactly when all conditions hold, and refused for the first that fails. */
  lemma RoleChangeAcceptedExactlyWhen(actorRole: string, targetRole: string, selectedRoles: seq<string>,
                                      availableRoles: seq<string>, ownerCount: int, actorCanManage: Option<bool>)
    ensures var c := ConditionsOf(actorRole, targetRole, selectedRoles, availableRoles, ownerCount, actorCanManage);
            var error := RoleSelectionError(actorRole, targetRole, selectedRoles, availableRoles, ownerCount,
                                            actorCanManage);
            && (error == None <==>
                  c.selected && c.available && c.manages && c.ownerSpared && c.ownerGranted && c.ownerRemains)
            && (error == Some(NothingSelected) <==> !c.selected)
            && (error == Some(NoLongerAvailable) <==> c.selected && !c.available)
            && (error == Some(CannotManage) <==> c.selected && c.available && !c.manages)
            && (error == Some(OwnerRoleIsProtected) <==> c.selected && c.available && c.manages && !c.ownerSpared)
            && (error == Some(OwnerOnlyAssigns) <==>
                  c.selected && c.available && c.manages && c.ownerSpared && !c.ownerGranted)
            && (error == Some(FinalOwner) <==>
                  c.selected && c.available && c.manages && c.ownerSpared && c.ownerGranted && !c.ownerRemains)
  {
    hide HasRole, RoleNames, Selected, SomeTrims;
    var selected := Selected(selectedRoles);
    forall role ensures role in selected <==> SomeTrims(selectedRoles, role) {
      SelectedMembers(selectedRoles, role);
    }
    assert selected != [] <==> SomethingSelected(selectedRoles) by {
      assert selected != [] ==> selected[0] in selected;
    }
    ReadingsAgree(actorRole, OWNER);
    ReadingsAgree(actorRole, ADMIN);
    ReadingsAgree(targetRole, OWNER);
  }

  /** A member is removed exactly by another one who manages members, an owner only by an owner; or by one
      who may delete members, and then no owner. */
  lemma RemovalAcceptedExactlyWhen(members: Members, r: Request)
    requires r.Remove?
    ensures Accepted(members, r) <==>
            && r.actor in members && r.target in members && r.actor != r.target
            && var actor, target := members[r.actor], members[r.target];
            && (HasRole(actor, OWNER)
                || (HasRole(actor, ADMIN) && !HasRole(target, OWNER))
                || (r.canDeleteMembers && !HasRole(target, OWNER)))
  {
    hide HasRole;
  }

  /** A member leaves exactly when it has some role and is not the last owner. */
  lemma LeaveAcceptedExactlyWhen(members: Members, r: Request)
    requires r.Leave?
    ensures Accepted(members, r) <==>
            && r.actor in members && (exists role :: HasRole(members[r.actor], role))
            && (HasRole(members[r.actor], OWNER) ==> |Owners(members)| > 1)
  {
    if r.actor in members {
      var roles := OrganizationRoles(members[r.actor]);
      assert roles != [] ==> HasRole(members[r.actor], roles[0]);
    }
  }

  /** The request comes from a member without management rights, by role and by permission. */
  ghost predicate WithoutRights(members: Members, r: Request) {
    r.actor in members ==>
      && !HasRole(members[r.actor], OWNER) && !HasRole(members[r.actor], ADMIN)
      && (r.ChangeRole? ==> r.actorCanManage != Some(true))
      && (r.Remove? ==> !r.canDeleteMembers)
  }

  /** Without management rights one can do nothing but leave. */
  lemma WithoutRightsOnlyLeave(members: Members, r: Request)
    requires Accepted(members, r) && WithoutRights(members, r)
    ensures r.Leave? && Apply(members, r) == members - {r.actor}
  {
    hide HasRole;
    match r
    case ChangeRole(actor, target, selectedRoles, availableRoles, actorCanManage) =>
      RoleChangeAcceptedExactlyWhen(members[actor], members[target], selectedRoles, availableRoles, |Owners(members)|,
                                    actorCanManage);
    case Leave(_) =>
    case Remove(_, _, _) => RemovalAcceptedExactlyWhen(members, r);
  }

  /** However long members without management rights act, nobody's role text changes and nobody joins;
      those who are gone have left themselves. */
  lemma {:induction false} RolesStayWithoutRights(requests: seq<Request>, states: seq<Members>, n: nat)
    requires IsRun(requests, states) && n <= |requests|
    requires forall i | 0 <= i < n :: WithoutRights(states[i], requests[i])
    ensures forall m | m in states[n] :: m in states[0] && states[n][m] == states[0][m]
    ensures forall m | m in states[0] && m !in states[n] :: exists i | 0 <= i < n :: requests[i] == Leave(m)
  {
    hide Accepted, Apply, Sensible, WithoutRights;
    if n == 0 {
    } else {
      RolesStayWithoutRights(requests, states, n - 1);
      WithoutRightsOnlyLeave(states[n - 1], requests[n - 1]);
      forall m | m in states[0] && m !in states[n] ensures exists i | 0 <= i < n :: requests[i] == Leave(m) {
        if m in states[n - 1] {
          assert requests[n - 1] == Leave(m);
        }
      }
    }
  }
}
