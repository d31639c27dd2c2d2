/**
 * Linking a Keycloak service account to a local user, a role, the role's grants at one property and the
 * user's assignment there: look up, then insert what is missing, over four tables.
 * A row's id is its position in its table; rows are never removed, so a new row's id is always fresh.
 */
module IntegrationPrincipal {
  import opened Wrappers
  import opened Text

  datatype User = User(email: string, sub: Option<string>, name: string, active: bool, home: Option<string>)

  /** `property` is None for the system roles shared by all properties. */
  datatype Role = Role(property: Option<string>, key: string, name: string, isSystem: bool)

  datatype Grant = Grant(property: string, role: nat, permission: string)

  datatype Assignment = Assignment(property: string, user: nat, role: nat)

  datatype Tables = Tables(properties: set<string>, users: seq<User>, roles: seq<Role>,
                           grants: seq<Grant>, assignments: seq<Assignment>)

  datatype Profile = Inventory | Reservations | Custom(permissions: seq<string>)

  datatype Input = Input(property: string, sub: string, labelText: string, profile: Profile)

  datatype Linked = Linked(user: nat, role: nat, roleKey: string, email: string,
                           userCreated: bool, roleCreated: bool, assignmentCreated: bool)

  datatype LinkError = InvalidSub | PropertyNotFound | NoPermissions | UnknownPermission | EmailTaken

  // ---- labels, subjects and permission keys ----

  predicate IsSlugChar(c: char) {
    'a' <= c <= 'z' || IsDigit(c)
  }

  /** `.replace(/[^a-z0-9]+/g, '-')`, `inRun` telling whether the character before `s` was replaced. */
  function Dashed(s: string, inRun: bool): string {
    if s == "" then ""
    else if IsSlugChar(s[0]) then [s[0]] + Dashed(s[1..], false)
    else if inRun then Dashed(s[1..], true)
    else "-" + Dashed(s[1..], true)
  }

  /** `.replace(/^-+|-+$/g, '')` */
  function StripDashes(s: string): string
    decreases |s|
  {
    if s != "" && s[0] == '-' then StripDashes(s[1..])
    else if s != "" && s[|s| - 1] == '-' then StripDashes(s[..|s| - 1])
    else s
  }

  function Slugify(labelText: string): string {
    var stripped := StripDashes(Dashed(Lower(labelText), false));
    var slug := if |stripped| > 48 then stripped[..48] else stripped;
    if slug != "" then slug else "integration"
  }

  function Email(labelText: string): string {
    "svc-" + Slugify(labelText) + "@integrations.local"
  }

  predicate IsHex(c: char) {
    IsDigit(c) || 'a' <= LowerChar(c) <= 'f'
  }

  /** The UUID pattern: versions 1 to 5, and a variant digit of 8, 9, a or b. */
  predicate IsValidKeycloakSub(sub: string) {
    && |sub| == 36
    && (forall i :: 0 <= i < 36 ==> if i == 8 || i == 13 || i == 18 || i == 23 then sub[i] == '-' else IsHex(sub[i]))
    && '1' <= sub[14] <= '5'
    && LowerChar(sub[19]) in {'8', '9', 'a', 'b'}
  }

  const INVENTORY_PERMISSIONS := ["rooms.read", "rooms.write", "ops.manage"]
  const RESERVATIONS_PERMISSIONS := ["reservations.read", "reservations.write", "guests.read", "guests.write",
                                     "rooms.read"]
  const CUSTOM_PERMISSION_ALLOWLIST := INVENTORY_PERMISSIONS + RESERVATIONS_PERMISSIONS
    + ["dashboard.view", "folios.read", "folios.manage", "rateplans.read", "rateplans.manage", "reports.view",
       "nightaudit.run", "settings.manage"]

  function CustomPermissionsError(permissions: seq<string>): Option<LinkError> {
    if permissions == [] then Some(NoPermissions)
    else if exists k :: k in permissions && k !in CUSTOM_PERMISSION_ALLOWLIST then Some(UnknownPermission)
    else None
  }

  /** The role a link uses and the permissions it grants to it. */
  function RoleFor(input: Input): Role {
    match input.profile
    case Inventory => Role(None, "integration_inventory", "Integration — Inventory", true)
    case Reservations => Role(None, "integration_reservations", "Integration — Reservations", true)
    case Custom(_) =>
      var name := "Integration: " + Trim(input.labelText);
      Role(Some(input.property), "integration_" + Slugify(input.labelText), name, false)
  }

  function PermissionsFor(input: Input): seq<string> {
    match input.profile
    case Inventory => INVENTORY_PERMISSIONS
    case Reservations => RESERVATIONS_PERMISSIONS
    case Custom(permissions) => permissions
  }

  /** The refusals that come before any table is touched. */
  function Refusal(properties: set<string>, input: Input): Option<LinkError> {
    if !IsValidKeycloakSub(input.sub) then Some(InvalidSub)
    else if input.property !in properties then Some(PropertyNotFound)
    else if input.profile.Custom? then CustomPermissionsError(input.profile.permissions)
    else None
  }

  // ---- look-ups and inserts, on the tables' contents ----

  predicate SameRole(a: Role, b: Role) {
    a.property == b.property && a.key == b.key
  }

  /** The first row with this property and key. */
  function FindRole(roles: seq<Role>, role: Role, from: nat := 0): (r: Option<nat>)
    requires from <= |roles|
    ensures r.Some? ==> from <= r.value < |roles| && SameRole(roles[r.value], role)
    ensures r.None? ==> forall i :: from <= i < |roles| ==> !SameRole(roles[i], role)
    decreases |roles| - from
  {
    if from == |roles| then None
    else if SameRole(roles[from], role) then Some(from)
    else FindRole(roles, role, from + 1)
  }

  function FindSub(users: seq<User>, sub: string, from: nat := 0): (r: Option<nat>)
    requires from <= |users|
    ensures r.Some? ==> from <= r.value < |users| && users[r.value].sub == Some(sub)
    ensures r.None? ==> forall i :: from <= i < |users| ==> users[i].sub != Some(sub)
    decreases |users| - from
  {
    if from == |users| then None
    else if users[from].sub == Some(sub) then Some(from)
    else FindSub(users, sub, from + 1)
  }

  function FindEmail(users: seq<User>, email: string, from: nat := 0): (r: Option<nat>)
    requires from <= |users|
    ensures r.Some? ==> from <= r.value < |users| && users[r.value].email == email
    ensures r.None? ==> forall i :: from <= i < |users| ==> users[i].email != email
    decreases |users| - from
  {
    if from == |users| then None
    else if users[from].email == email then Some(from)
    else FindEmail(users, email, from + 1)
  }

  function AddGrant(grants: seq<Grant>, grant: Grant): seq<Grant> {
    if grant in grants then grants else grants + [grant]
  }

  function AddGrants(grants: seq<Grant>, property: string, role: nat, permissions: seq<string>): seq<Grant> {
    if permissions == [] then grants
    else
      var n := |permissions| - 1;
      AddGrant(AddGrants(grants, property, role, permissions[..n]), Grant(property, role, permissions[n]))
  }

  /** A subject column that the source treats as set. */
  predicate IsBound(user: User) {
    user.sub.Some? && user.sub.value != ""
  }

  /** The user a link ends with, and whether it is a new row. */
  function LinkUser(users: seq<User>, input: Input): Result<(seq<User>, nat, bool), LinkError> {
    var name := "Integration: " + Trim(input.labelText);
    match FindSub(users, input.sub)
    case Some(id) => Success((users[id := users[id].(name := name)], id, false))
    case None =>
      match FindEmail(users, Email(input.labelText))
      case Some(id) =>
        if IsBound(users[id]) && users[id].sub != Some(input.sub) then Failure(EmailTaken)
        else
          var home := if IsBound(users[id]) then users[id].home else Some(input.property);
          var user := users[id].(sub := Some(input.sub), name := name, active := true, home := home);
          Success((users[id := user], id, false))
      case None =>
        var user := User(Email(input.labelText), Some(input.sub), name, true, Some(input.property));
        Success((users + [user], |users|, true))
  }

  /** The role, created when missing, and its grants: done before the user is looked at. */
  function LinkRole(t: Tables, input: Input): (Tables, nat, bool) {
    var role := RoleFor(input);
    var found := FindRole(t.roles, role);
    var id := if found.Some? then found.value else |t.roles|;
    var roles := if found.Some? then t.roles else t.roles + [role];
    (t.(roles := roles, grants := AddGrants(t.grants, input.property, id, PermissionsFor(input))), id, found.None?)
  }

  /** The whole call as a function of the tables. */
  function Link(t: Tables, input: Input): (Tables, Result<Linked, LinkError>) {
    match Refusal(t.properties, input)
    case Some(error) => (t, Failure(error))
    case None =>
      var (t1, role, roleCreated) := LinkRole(t, input);
      match LinkUser(t1.users, input)
      case Failure(error) => (t1, Failure(error))
      case Success((users, user, userCreated)) =>
        var assignment := Assignment(input.property, user, role);
        var present := assignment in t1.assignments;
        var assignments := if present then t1.assignments else t1.assignments + [assignment];
        (t1.(users := users, assignments := assignments),
         Success(Linked(user, role, RoleFor(input).key, Email(input.labelText), userCreated, roleCreated, !present)))
  }

  // ---- the call as the program performs it ----

  class Directory {
    const properties: set<string>
    var users: seq<User>
    var roles: seq<Role>
    var grants: seq<Grant>
    var assignments: seq<Assignment>

    constructor (properties: set<string>)
      ensures this.View() == Tables(properties, [], [], [], [])
    {
      this.properties := properties;
      users, roles, grants, assignments := [], [], [], [];
    }

    ghost function View(): Tables
      reads this
    {
      Tables(properties, users, roles, grants, assignments)
    }

    method EnsureGrants(property: string, role: nat, permissions: seq<string>)
      modifies this`grants
      ensures grants == AddGrants(old(grants), property, role, permissions)
    {
      for i := 0 to |permissions|
        invariant grants == AddGrants(old(grants), property, role, permissions[..i])
      {
        assert permissions[..i + 1][..i] == permissions[..i];
        var grant := Grant(property, role, permissions[i]);
        if grant !in grants {
          grants := grants + [grant];
        }
      }
      assert permissions[..|permissions|] == permissions;
    }

    /** ensureSystemIntegrationRole; the custom branch differs only in the row's property, name and flag. */
    method EnsureRole(property: string, role: Role, permissions: seq<string>) returns (id: nat, created: bool)
      modifies this`roles, this`grants
      ensures created <==> FindRole(old(roles), role).None?
      ensures id == if created then |old(roles)| else FindRole(old(roles), role).value
      ensures roles == if created then old(roles) + [role] else old(roles)
      ensures grants == AddGrants(old(grants), property, id, permissions)
    {
      var existing := FindRole(roles, role);
      created := existing.None?;
      if created {
        id := |roles|;
        roles := roles + [role];
      } else {
        id := existing.value;
      }
      EnsureGrants(property, id, permissions);
    }

    method EnsureUser(input: Input) returns (r: Result<(nat, bool), LinkError>)
      modifies this`users
      ensures match LinkUser(old(users), input)
        case Failure(error) => r == Failure(error) && users == old(users)
        case Success((after, id, created)) => r == Success((id, created)) && users == after
    {
      var name := "Integration: " + Trim(input.labelText);
      var bySub := FindSub(users, input.sub);
      if bySub.Some? {
        users := users[bySub.value := users[bySub.value].(name := name)];
        return Success((bySub.value, false));
      }
      var email := Email(input.labelText);
      var byEmail := FindEmail(users, email);
      if byEmail.Some? && IsBound(users[byEmail.value]) && users[byEmail.value].sub != Some(input.sub) {
        return Failure(EmailTaken);
      }
      if byEmail.Some? {
        var row := users[byEmail.value];
        var patched := row.(sub := Some(input.sub), name := name, active := true);
        if !IsBound(row) {
          patched := patched.(home := Some(input.property));
        }
        users := users[byEmail.value := patched];
        return Success((byEmail.value, false));
      }
      users := users + [User(email, Some(input.sub), name, true, Some(input.property))];
      return Success((|users| - 1, true));
    }

    method LinkIntegrationPrincipal(input: Input) returns (r: Result<Linked, LinkError>)
      modifies this
      ensures (View(), r) == Link(old(View()), input)
    {
      if !IsValidKeycloakSub(input.sub) {
        return Failure(InvalidSub);
      }
      if input.property !in properties {
        return Failure(PropertyNotFound);
      }
      if input.profile.Custom? {
        var invalid := CustomPermissionsError(input.profile.permissions);
        if invalid.Some? {
          return Failure(invalid.value);
        }
      }
      var role, roleCreated := EnsureRole(input.property, RoleFor(input), PermissionsFor(input));
      var user := EnsureUser(input);
      if user.Failure? {
        return Failure(user.error);
      }
      var (id, userCreated) := user.value;
      var assignment := Assignment(input.property, id, role);
      var assignmentCreated := assignment !in assignments;
      if assignmentCreated {
        assignments := assignments + [assignment];
      }
      return Success(Linked(id, role, RoleFor(input).key, Email(input.labelText),
                            userCreated, roleCreated, assignmentCreated));
    }
  }

  // ---- what every link keeps ----

  predicate Unique<T(==)>(rows: seq<T>) {
    forall i, j :: 0 <= i < j < |rows| ==> rows[i] != rows[j]
  }

  /** Emails, subjects, role keys, grants and assignments are unique, and rows refer to rows. */
  predicate Valid(t: Tables) {
    && (forall i, j :: 0 <= i < j < |t.users| ==> t.users[i].email != t.users[j].email)
    && (forall i, j :: 0 <= i < j < |t.users| && t.users[i].sub.Some? ==> t.users[i].sub != t.users[j].sub)
    && (forall i, j :: 0 <= i < j < |t.roles| ==> !SameRole(t.roles[i], t.roles[j]))
    && Unique(t.grants)
    && Unique(t.assignments)
    && (forall grant :: grant in t.grants ==> grant.role < |t.roles|)
    && (forall a :: a in t.assignments ==> a.role < |t.roles| && a.user < |t.users|)
  }

  lemma {:induction false} AddGrantsContents(grants: seq<Grant>, property: string, role: nat, permissions: seq<string>)
    requires Unique(grants)
    ensures var after := AddGrants(grants, property, role, permissions);
      && grants <= after
      && Unique(after)
      && (forall g :: g in after
                      <==> g in grants || (g.property == property && g.role == role && g.permission in permissions))
  {
    if permissions != [] {
      var n := |permissions| - 1;
      AddGrantsContents(grants, property, role, permissions[..n]);
      assert permissions == permissions[..n] + [permissions[n]];
    }
  }

  /** Rows of one property. */
  function GrantsAt(grants: seq<Grant>, property: string): seq<Grant> {
    if grants == [] then []
    else
      var n := |grants| - 1;
      GrantsAt(grants[..n], property) + (if grants[n].property == property then [grants[n]] else [])
  }

  function AssignmentsAt(assignments: seq<Assignment>, property: string): seq<Assignment> {
    if assignments == [] then []
    else
      var n := |assignments| - 1;
      AssignmentsAt(assignments[..n], property) + (if assignments[n].property == property then [assignments[n]] else [])
  }

  lemma {:induction false} AddGrantsElsewhere(grants: seq<Grant>, property: string, role: nat, permissions: seq<string>,
                                              other: string)
    requires other != property
    ensures GrantsAt(AddGrants(grants, property, role, permissions), other) == GrantsAt(grants, other)
  {
    if permissions != [] {
      var n := |permissions| - 1;
      var front := AddGrants(grants, property, role, permissions[..n]);
      AddGrantsElsewhere(grants, property, role, permissions[..n], other);
      assert (front + [Grant(property, role, permissions[n])])[..|front|] == front;
    }
  }

  /** `after` has every row of `before`: users keep id, email and bound subject, other tables only grow at their end. */
  predicate Extends(before: Tables, after: Tables) {
    && before.properties == after.properties
    && |before.users| <= |after.users|
    && (forall i :: 0 <= i < |before.users| ==>
          && after.users[i].email == before.users[i].email
          && (IsBound(before.users[i]) ==>
                after.users[i].sub == before.users[i].sub && after.users[i].home == before.users[i].home))
    && before.roles <= after.roles
    && before.grants <= after.grants
    && before.assignments <= after.assignments
  }

  lemma LinkRoleKeeps(t: Tables, input: Input)
    requires Valid(t)
    ensures var (t1, role, created) := LinkRole(t, input);
      && Valid(t1) && Extends(t, t1) && t1.users == t.users && t1.assignments == t.assignments
      && role < |t1.roles| && SameRole(t1.roles[role], RoleFor(input))
  {
    var found := FindRole(t.roles, RoleFor(input));
    AddGrantsContents(t.grants, input.property, if found.Some? then found.value else |t.roles|, PermissionsFor(input));
  }

  lemma LinkUserKeeps(t: Tables, input: Input)
    requires Valid(t) && LinkUser(t.users, input).Success? && IsValidKeycloakSub(input.sub)
    ensures var (users, user, created) := LinkUser(t.users, input).value;
      && Valid(t.(users := users)) && Extends(t, t.(users := users))
      && user < |users| && users[user].sub == Some(input.sub)
  {
    hide Email, Trim;
  }

  /** A link, completed or refused, keeps every uniqueness and removes nothing. */
  lemma LinkKeepsTables(t: Tables, input: Input)
    requires Valid(t)
    ensures Valid(Link(t, input).0) && Extends(t, Link(t, input).0)
  {
    hide LinkRole, LinkUser, RoleFor, PermissionsFor;
    if Refusal(t.properties, input).None? {
      LinkRoleKeeps(t, input);
      var t1 := LinkRole(t, input).0;
      if LinkUser(t1.users, input).Success? {
        LinkUserKeeps(t1, input);
      }
    }
  }

  /** A link leaves the grants and assignments of every other property alone. */
  lemma LinkLeavesOtherProperties(t: Tables, input: Input, other: string)
    requires other != input.property
    ensures GrantsAt(Link(t, input).0.grants, other) == GrantsAt(t.grants, other)
    ensures AssignmentsAt(Link(t, input).0.assignments, other) == AssignmentsAt(t.assignments, other)
  {
    if Refusal(t.properties, input).None? {
      var (t1, role, created) := LinkRole(t, input);
      AddGrantsElsewhere(t.grants, input.property, role, PermissionsFor(input), other);
      if LinkUser(t1.users, input).Success? {
        var assignment := Assignment(input.property, LinkUser(t1.users, input).value.1, role);
        assert (t.assignments + [assignment])[..|t.assignments|] == t.assignments;
      }
    }
  }

  /** The tables after a run of links. */
  function Run(t: Tables, inputs: seq<Input>): Tables {
    if inputs == [] then t else Link(Run(t, inputs[..|inputs| - 1]), inputs[|inputs| - 1]).0
  }

  lemma {:induction false} RunKeepsTables(t: Tables, inputs: seq<Input>)
    requires Valid(t)
    ensures Valid(Run(t, inputs)) && Extends(t, Run(t, inputs))
  {
    if inputs != [] {
      RunKeepsTables(t, inputs[..|inputs| - 1]);
      LinkKeepsTables(Run(t, inputs[..|inputs| - 1]), inputs[|inputs| - 1]);
    }
  }

  // ---- repeating a link ----

  /** What a completed link leaves behind. */
  predicate Settled(t: Tables, input: Input, linked: Linked) {
    && Refusal(t.properties, input).None?
    && linked.role < |t.roles| && SameRole(t.roles[linked.role], RoleFor(input))
    && linked.roleKey == RoleFor(input).key && linked.email == Email(input.labelText)
    && linked.user < |t.users| && t.users[linked.user].sub == Some(input.sub)
    && Assignment(input.property, linked.user, linked.role) in t.assignments
    && (forall k :: k in PermissionsFor(input) ==> Grant(input.property, linked.role, k) in t.grants)
  }

  lemma LinkSettles(t: Tables, input: Input)
    requires Valid(t) && Link(t, input).1.Success?
    ensures Settled(Link(t, input).0, input, Link(t, input).1.value)
  {
    LinkRoleKeeps(t, input);
    var (t1, role, created) := LinkRole(t, input);
    AddGrantsContents(t.grants, input.property, role, PermissionsFor(input));
    LinkUserKeeps(t1, input);
  }

  lemma {:induction false} NothingToGrant(grants: seq<Grant>, property: string, role: nat, permissions: seq<string>)
    requires forall k :: k in permissions ==> Grant(property, role, k) in grants
    ensures AddGrants(grants, property, role, permissions) == grants
  {
    if permissions != [] {
      var n := |permissions| - 1;
      NothingToGrant(grants, property, role, permissions[..n]);
      assert permissions[n] in permissions;
    }
  }

  /** On settled tables the link finds its own rows: the same ids, nothing created, only the user's name rewritten. */
  lemma SettledLinkCreatesNothing(t: Tables, input: Input, linked: Linked)
    requires Valid(t) && Settled(t, input, linked)
    ensures Link(t, input).1 == Success(linked.(userCreated := false, roleCreated := false, assignmentCreated := false))
    ensures var t' := Link(t, input).0;
      t' == t.(users := t.users[linked.user := t.users[linked.user].(name := t'.users[linked.user].name)])
  {
    assert FindRole(t.roles, RoleFor(input)) == Some(linked.role);
    NothingToGrant(t.grants, input.property, linked.role, PermissionsFor(input));
    assert FindSub(t.users, input.sub) == Some(linked.user);
  }

  /** A completed link repeated at any later time returns the same ids with all three created flags false. */
  lemma RepeatedLink(t: Tables, input: Input, later: seq<Input>)
    requires Valid(t) && Link(t, input).1.Success?
    ensures var (t1, first) := Link(t, input);
      Link(Run(t1, later), input).1
        == Success(first.value.(userCreated := false, roleCreated := false, assignmentCreated := false))
  {
    var (t1, first) := Link(t, input);
    LinkKeepsTables(t, input);
    LinkSettles(t, input);
    RunKeepsTables(t1, later);
    SettledStays(t1, Run(t1, later), input, first.value);
    SettledLinkCreatesNothing(Run(t1, later), input, first.value);
  }

  lemma SettledStays(t: Tables, later: Tables, input: Input, linked: Linked)
    requires Extends(t, later) && Settled(t, input, linked)
    ensures Settled(later, input, linked)
  {
    assert IsValidKeycloakSub(input.sub) && input.sub != "";
    var a := Assignment(input.property, linked.user, linked.role);
    var i :| 0 <= i < |t.assignments| && t.assignments[i] == a;
    assert later.assignments[i] == a;
    forall k | k in PermissionsFor(input)
      ensures Grant(input.property, linked.role, k) in later.grants
    {
      var j :| 0 <= j < |t.grants| && t.grants[j] == Grant(input.property, linked.role, k);
      assert later.grants[j] == t.grants[j];
    }
  }

  // ---- the late refusal ----

  /** The input's subject is new, and its e-mail belongs to a user with another subject. */
  predicate EmailIsTaken(t: Tables, input: Input) {
    && (forall i :: 0 <= i < |t.users| ==> t.users[i].sub != Some(input.sub))
    && (exists i :: 0 <= i < |t.users| && t.users[i].email == Email(input.labelText) && IsBound(t.users[i]))
  }

  /**
   * Exactly when a call is refused, why, and what it leaves: an early refusal changes nothing; the late one
   * leaves users and assignments as before, and the role and every grant in place.
   */
  lemma WhenRefused(t: Tables, input: Input)
    requires Valid(t)
    ensures var (t', outcome) := Link(t, input);
      && (outcome.Failure? <==> Refusal(t.properties, input).Some? || EmailIsTaken(t, input))
      && (Refusal(t.properties, input).Some? ==> t' == t && outcome == Failure(Refusal(t.properties, input).value))
      && (outcome.Failure? && Refusal(t.properties, input).None? ==>
            && outcome.error == EmailTaken
            && t'.users == t.users && t'.assignments == t.assignments
            && exists role: nat :: IsRow(t', role, RoleFor(input)) && AllGranted(t'.grants, input, role))
  {
    hide Refusal, RoleFor, PermissionsFor, Slugify, Email;
    if Refusal(t.properties, input).None? {
      LinkRoleKeeps(t, input);
      AddGrantsContents(t.grants, input.property, LinkRole(t, input).1, PermissionsFor(input));
      assert IsRow(LinkRole(t, input).0, LinkRole(t, input).1, RoleFor(input));
      assert AllGranted(LinkRole(t, input).0.grants, input, LinkRole(t, input).1);
    }
  }

  /** The input's role is a row that is granted every requested permission at the property. */
  ghost predicate AlreadyGranted(t: Tables, input: Input) {
    exists role: nat :: IsRow(t, role, RoleFor(input)) && AllGranted(t.grants, input, role)
  }

  predicate AllGranted(grants: seq<Grant>, input: Input, role: nat) {
    forall k :: k in PermissionsFor(input) ==> Grant(input.property, role, k) in grants
  }

  /** A call refused late changes nothing exactly when its role and all its grants were there before. */
  lemma RefusedCallChangesNothing(t: Tables, input: Input)
    requires Valid(t) && Refusal(t.properties, input).None? && Link(t, input).1.Failure?
    ensures Link(t, input).0 == t <==> AlreadyGranted(t, input)
  {
    hide Refusal, RoleFor, PermissionsFor, LinkUser;
    var (t1, role, created) := LinkRole(t, input);
    LinkRoleKeeps(t, input);
    AddGrantsContents(t.grants, input.property, role, PermissionsFor(input));
    assert Link(t, input).0 == t1;
    if t1 == t {
      assert IsRow(t, role, RoleFor(input)) && AllGranted(t.grants, input, role);
    }
    if AlreadyGranted(t, input) {
      var id: nat :| IsRow(t, id, RoleFor(input)) && AllGranted(t.grants, input, id);
      assert FindRole(t.roles, RoleFor(input)) == Some(id);
      NothingToGrant(t.grants, input.property, id, PermissionsFor(input));
    }
  }

  // ---- labels ----

  predicate IsSlug(s: string) {
    && (forall i :: 0 <= i < |s| ==> IsSlugChar(s[i]) || s[i] == '-')
    && (forall i, j :: 0 <= i < j == i + 1 < |s| ==> s[i] != '-' || s[j] != '-')
  }

  lemma {:induction false} DashedIsSlug(s: string, inRun: bool)
    ensures IsSlug(Dashed(s, inRun))
    ensures inRun && Dashed(s, inRun) != "" ==> Dashed(s, inRun)[0] != '-'
  {
    if s != "" {
      DashedIsSlug(s[1..], !IsSlugChar(s[0]));
    }
  }

  lemma {:induction false} StrippedIsSlug(s: string)
    requires IsSlug(s)
    ensures var r := StripDashes(s);
      IsSlug(r) && (r == "" || (r[0] != '-' && r[|r| - 1] != '-'))
    decreases |s|
  {
    if s != "" && s[0] == '-' {
      StrippedIsSlug(s[1..]);
    } else if s != "" && s[|s| - 1] == '-' {
      StrippedIsSlug(s[..|s| - 1]);
    }
  }

  lemma {:induction false} DashedOfSlug(s: string, inRun: bool)
    requires IsSlug(s) && (inRun && s != "" ==> s[0] != '-')
    ensures Dashed(s, inRun) == s
  {
    if s != "" {
      DashedOfSlug(s[1..], !IsSlugChar(s[0]));
      assert [s[0]] + s[1..] == s;
    }
  }

  /** Slugs have 1 to 48 letters, digits and single dashes and do not start with a dash. */
  lemma SlugShape(labelText: string)
    ensures var slug := Slugify(labelText);
      1 <= |slug| <= 48 && IsSlug(slug) && slug[0] != '-'
  {
    DashedIsSlug(Lower(labelText), false);
    StrippedIsSlug(Dashed(Lower(labelText), false));
    var stripped := StripDashes(Dashed(Lower(labelText), false));
    var cut := if |stripped| > 48 then stripped[..48] else stripped;
    assert IsSlug(cut) && (cut != "" ==> cut[0] == stripped[0]) by {
      hide Dashed, StripDashes, IsSlugChar;
    }
    var fallback := "integration";
    assert IsSlug(fallback) && fallback[0] == 'i';
    assert Slugify(labelText) == if cut != "" then cut else fallback;
    hide *;
  }

  /** The label with every run of other characters dashed and the dashes at both ends stripped, before the cut. */
  function Stripped(labelText: string): string {
    StripDashes(Dashed(Lower(labelText), false))
  }

  /** The cut at 48 falls right behind a dash. */
  predicate CutLeavesDash(labelText: string) {
    |Stripped(labelText)| > 48 && Stripped(labelText)[47] == '-'
  }

  /**
   * A slug ends in a dash exactly when the cut falls behind one, and exactly then slugifying again changes
   * it: it drops that dash.
   */
  lemma SlugTwice(labelText: string)
    ensures var slug := Slugify(labelText);
      && slug != ""
      && (slug[|slug| - 1] == '-' <==> CutLeavesDash(labelText))
      && (Slugify(slug) == slug <==> !CutLeavesDash(labelText))
      && (CutLeavesDash(labelText) ==> Slugify(slug) == slug[..47])
  {
    SlugShape(labelText);
    DashAtEnd(labelText);
    SlugOfSlug(Slugify(labelText));
    hide *;
  }

  lemma DashAtEnd(labelText: string)
    ensures var slug := Slugify(labelText);
      && slug != ""
      && (slug[|slug| - 1] == '-' <==> CutLeavesDash(labelText))
      && (CutLeavesDash(labelText) ==> |slug| == 48)
  {
    DashedIsSlug(Lower(labelText), false);
    StrippedIsSlug(Dashed(Lower(labelText), false));
    var fallback := "integration";
    assert fallback[|fallback| - 1] == 'n';
    hide Dashed, StripDashes;
  }

  lemma {:induction false} DashedOfWord(word: string, rest: string)
    requires forall i :: 0 <= i < |word| ==> IsSlugChar(word[i])
    ensures Dashed(word + rest, false) == word + Dashed(rest, false)
  {
    if word == "" {
      assert word + rest == rest && word + Dashed(rest, false) == Dashed(rest, false);
    } else {
      DashedOfWord(word[1..], rest);
      RestOfConcat(word, rest);
      RestOfConcat(word, Dashed(rest, false));
      ConcatAssociative([word[0]], word[1..], Dashed(rest, false));
    }
  }

  /** Such labels exist: 47 letters or digits, a blank and one more. */
  lemma CutBehindDash(word: string, last: char)
    requires |word| == 47 && IsSlugChar(last)
    requires forall i :: 0 <= i < 47 ==> IsSlugChar(word[i])
    ensures var slug := Slugify(word + " " + [last]);
      slug == word + "-" && Slugify(slug) == word
  {
    var labelText, stripped := word + " " + [last], word + "-" + [last];
    assert Lower(labelText) == labelText;
    ConcatAssociative(word, " ", [last]);
    DashedOfWord(word, " " + [last]);
    assert Dashed(" " + [last], false) == "-" + [last] by {
      assert (" " + [last])[1..] == [last] && [last][1..] == "";
      assert Dashed([last], true) == [last];
    }
    ConcatAssociative(word, "-", [last]);
    assert StripDashes(stripped) == stripped;
    assert stripped[..48] == word + "-" && stripped[47] == '-';
    assert Stripped(labelText) == stripped;
    assert Slugify(labelText) == word + "-";
    SlugTwice(labelText);
    assert (word + "-")[..47] == word;
  }

  const LONG_WORD := "channelmanagerforthenort" + "hernregionairporthotels"

  /** One of them. */
  lemma SlugWithFinalDash()
    ensures Slugify(LONG_WORD + " " + "2") == LONG_WORD + "-"
    ensures Slugify(LONG_WORD + "-") == LONG_WORD
  {
    var front, back := "channelmanagerforthenort", "hernregionairporthotels";
    assert forall i :: 0 <= i < |front| ==> 'a' <= front[i] <= 'z';
    assert forall i :: 0 <= i < |back| ==> 'a' <= back[i] <= 'z';
    CutBehindDash(LONG_WORD, '2');
    hide *;
  }

  predicate IsSlugWord(s: string) {
    s != "" && forall i :: 0 <= i < |s| ==> IsSlugChar(s[i])
  }

  /** Characters that a slug replaces: anything but the letters a to z and the digits. */
  predicate IsGap(s: string) {
    forall i :: 0 <= i < |s| ==> !('a' <= s[i] <= 'z') && !('0' <= s[i] <= '9')
  }

  lemma {:induction false} DashedOfGap(gap: string, rest: string, inRun: bool)
    requires IsGap(gap)
    ensures gap != "" ==> Dashed(gap + rest, inRun) == (if inRun then "" else "-") + Dashed(rest, true)
    ensures gap == "" ==> Dashed(gap + rest, inRun) == Dashed(rest, inRun)
  {
    if gap == "" {
      assert gap + rest == rest;
    } else {
      DashedOfGap(gap[1..], rest, true);
      RestOfConcat(gap, rest);
      assert "" + Dashed(rest, true) == Dashed(rest, true);
    }
  }

  lemma DashedOfWordInRun(word: string, rest: string, inRun: bool)
    requires IsSlugWord(word)
    ensures Dashed(word + rest, inRun) == word + Dashed(rest, false)
  {
    DashedOfWord(word, rest);
    assert (word + rest)[0] == word[0];
  }

  lemma {:induction false} StripEnds(front: string, body: string, back: string)
    requires front in {"", "-"} && back in {"", "-"} && body != "" && body[0] != '-' && body[|body| - 1] != '-'
    ensures StripDashes(front + body + back) == body
  {
    assert StripDashes(body) == body;
    if back == "-" {
      assert (body + "-")[..|body|] == body;
      assert StripDashes(body + "-") == body;
    } else {
      assert body + back == body;
    }
    if front == "-" {
      assert front + body + back == "-" + (body + back);
      assert ("-" + (body + back))[1..] == body + back;
    } else {
      assert front + body + back == body + back;
    }
  }

  /** Letter case is dropped, runs of other characters become one dash, and those at the ends disappear. */
  lemma SlugOfTwoWords(labelText: string, gap0: string, word1: string, gap1: string, word2: string, gap2: string)
    requires Lower(labelText) == gap0 + (word1 + (gap1 + (word2 + gap2)))
    requires IsGap(gap0) && IsGap(gap1) && IsGap(gap2) && gap1 != "" && IsSlugWord(word1) && IsSlugWord(word2)
    requires |word1| + |word2| < 48
    ensures Slugify(labelText) == word1 + "-" + word2
  {
    var front, back := if gap0 == "" then "" else "-", if gap2 == "" then "" else "-";
    var body := word1 + "-" + word2;
    DashedTwoWords(gap0, word1, gap1, word2, gap2);
    assert body[0] == word1[0] && body[|body| - 1] == word2[|word2| - 1];
    hide Dashed, StripDashes, Lower;
    StripEnds(front, body, back);
  }

  lemma DashedNothing(inRun: bool)
    ensures Dashed("", inRun) == ""
  {
  }

  lemma DashedTwoWords(gap0: string, word1: string, gap1: string, word2: string, gap2: string)
    requires IsGap(gap0) && IsGap(gap1) && IsGap(gap2) && gap1 != "" && IsSlugWord(word1) && IsSlugWord(word2)
    ensures Dashed(gap0 + (word1 + (gap1 + (word2 + gap2))), false)
      == (if gap0 == "" then "" else "-") + (word1 + "-" + word2) + (if gap2 == "" then "" else "-")
  {
    hide *;
    var back := if gap2 == "" then "" else "-";
    DashedNothing(true);
    DashedNothing(false);
    DashedOfGap(gap2, "", false);
    assert gap2 + "" == gap2 && "-" + "" == "-";
    assert Dashed(gap2, false) == back;
    var tail2, tail1 := word2 + gap2, gap1 + (word2 + gap2);
    DashedOfWordInRun(word2, gap2, true);
    DashedOfGap(gap1, tail2, false);
    DashedOfWordInRun(word1, tail1, gap0 != "");
    DashedOfGap(gap0, word1 + tail1, false);
    assert word1 + ("-" + (word2 + back)) == (word1 + "-" + word2) + back;
    assert "-" + ((word1 + "-" + word2) + back) == "-" + (word1 + "-" + word2) + back;
    assert "" + (word1 + "-" + word2) + back == (word1 + "-" + word2) + back;
  }

  lemma SlugOfSlug(slug: string)
    requires 1 <= |slug| <= 48 && IsSlug(slug) && slug[0] != '-'
    ensures Slugify(slug) == if slug[|slug| - 1] == '-' then slug[..|slug| - 1] else slug
  {
    assert Lower(slug) == slug;
    DashedOfSlug(slug, false);
    hide Dashed;
    var n := |slug| - 1;
    if slug[n] == '-' {
      assert slug[n - 1] != '-';
      assert StripDashes(slug[..n]) == slug[..n];
      assert StripDashes(slug) == slug[..n];
    } else {
      assert StripDashes(slug) == slug;
    }
  }

  // ---- who may do what after any run ----

  ghost predicate HasRole(t: Tables, sub: string, role: nat, property: string) {
    exists a :: a in t.assignments && Assigns(t, a, sub, role, property)
  }

  predicate Assigns(t: Tables, a: Assignment, sub: string, role: nat, property: string) {
    a.user < |t.users| && t.users[a.user].sub == Some(sub) && a.role == role && a.property == property
  }

  /** The permission check of the staff routes: an assignment at the property whose role is granted the key there. */
  ghost predicate Holds(t: Tables, sub: string, permission: string, property: string) {
    exists role :: HasRole(t, sub, role, property) && Grant(property, role, permission) in t.grants
  }

  /** The i-th call's outcome in a run from an empty directory. */
  function Outcome(properties: set<string>, inputs: seq<Input>, i: nat): Result<Linked, LinkError>
    requires i < |inputs|
  {
    Link(Run(Tables(properties, [], [], [], []), inputs[..i]), inputs[i]).1
  }

  /** A call that got as far as its grants: it completed, or was refused later at the email check. */
  predicate Grants(outcome: Result<Linked, LinkError>) {
    outcome.Success? || outcome.error == EmailTaken
  }

  predicate GaveRole(properties: set<string>, inputs: seq<Input>, i: nat, sub: string, role: Role, property: string)
    requires i < |inputs|
  {
    && Outcome(properties, inputs, i).Success?
    && inputs[i].sub == sub && inputs[i].property == property && SameRole(RoleFor(inputs[i]), role)
  }

  predicate GaveGrant(properties: set<string>, inputs: seq<Input>, j: nat, role: Role, permission: string,
                      property: string)
    requires j < |inputs|
  {
    && Grants(Outcome(properties, inputs, j))
    && inputs[j].property == property && permission in PermissionsFor(inputs[j]) && SameRole(RoleFor(inputs[j]), role)
  }

  ghost predicate SomeLinkGaveRole(properties: set<string>, inputs: seq<Input>, sub: string, role: Role,
                                   property: string) {
    exists i :: 0 <= i < |inputs| && GaveRole(properties, inputs, i, sub, role, property)
  }

  ghost predicate SomeCallGranted(properties: set<string>, inputs: seq<Input>, role: Role, permission: string,
                                  property: string) {
    exists j :: 0 <= j < |inputs| && GaveGrant(properties, inputs, j, role, permission, property)
  }

  /** In runs from an empty directory every user has the subject that created it. */
  predicate AllBound(t: Tables) {
    forall i :: 0 <= i < |t.users| ==> IsBound(t.users[i])
  }

  predicate IsRow(t: Tables, id: nat, role: Role) {
    id < |t.roles| && SameRole(t.roles[id], role)
  }

  lemma LinkAssignments(t: Tables, input: Input)
    requires Valid(t)
    ensures var (t', outcome) := Link(t, input);
      && (outcome.Success? ==>
            forall a :: a in t'.assignments
                        <==> a in t.assignments
                             || a == Assignment(input.property, outcome.value.user, outcome.value.role))
      && (outcome.Failure? ==> t'.assignments == t.assignments)
    ensures AllBound(t) ==> AllBound(Link(t, input).0)
  {
    hide Valid, RoleFor, PermissionsFor, AddGrants, CustomPermissionsError, Slugify;
  }

  lemma SameAssignees(t: Tables, later: Tables, sub: string, a: Assignment)
    requires Valid(t) && AllBound(t) && Extends(t, later) && a in t.assignments
    ensures a in later.assignments && later.users[a.user].sub == t.users[a.user].sub
  {
  }

  /** One call's effect on role membership. */
  lemma LinkGivesRole(t: Tables, input: Input, sub: string, role: nat, property: string)
    requires Valid(t) && AllBound(t)
    ensures var (t', outcome) := Link(t, input);
      && AllBound(t')
      && (HasRole(t', sub, role, property)
          <==> (HasRole(t, sub, role, property)
                || (outcome.Success? && input.sub == sub && input.property == property
                    && IsRow(t', role, RoleFor(input)))))
  {
    hide Link, RoleFor, LinkRole, LinkUser, Refusal, PermissionsFor;
    var (t', outcome) := Link(t, input);
    LinkKeepsTables(t, input);
    LinkAssignments(t, input);
    if HasRole(t, sub, role, property) {
      var a :| a in t.assignments && Assigns(t, a, sub, role, property);
      SameAssignees(t, t', sub, a);
    }
    if outcome.Success? {
      LinkSettles(t, input);
      assert IsRow(t', outcome.value.role, RoleFor(input));
    }
    if HasRole(t', sub, role, property) {
      var a :| a in t'.assignments && Assigns(t', a, sub, role, property);
      if a in t.assignments {
        SameAssignees(t, t', sub, a);
      }
    }
  }

  /** One call's effect on grants. */
  lemma LinkGrants(t: Tables, input: Input, role: nat, permission: string, property: string)
    requires Valid(t)
    ensures var (t', outcome) := Link(t, input);
      (Grant(property, role, permission) in t'.grants)
      <==> (Grant(property, role, permission) in t.grants
              || (Grants(outcome) && input.property == property && permission in PermissionsFor(input)
                  && IsRow(t', role, RoleFor(input))))
  {
    if Refusal(t.properties, input).None? {
      LinkRoleKeeps(t, input);
      AddGrantsContents(t.grants, input.property, LinkRole(t, input).1, PermissionsFor(input));
    }
  }

  /** The last call of a run adds its own contribution to those of the calls before it. */
  lemma LastCallAdds(properties: set<string>, inputs: seq<Input>, sub: string, role: Role, permission: string,
                     property: string)
    requires inputs != []
    ensures var n := |inputs| - 1;
      && (SomeLinkGaveRole(properties, inputs, sub, role, property)
          <==> SomeLinkGaveRole(properties, inputs[..n], sub, role, property)
               || GaveRole(properties, inputs, n, sub, role, property))
      && (SomeCallGranted(properties, inputs, role, permission, property)
          <==> SomeCallGranted(properties, inputs[..n], role, permission, property)
               || GaveGrant(properties, inputs, n, role, permission, property))
  {
    hide *;
    var n := |inputs| - 1;
    forall i | 0 <= i < n
      ensures GaveRole(properties, inputs[..n], i, sub, role, property)
        == GaveRole(properties, inputs, i, sub, role, property)
      ensures GaveGrant(properties, inputs[..n], i, role, permission, property)
        == GaveGrant(properties, inputs, i, role, permission, property)
    {
      PrefixCall(properties, inputs, i, sub, role, permission, property);
    }
    GaveSomewhere(properties, inputs, sub, role, permission, property);
    GaveSomewhere(properties, inputs[..n], sub, role, permission, property);
  }

  lemma PrefixCall(properties: set<string>, inputs: seq<Input>, i: nat, sub: string, role: Role, permission: string,
                   property: string)
    requires i + 1 < |inputs|
    ensures GaveRole(properties, inputs[..|inputs| - 1], i, sub, role, property)
      == GaveRole(properties, inputs, i, sub, role, property)
    ensures GaveGrant(properties, inputs[..|inputs| - 1], i, role, permission, property)
      == GaveGrant(properties, inputs, i, role, permission, property)
  {
    assert inputs[..|inputs| - 1][..i] == inputs[..i];
  }

  lemma GaveSomewhere(properties: set<string>, inputs: seq<Input>, sub: string, role: Role, permission: string,
                      property: string)
    ensures SomeLinkGaveRole(properties, inputs, sub, role, property)
      <==> exists i :: 0 <= i < |inputs| && GaveRole(properties, inputs, i, sub, role, property)
    ensures SomeCallGranted(properties, inputs, role, permission, property)
      <==> exists j :: 0 <= j < |inputs| && GaveGrant(properties, inputs, j, role, permission, property)
  {
  }

  /** A call can only contribute to a role that is a row by then. */
  lemma ContributedRoleExists(properties: set<string>, inputs: seq<Input>, i: nat)
    requires i < |inputs| && Grants(Outcome(properties, inputs, i))
    ensures var t := Run(Tables(properties, [], [], [], []), inputs);
      exists id: nat :: IsRow(t, id, RoleFor(inputs[i]))
  {
    hide Link, RoleFor, Run, Valid, IsRow, Grants;
    var empty := Tables(properties, [], [], [], []);
    EmptyIsValid(properties, "", 0, "");
    RunKeepsTables(empty, inputs[..i]);
    GrantingCallHasRow(Run(empty, inputs[..i]), inputs[i]);
    RunSnoc(empty, inputs, i);
    var id: nat :| IsRow(Run(empty, inputs[..i + 1]), id, RoleFor(inputs[i]));
    RowStays(empty, inputs, i + 1, id, RoleFor(inputs[i]));
  }

  lemma RunSnoc(t: Tables, inputs: seq<Input>, i: nat)
    requires i < |inputs|
    ensures Run(t, inputs[..i + 1]) == Link(Run(t, inputs[..i]), inputs[i]).0
  {
    assert inputs[..i + 1][..i] == inputs[..i];
  }

  lemma GrantingCallHasRow(t: Tables, input: Input)
    requires Valid(t) && Grants(Link(t, input).1)
    ensures exists id: nat :: IsRow(Link(t, input).0, id, RoleFor(input))
  {
    LinkRoleKeeps(t, input);
    assert IsRow(Link(t, input).0, LinkRole(t, input).1, RoleFor(input));
  }

  lemma {:induction false} RowStays(t: Tables, inputs: seq<Input>, i: nat, id: nat, role: Role)
    requires Valid(t) && i <= |inputs| && IsRow(Run(t, inputs[..i]), id, role)
    ensures IsRow(Run(t, inputs), id, role)
    decreases |inputs|
  {
    hide Link, Valid;
    if i < |inputs| {
      var n := |inputs| - 1;
      assert inputs[..n][..i] == inputs[..i];
      RowStays(t, inputs[..n], i, id, role);
      RunKeepsTables(t, inputs[..n]);
      LinkKeepsTables(Run(t, inputs[..n]), inputs[n]);
    } else {
      assert inputs[..i] == inputs;
    }
  }

  /** The row a role has is the row it keeps, and no other row has that role. */
  lemma RowMeansSameRole(t: Tables, later: Tables, id: nat, role: Role)
    requires Valid(later) && Extends(t, later) && id < |later.roles|
    requires exists q: nat :: IsRow(t, q, role)
    requires SameRole(later.roles[id], role)
    ensures id < |t.roles| && t.roles[id] == later.roles[id]
  {
    var q: nat :| IsRow(t, q, role);
    assert later.roles[q] == t.roles[q];
  }

  /** Role membership after a run: some completed link of the subject at the property used that role. */
  lemma {:induction false} RolesFollowRun(properties: set<string>, inputs: seq<Input>, sub: string, role: nat,
                                          property: string)
    ensures var t := Run(Tables(properties, [], [], [], []), inputs);
      && Valid(t) && AllBound(t)
      && (HasRole(t, sub, role, property)
          <==> role < |t.roles| && SomeLinkGaveRole(properties, inputs, sub, t.roles[role], property))
  {
    hide Link, RoleFor, Valid, HasRole;
    var empty := Tables(properties, [], [], [], []);
    EmptyIsValid(properties, sub, role, property);
    if inputs != [] {
      var n := |inputs| - 1;
      var front, last := inputs[..n], inputs[n];
      var t, t' := Run(empty, front), Run(empty, inputs);
      RolesFollowRun(properties, front, sub, role, property);
      LinkKeepsTables(t, last);
      LinkGivesRole(t, last, sub, role, property);
      if role < |t'.roles| {
        LastCallAdds(properties, inputs, sub, t'.roles[role], "", property);
        if SomeLinkGaveRole(properties, front, sub, t'.roles[role], property) {
          var i :| 0 <= i < |front| && GaveRole(properties, front, i, sub, t'.roles[role], property);
          ContributedRoleExists(properties, front, i);
          RowMeansSameRole(t, t', role, RoleFor(front[i]));
        }
      }
    }
  }

  lemma EmptyIsValid(properties: set<string>, sub: string, role: nat, property: string)
    ensures Valid(Tables(properties, [], [], [], []))
    ensures !HasRole(Tables(properties, [], [], [], []), sub, role, property)
  {
  }

  /** Grants after a run: some call at the property granted the permission to that role. */
  lemma {:induction false} GrantsFollowRun(properties: set<string>, inputs: seq<Input>, role: nat, permission: string,
                                           property: string)
    ensures var t := Run(Tables(properties, [], [], [], []), inputs);
      && Valid(t)
      && (Grant(property, role, permission) in t.grants
          <==> role < |t.roles| && SomeCallGranted(properties, inputs, t.roles[role], permission, property))
  {
    hide Link, RoleFor, PermissionsFor, Valid;
    var empty := Tables(properties, [], [], [], []);
    EmptyIsValid(properties, "", role, property);
    if inputs != [] {
      var n := |inputs| - 1;
      var front, last := inputs[..n], inputs[n];
      var t, t' := Run(empty, front), Run(empty, inputs);
      GrantsFollowRun(properties, front, role, permission, property);
      LinkKeepsTables(t, last);
      LinkGrants(t, last, role, permission, property);
      if role < |t'.roles| {
        LastCallAdds(properties, inputs, "", t'.roles[role], permission, property);
        if SomeCallGranted(properties, front, t'.roles[role], permission, property) {
          var j :| 0 <= j < |front| && GaveGrant(properties, front, j, t'.roles[role], permission, property);
          ContributedRoleExists(properties, front, j);
          RowMeansSameRole(t, t', role, RoleFor(front[j]));
        }
      }
    }
  }

  /**
   * After any run from an empty directory a subject holds a permission at a property exactly when one of its
   * completed links gave it a role there and some call, completed or refused only at the email check,
   * granted that permission to the same role at that property.
   */
  lemma HoldsExactlyWhatWasLinked(properties: set<string>, inputs: seq<Input>, sub: string, permission: string,
                                  property: string)
    ensures Holds(Run(Tables(properties, [], [], [], []), inputs), sub, permission, property)
      <==> exists role: Role :: SomeLinkGaveRole(properties, inputs, sub, role, property)
                             && SomeCallGranted(properties, inputs, role, permission, property)
  {
    hide Run, Link, RoleFor, PermissionsFor, HasRole, Outcome;
    var t := Run(Tables(properties, [], [], [], []), inputs);
    if Holds(t, sub, permission, property) {
      var role :| HasRole(t, sub, role, property) && Grant(property, role, permission) in t.grants;
      RolesFollowRun(properties, inputs, sub, role, property);
      GrantsFollowRun(properties, inputs, role, permission, property);
    }
    if role: Role :| SomeLinkGaveRole(properties, inputs, sub, role, property)
                     && SomeCallGranted(properties, inputs, role, permission, property) {
      var i :| 0 <= i < |inputs| && GaveRole(properties, inputs, i, sub, role, property);
      var j :| 0 <= j < |inputs| && GaveGrant(properties, inputs, j, role, permission, property);
      ContributedRoleExists(properties, inputs, i);
      var id: nat :| IsRow(t, id, RoleFor(inputs[i]));
      assert GaveRole(properties, inputs, i, sub, t.roles[id], property);
      assert GaveGrant(properties, inputs, j, t.roles[id], permission, property);
      RolesFollowRun(properties, inputs, sub, id, property);
      GrantsFollowRun(properties, inputs, id, permission, property);
    }
  }

  // ---- what each profile gives ----

  /** The input's profile and the keys the source lists for it. */
  predicate ProfileHas(profile: Profile, permission: string) {
    match profile
    case Inventory => permission in {"rooms.read", "rooms.write", "ops.manage"}
    case Reservations =>
      permission in {"reservations.read", "reservations.write", "guests.read", "guests.write", "rooms.read"}
    case Custom(permissions) => permission in permissions
  }

  predicate IsCompletedLink(properties: set<string>, inputs: seq<Input>, i: nat, sub: string, property: string)
    requires i < |inputs|
  {
    Outcome(properties, inputs, i).Success? && inputs[i].sub == sub && inputs[i].property == property
  }

  /** The subject has a completed link at the property, and all its completed links there have this profile. */
  predicate LinkedOnlyAs(properties: set<string>, inputs: seq<Input>, sub: string, property: string, profile: Profile) {
    && (exists i :: 0 <= i < |inputs| && IsCompletedLink(properties, inputs, i, sub, property))
    && (forall i :: 0 <= i < |inputs| && IsCompletedLink(properties, inputs, i, sub, property) ==>
          inputs[i].profile == profile)
  }

  lemma PermissionsOfProfile(input: Input, permission: string)
    ensures permission in PermissionsFor(input) <==> ProfileHas(input.profile, permission)
  {
  }

  lemma SameSystemRoleSameProfile(a: Input, b: Input, role: Role)
    requires !a.profile.Custom? && SameRole(RoleFor(a), role) && SameRole(RoleFor(b), role)
    ensures b.profile == a.profile
  {
    var inventory, reservations := "integration_inventory", "integration_reservations";
    assert inventory[12] == 'i' && reservations[12] == 'r';
  }

  /**
   * In every run from an empty directory: a subject linked at a property only as inventory holds there exactly
   * the three inventory permissions, and one linked only as reservations exactly the five of that profile.
   */
  lemma SystemProfileHoldsItsKeys(properties: set<string>, inputs: seq<Input>, sub: string, permission: string,
                                  property: string, profile: Profile)
    requires !profile.Custom? && LinkedOnlyAs(properties, inputs, sub, property, profile)
    ensures Holds(Run(Tables(properties, [], [], [], []), inputs), sub, permission, property)
      <==> if profile.Inventory? then permission in {"rooms.read", "rooms.write", "ops.manage"}
           else permission in {"reservations.read", "reservations.write", "guests.read", "guests.write", "rooms.read"}
  {
    hide Run, Outcome, RoleFor, PermissionsFor, SameRole;
    HoldsExactlyWhatWasLinked(properties, inputs, sub, permission, property);
    if role: Role :| SomeLinkGaveRole(properties, inputs, sub, role, property)
                     && SomeCallGranted(properties, inputs, role, permission, property) {
      var i :| 0 <= i < |inputs| && GaveRole(properties, inputs, i, sub, role, property);
      var j :| 0 <= j < |inputs| && GaveGrant(properties, inputs, j, role, permission, property);
      assert IsCompletedLink(properties, inputs, i, sub, property);
      SameSystemRoleSameProfile(inputs[i], inputs[j], role);
      PermissionsOfProfile(inputs[j], permission);
    }
    if ProfileHas(profile, permission) {
      var i :| 0 <= i < |inputs| && IsCompletedLink(properties, inputs, i, sub, property);
      LinkHoldsWhatItAskedFor(properties, inputs, i, permission);
    }
  }

  /** After any run the subject of a completed link holds at least what its profile gives. */
  lemma LinkHoldsWhatItAskedFor(properties: set<string>, inputs: seq<Input>, i: nat, permission: string)
    requires i < |inputs| && Outcome(properties, inputs, i).Success? && ProfileHas(inputs[i].profile, permission)
    ensures Holds(Run(Tables(properties, [], [], [], []), inputs), inputs[i].sub, permission, inputs[i].property)
  {
    hide Run, Outcome, RoleFor, PermissionsFor;
    var input := inputs[i];
    var role := RoleFor(input);
    PermissionsOfProfile(input, permission);
    assert GaveRole(properties, inputs, i, input.sub, role, input.property);
    assert GaveGrant(properties, inputs, i, role, permission, input.property);
    assert SomeLinkGaveRole(properties, inputs, input.sub, role, input.property);
    assert SomeCallGranted(properties, inputs, role, permission, input.property);
    HoldsExactlyWhatWasLinked(properties, inputs, input.sub, permission, input.property);
  }

  // ---- the rows a link writes ----

  /** The answer of a completed link, and the role row it names. */
  lemma LinkedRole(t: Tables, input: Input)
    requires Valid(t) && Link(t, input).1.Success?
    ensures var (t', outcome) := Link(t, input);
      var linked := outcome.value;
      && linked.email == "svc-" + Slugify(input.labelText) + "@integrations.local"
      && linked.roleKey == (match input.profile
                            case Inventory => "integration_inventory"
                            case Reservations => "integration_reservations"
                            case Custom(_) => "integration_" + Slugify(input.labelText))
      && linked.role < |t'.roles| && t'.roles[linked.role].key == linked.roleKey
      && t'.roles[linked.role].property == (if input.profile.Custom? then Some(input.property) else None)
      && (linked.roleCreated <==> linked.role == |t.roles|)
      && (linked.roleCreated ==> t'.roles[linked.role].isSystem == !input.profile.Custom?)
      && (linked.roleCreated ==>
            t'.roles[linked.role].name
              == match input.profile
                 case Inventory => "Integration — Inventory"
                 case Reservations => "Integration — Reservations"
                 case Custom(_) => "Integration: " + Trim(input.labelText))
  {
    hide Slugify, Trim, PermissionsFor, Valid;
    LinkSettles(t, input);
  }

  /** What a completed link does to the users: one row is new, adopted by its e-mail, or renamed; no other changes. */
  lemma LinkedUser(t: Tables, input: Input)
    requires Valid(t) && Link(t, input).1.Success?
    ensures var (t', outcome) := Link(t, input);
      var id, email := outcome.value.user, "svc-" + Slugify(input.labelText) + "@integrations.local";
      var name := "Integration: " + Trim(input.labelText);
      && (outcome.value.userCreated <==> id == |t.users|)
      && (id == |t.users| ==> t'.users == t.users + [User(email, Some(input.sub), name, true, Some(input.property))])
      && (id != |t.users| ==>
            && id < |t.users| && |t'.users| == |t.users|
            && (forall i :: 0 <= i < |t.users| && i != id ==> t'.users[i] == t.users[i])
            && (t.users[id].sub == Some(input.sub) ==> t'.users[id] == t.users[id].(name := name))
            && (t.users[id].sub != Some(input.sub) ==>
                  && t.users[id].email == email && !IsBound(t.users[id])
                  && t'.users[id] == User(email, Some(input.sub), name, true, Some(input.property))))
  {
    hide Slugify, Trim, PermissionsFor, RoleFor;
  }

  /** The early refusals, in the order in which they are given, with the custom allow-list written out. */
  lemma EarlyRefusals(properties: set<string>, input: Input)
    ensures var refusal := Refusal(properties, input);
      var custom := if input.profile.Custom? then input.profile.permissions else ["rooms.read"];
      && (refusal == Some(InvalidSub) <==> !IsValidKeycloakSub(input.sub))
      && (refusal == Some(PropertyNotFound) <==> IsValidKeycloakSub(input.sub) && input.property !in properties)
      && (refusal.None? || refusal.value in {InvalidSub, PropertyNotFound, NoPermissions, UnknownPermission})
      && (refusal == Some(NoPermissions)
          <==> IsValidKeycloakSub(input.sub) && input.property in properties && custom == [])
      && (refusal == Some(UnknownPermission)
          <==> && IsValidKeycloakSub(input.sub) && input.property in properties
               && exists k :: k in custom && !MayBeCustom(k))
  {
    AllowList();
    hide IsValidKeycloakSub, CUSTOM_PERMISSION_ALLOWLIST;
    if !input.profile.Custom? {
      assert MayBeCustom("rooms.read");
    }
  }

  predicate MayBeCustom(permission: string) {
    permission in {"rooms.read", "rooms.write", "ops.manage", "reservations.read", "reservations.write", "guests.read",
                   "guests.write", "dashboard.view", "folios.read", "folios.manage", "rateplans.read",
                   "rateplans.manage", "reports.view", "nightaudit.run", "settings.manage"}
  }

  lemma AllowList()
    ensures forall k :: k in CUSTOM_PERMISSION_ALLOWLIST <==> MayBeCustom(k)
  {
  }

  // ---- what a refused call grants ----

  /**
   * Two custom links of one label at one property, for different subjects: the second is refused, and the
   * first subject then holds every permission the refused call asked for.
   */
  lemma RefusedCallGrantsToFirst(properties: set<string>, first: Input, second: Input, permission: string)
    requires first.profile.Custom? && second.profile.Custom?
    requires first.property == second.property && first.labelText == second.labelText && first.sub != second.sub
    requires Refusal(properties, first).None? && Refusal(properties, second).None?
    requires permission in second.profile.permissions
    ensures Outcome(properties, [first, second], 1) == Failure(EmailTaken)
    ensures Holds(Run(Tables(properties, [], [], [], []), [first, second]), first.sub, permission, first.property)
  {
    var empty := Tables(properties, [], [], [], []);
    var t1, t2 := Link(empty, first).0, Link(Link(empty, first).0, second).0;
    FirstCustomLink(properties, first);
    SecondCustomLink(t1, first, second, permission);
    TwoCalls(properties, first, second);
  }

  lemma TwoCalls(properties: set<string>, first: Input, second: Input)
    ensures var t1 := Link(Tables(properties, [], [], [], []), first).0;
      && Run(Tables(properties, [], [], [], []), [first, second]) == Link(t1, second).0
      && Outcome(properties, [first, second], 1) == Link(t1, second).1
  {
    hide Link;
    var empty, inputs := Tables(properties, [], [], [], []), [first, second];
    assert inputs[..1] == [first] && inputs[..1][..0] == [];
    assert Run(empty, [first]) == Link(Run(empty, [first][..0]), first).0;
  }

  /** The tables after the first custom link of all. */
  lemma FirstCustomLink(properties: set<string>, input: Input)
    requires Refusal(properties, input).None?
    ensures var t := Link(Tables(properties, [], [], [], []), input).0;
      && Valid(t) && t.properties == properties
      && |t.users| == 1 && t.users[0].email == Email(input.labelText) && t.users[0].sub == Some(input.sub)
      && t.roles == [RoleFor(input)]
      && t.assignments == [Assignment(input.property, 0, 0)]
  {
    hide RoleFor, PermissionsFor, Email, Refusal;
    LinkKeepsTables(Tables(properties, [], [], [], []), input);
  }

  lemma SecondCustomLink(t: Tables, first: Input, second: Input, permission: string)
    requires Valid(t) && first.profile.Custom? && second.profile.Custom?
    requires first.property == second.property && first.labelText == second.labelText && first.sub != second.sub
    requires IsValidKeycloakSub(first.sub) && Refusal(t.properties, second).None?
    requires permission in second.profile.permissions
    requires |t.users| == 1 && t.users[0].email == Email(first.labelText) && t.users[0].sub == Some(first.sub)
    requires t.roles == [RoleFor(first)] && t.assignments == [Assignment(first.property, 0, 0)]
    ensures Link(t, second).1 == Failure(EmailTaken)
    ensures Holds(Link(t, second).0, first.sub, permission, first.property)
  {
    var t' := Link(t, second).0;
    assert FindRole(t.roles, RoleFor(second)) == Some(0);
    AddGrantsContents(t.grants, second.property, 0, PermissionsFor(second));
    assert t'.assignments == t.assignments && Assignment(first.property, 0, 0) in t'.assignments;
    assert HasRole(t', first.sub, 0, first.property);
  }

  const FIRST_SUBJECT := "11111111-1111-4111-8111-111111111111"
  const SECOND_SUBJECT := "22222222-2222-4222-8222-222222222222"

  /** A run in which a refused call gives another subject a permission that no completed call asked for. */
  lemma RefusedCallWidensFirst()
    ensures var first := Input("p", FIRST_SUBJECT, "Agent", Custom(["rooms.read"]));
      var second := Input("p", SECOND_SUBJECT, "Agent", Custom(["settings.manage"]));
      && Outcome({"p"}, [first, second], 1) == Failure(EmailTaken)
      && !Holds(Run(Tables({"p"}, [], [], [], []), [first]), FIRST_SUBJECT, "settings.manage", "p")
      && Holds(Run(Tables({"p"}, [], [], [], []), [first, second]), FIRST_SUBJECT, "settings.manage", "p")
  {
    var first := Input("p", FIRST_SUBJECT, "Agent", Custom(["rooms.read"]));
    var second := Input("p", SECOND_SUBJECT, "Agent", Custom(["settings.manage"]));
    FirstSubjectIsValid();
    SecondSubjectIsValid();
    assert FIRST_SUBJECT[0] != SECOND_SUBJECT[0];
    hide Link, RoleFor, IsValidKeycloakSub, SomeLinkGaveRole, Holds;
    assert first.profile.permissions[0] in CUSTOM_PERMISSION_ALLOWLIST;
    assert second.profile.permissions[0] in CUSTOM_PERMISSION_ALLOWLIST;
    RefusedCallGrantsToFirst({"p"}, first, second, "settings.manage");
    NotGrantedByFirst(first, "settings.manage");
    HoldsExactlyWhatWasLinked({"p"}, [first], FIRST_SUBJECT, "settings.manage", "p");
  }

  lemma NotGrantedByFirst(first: Input, permission: string)
    requires permission !in PermissionsFor(first)
    ensures forall role: Role :: !SomeCallGranted({"p"}, [first], role, permission, "p")
  {
    hide Outcome;
  }

  predicate IsHexDigit(c: char) {
    '0' <= c <= '9' || 'a' <= c <= 'f' || 'A' <= c <= 'F'
  }

  /** A subject is a UUID of version 1 to 5 with the variant digit 8, 9, a or b, in letters of either case. */
  lemma SubjectIsUuid(sub: string)
    ensures IsValidKeycloakSub(sub)
      <==> && |sub| == 36
           && sub[8] == '-' && sub[13] == '-' && sub[18] == '-' && sub[23] == '-'
           && (forall i :: 0 <= i < 36 && i !in {8, 13, 18, 23} ==> IsHexDigit(sub[i]))
           && sub[14] in {'1', '2', '3', '4', '5'} && sub[19] in {'8', '9', 'a', 'b', 'A', 'B'}
  {
  }

  lemma FirstSubjectIsValid()
    ensures IsValidKeycloakSub(FIRST_SUBJECT)
  {
  }

  lemma SecondSubjectIsValid()
    ensures IsValidKeycloakSub(SECOND_SUBJECT)
  {
  }
}
