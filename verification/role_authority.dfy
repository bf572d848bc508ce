/** Role assignment, revocation and listing for user accounts
    (RoleServiceImpl), over an abstract store of users and roles. */
module RoleAuthority {
  import opened Wrappers
  import opened Text

  /** The closed set of role names. */
  datatype RoleName = ADMIN | PM | USER

  /** The enum constant's name, as its toString() renders it. */
  function RoleText(n: RoleName): string
  {
    match n
    case ADMIN => "ADMIN"
    case PM => "PM"
    case USER => "USER"
  }

  /** Java string concatenation of a possibly-null role name. */
  function OptionalRoleText(n: Option<RoleName>): string
  {
    match n
    case None => "null"
    case Some(name) => RoleText(name)
  }

  /** A role entity: a database id and its unique name. */
  datatype Role = Role(id: int, name: RoleName)

  /** The persistent state the service works on. `users` maps each existing
      user id to the names of the roles it holds; `roles` is the role table,
      keyed by its unique name and giving the role's id. */
  datatype Store = Store(users: map<int, set<RoleName>>, roles: map<RoleName, int>)

  /** The two exceptions the service raises, with their messages. */
  datatype RoleError = UserNotFound(message: string) | RoleNotFound(message: string)

  /** What assign or revoke did: the boolean returned, whether the user was
      saved, and the store afterwards. */
  datatype Change = Change(returned: bool, saved: bool, store: Store)

  /** Only user `id`'s roles may differ between `st` and `st'`: the role
      table, the set of users and every other user's roles are kept. */
  ghost predicate OnlyUserChanged(st: Store, st': Store, id: int)
  {
    && st'.roles == st.roles
    && st'.users.Keys == st.users.Keys
    && forall u :: u in st.users && u != id ==> st'.users[u] == st.users[u]
  }

  /** mapToRoleName: the lower-cased text "admin", "pm" or "user" names a
      role; anything else maps to null. */
  function MapToRoleName(s: string): Option<RoleName>
  {
    var lower := ToLower(s);
    if lower == "admin" then Some(ADMIN)
    else if lower == "pm" then Some(PM)
    else if lower == "user" then Some(USER)
    else None
  }

  /** The role repository's findByName: the role with that name, if the
      table has one. Every role row is named, so a null name finds nothing. */
  function LookupRole(roles: map<RoleName, int>, name: Option<RoleName>): (r: Option<Role>)
    ensures r.Some? <==> name.Some? && name.value in roles
    ensures r.Some? ==> r.value.name == name.value && r.value.id == roles[name.value]
  {
    if name.Some? && name.value in roles then Some(Role(roles[name.value], name.value)) else None
  }

  /** findByName: the role wrapped in an Optional that is never empty, or
      RoleNotFound when the table has no role of that name. */
  function FindByName(roles: map<RoleName, int>, name: Option<RoleName>): (r: Result<Option<Role>, RoleError>)
    ensures r.Success? <==> name.Some? && name.value in roles
    ensures r.Success? ==> r.value.Some? && r.value.value.name == name.value
    ensures r.Success? ==> r.value == LookupRole(roles, name)
    ensures r.Failure? ==> r.error == RoleNotFound("Role Not Found with name: " + OptionalRoleText(name))
  {
    match LookupRole(roles, name)
    case Some(role) => Success(Some(role))
    case None => Failure(RoleNotFound("Role Not Found with name: " + OptionalRoleText(name)))
  }

  /** assignRole: look the user up, then the role; add the role unless the
      user already holds it. */
  function AssignRole(st: Store, userId: int, roleName: string): (r: Result<Change, RoleError>)
    ensures userId !in st.users ==>
              r == Failure(UserNotFound("User not found with ID: " + DecimalText(userId)))
    ensures userId in st.users && LookupRole(st.roles, MapToRoleName(roleName)).None? ==>
              r == Failure(RoleNotFound("Role not found in system: " + roleName))
    ensures r.Success? <==> userId in st.users && LookupRole(st.roles, MapToRoleName(roleName)).Some?
    ensures r.Success? ==>
              && userId in st.users
              && MapToRoleName(roleName).Some?
              && MapToRoleName(roleName).value in st.roles
              && var n := MapToRoleName(roleName).value;
                 && (r.value.returned <==> n !in st.users[userId])
                 && r.value.saved == r.value.returned
                 && (!r.value.returned ==> r.value.store == st)
                 && OnlyUserChanged(st, r.value.store, userId)
                 && r.value.store.users[userId] == st.users[userId] + {n}
  {
    if userId !in st.users then
      Failure(UserNotFound("User not found with ID: " + DecimalText(userId)))
    else
      match LookupRole(st.roles, MapToRoleName(roleName))
      case None => Failure(RoleNotFound("Role not found in system: " + roleName))
      case Some(role) =>
        var held := st.users[userId];
        if role.name in held then
          Success(Change(false, false, st))
        else
          Success(Change(true, true, st.(users := st.users[userId := held + {role.name}])))
  }

  /** revokeRole: look the user up, then remove every held role whose name
      is the mapped name (none when the name is not recognised). */
  function RevokeRole(st: Store, id: int, roleName: string): (r: Result<Change, RoleError>)
    ensures id !in st.users ==> r == Failure(UserNotFound("User not found."))
    ensures id in st.users ==>
              && r.Success?
              && var mapped := MapToRoleName(roleName);
                 && (r.value.returned <==> mapped.Some? && mapped.value in st.users[id])
                 && r.value.saved == r.value.returned
                 && (!r.value.returned ==> r.value.store == st)
                 && OnlyUserChanged(st, r.value.store, id)
                 && (forall n :: n in r.value.store.users[id] <==> n in st.users[id] && Some(n) != mapped)
  {
    if id !in st.users then
      Failure(UserNotFound("User not found."))
    else
      var held := st.users[id];
      var kept := set n | n in held && Some(n) != MapToRoleName(roleName);
      if kept != held then
        Success(Change(true, true, st.(users := st.users[id := kept])))
      else
        Success(Change(false, false, st))
  }

  /** One name string per role in `held`, in whatever order iterating
      the set yields them. */
  method RoleNameList(held: set<RoleName>) returns (names: seq<string>)
    ensures |names| == |held|
    ensures forall i, j :: 0 <= i < j < |names| ==> names[i] != names[j]
    ensures forall n :: n in held <==> RoleText(n) in names
  {
    var remaining := held;
    names := [];
    ghost var order: seq<RoleName> := [];
    while remaining != {}
      invariant remaining !! (set n | n in order)
      invariant remaining + (set n | n in order) == held
      invariant |names| == |order| == |held| - |remaining|
      invariant forall i :: 0 <= i < |order| ==> names[i] == RoleText(order[i])
      invariant forall i, j :: 0 <= i < j < |order| ==> order[i] != order[j]
      decreases remaining
    {
      var n :| n in remaining;
      names := names + [RoleText(n)];
      order := order + [n];
      remaining := remaining - {n};
    }
    RoleTextInjective();
  }

  /** getUserRoles: UserNotFound for an unknown id, otherwise the names of
      the roles the user holds, each exactly once. */
  method GetUserRoles(st: Store, id: int) returns (r: Result<seq<string>, RoleError>)
    ensures id !in st.users ==> r == Failure(UserNotFound("User not found."))
    ensures id in st.users ==>
              && r.Success?
              && |r.value| == |st.users[id]|
              && (forall i, j :: 0 <= i < j < |r.value| ==> r.value[i] != r.value[j])
              && (forall n :: n in st.users[id] <==> RoleText(n) in r.value)
  {
    if id !in st.users {
      return Failure(UserNotFound("User not found."));
    }
    var names := RoleNameList(st.users[id]);
    return Success(names);
  }

  /** Distinct roles have distinct names. */
  lemma RoleTextInjective()
    ensures forall a, b :: RoleText(a) == RoleText(b) ==> a == b
  {}

  /** mapToRoleName is case-insensitive: a string maps to a role exactly
      when it equals that role's name ignoring case, and to null exactly
      when it equals none of them. */
  lemma MapToRoleNameIgnoresCase(s: string)
    ensures forall n :: MapToRoleName(s) == Some(n) <==> EqualsIgnoreCase(s, RoleText(n))
    ensures MapToRoleName(s) == None <==> forall n :: !EqualsIgnoreCase(s, RoleText(n))
  {
    assert ToLower("ADMIN") == "admin";
    assert ToLower("PM") == "pm";
    assert ToLower("USER") == "user";
    ToLowerMatchesIgnoreCase(s, "ADMIN");
    ToLowerMatchesIgnoreCase(s, "PM");
    ToLowerMatchesIgnoreCase(s, "USER");
  }

  /** Sample spellings: mixed case is accepted, near misses are not. */
  lemma SampleSpellings()
    ensures MapToRoleName("aDmIn") == Some(ADMIN)
    ensures MapToRoleName("Pm") == Some(PM)
    ensures MapToRoleName("user") == Some(USER)
    ensures MapToRoleName("users") == None
    ensures MapToRoleName("") == None
  {}

  /** Every role name, as listed by getUserRoles, maps back to its role. */
  lemma RoleTextRoundTrip(n: RoleName)
    ensures MapToRoleName(RoleText(n)) == Some(n)
  {}

  /** Assigning the same role twice: the first call returns true, the
      second returns false and leaves the store as the first left it. */
  lemma AssignTwice(st: Store, userId: int, roleName: string)
    requires userId in st.users
    requires MapToRoleName(roleName).Some? && MapToRoleName(roleName).value in st.roles
    requires MapToRoleName(roleName).value !in st.users[userId]
    ensures AssignRole(st, userId, roleName).Success?
    ensures AssignRole(st, userId, roleName).value.returned
    ensures var st' := AssignRole(st, userId, roleName).value.store;
            AssignRole(st', userId, roleName) == Success(Change(false, false, st'))
  {}

  /** Revoking a role just assigned restores the store exactly. */
  lemma AssignThenRevoke(st: Store, userId: int, roleName: string)
    requires userId in st.users
    requires MapToRoleName(roleName).Some? && MapToRoleName(roleName).value in st.roles
    requires MapToRoleName(roleName).value !in st.users[userId]
    ensures AssignRole(st, userId, roleName).Success?
    ensures RevokeRole(AssignRole(st, userId, roleName).value.store, userId, roleName)
            == Success(Change(true, true, st))
  {
    var n := MapToRoleName(roleName).value;
    var st' := AssignRole(st, userId, roleName).value.store;
    var r := RevokeRole(st', userId, roleName);
    assert r.value.store.users[userId] == st.users[userId];
    assert r.value.store.users == st.users;
  }

  /** Revoking twice: the second revoke returns false and changes nothing. */
  lemma RevokeTwice(st: Store, id: int, roleName: string)
    requires id in st.users
    ensures var st' := RevokeRole(st, id, roleName).value.store;
            RevokeRole(st', id, roleName) == Success(Change(false, false, st'))
  {}

  /** Unknown role names: assign raises RoleNotFound while revoke quietly
      returns false and changes nothing. */
  lemma UnknownNameAsymmetry(st: Store, id: int, roleName: string)
    requires id in st.users
    requires MapToRoleName(roleName).None?
    ensures AssignRole(st, id, roleName) == Failure(RoleNotFound("Role not found in system: " + roleName))
    ensures RevokeRole(st, id, roleName) == Success(Change(false, false, st))
  {}

  /** An unknown user fails assign with UserNotFound whatever the role name,
      so the user check comes before any role lookup. */
  lemma AssignChecksUserFirst(st: Store, userId: int, name1: string, name2: string)
    requires userId !in st.users
    ensures AssignRole(st, userId, name1) == AssignRole(st, userId, name2)
    ensures AssignRole(st, userId, name1).Failure? && AssignRole(st, userId, name1).error.UserNotFound?
  {}
}
