/**
 * User and role rules of the identity layer: the admin check, the user list
 * with its "enabled" and role filters, the lockout test, the sorted role
 * list, the creation of the application roles and the password checks.
 * The identity store is a value: the users table and each user's roles.
 */
module UserUtils {
  import opened Wrappers
  import opened Text
  import opened Globals
  import opened Sorting
  import opened ApplicationUsers

  /** The identity store: the users table, in table order, and the role
      names of each user, keyed by user id. */
  datatype UserStore = UserStore(users: seq<ApplicationUser>, roles: map<string, seq<string>>)

  datatype UserError =
    | InvalidArgument(message: string)
    | InvalidOperation(message: string)
    | RoleCreationFailed(roleName: string)

  /** `UserManager.GetRolesAsync`: a user without an entry has no roles. */
  function RolesOf(store: UserStore, id: string): seq<string> {
    if id in store.roles then store.roles[id] else []
  }

  /** `UserManager.IsInRoleAsync`. */
  predicate IsInRole(store: UserStore, u: ApplicationUser, role: string) {
    role in RolesOf(store, u.id)
  }

  function FindIn(users: seq<ApplicationUser>, id: string): (r: Option<ApplicationUser>)
    ensures r.Some? ==> r.value in users && r.value.id == id
    ensures r.None? ==> forall u :: u in users ==> u.id != id
  {
    if users == [] then None
    else if users[0].id == id then Some(users[0])
    else FindIn(users[1..], id)
  }

  /** `UserManager.FindByIdAsync`: the first user of the table with that id. */
  function FindById(store: UserStore, id: string): Option<ApplicationUser> {
    FindIn(store.users, id)
  }

  // ---------------------------------------------------------------------
  // Looking users up

  /** `GetUserAsync(userId)`: an id is required and must name a user. */
  function GetUser(store: UserStore, userId: Option<string>): (r: Result<ApplicationUser, UserError>)
    ensures IsNullOrEmpty(userId) ==> r == Err(InvalidArgument("Not a valid user"))
    ensures r.Ok? ==> r.value in store.users && userId == Some(r.value.id)
    ensures !IsNullOrEmpty(userId) && (exists u :: u in store.users && u.id == userId.value) ==> r.Ok?
    ensures !IsNullOrEmpty(userId) && !(exists u :: u in store.users && u.id == userId.value)
      ==> r == Err(InvalidOperation("Current user not found"))
  {
    if IsNullOrEmpty(userId) then Err(InvalidArgument("Not a valid user"))
    else match FindById(store, userId.value)
      case Some(u) => Ok(u)
      case None => Err(InvalidOperation("Current user not found"))
  }

  /** `GetUserAsync()`: the user whose id the session holds; `currentId` is
      what `GetUserId` read from the request. */
  function GetCurrentUser(store: UserStore, currentId: Option<string>): (r: Result<ApplicationUser, UserError>)
    ensures currentId.None? ==> r == Err(InvalidOperation("Cannot get current user Id"))
    ensures r.Ok? ==> r.value in store.users && currentId == Some(r.value.id)
    ensures currentId.Some? && (exists u :: u in store.users && u.id == currentId.value) ==> r.Ok?
    ensures currentId.Some? && !(exists u :: u in store.users && u.id == currentId.value)
      ==> r == Err(InvalidOperation("Current user not found"))
  {
    match currentId
    case None => Err(InvalidOperation("Cannot get current user Id"))
    case Some(id) =>
      match FindById(store, id)
      case Some(u) => Ok(u)
      case None => Err(InvalidOperation("Current user not found"))
  }

  /** Both overloads of `GetUserAsync` give the same outcome for a
      non-empty id: the session's id is looked up like an explicit one. */
  lemma CurrentUserIsUserById(store: UserStore, id: string)
    requires id != ""
    ensures GetCurrentUser(store, Some(id)) == GetUser(store, Some(id))
    ensures GetCurrentUser(store, Some(id)).Ok? <==> exists u :: u in store.users && u.id == id
  {
  }

  // ---------------------------------------------------------------------
  // Admin check

  /** `IsAdminAsync(user, onlySuperAdmin)`. */
  function IsAdmin(store: UserStore, u: ApplicationUser, onlySuperAdmin: bool): (r: bool)
    ensures IsInRole(store, u, RoleAdmin) ==> r
    ensures onlySuperAdmin && !IsInRole(store, u, RoleAdmin) ==> !r
    ensures !onlySuperAdmin && !IsInRole(store, u, RoleAdmin) ==> (r <==> IsInRole(store, u, RoleSupervisor))
  {
    if IsInRole(store, u, RoleAdmin) then true
    else if onlySuperAdmin then false
    else IsInRole(store, u, RoleSupervisor)
  }

  /** The admin check agrees with the role hierarchy: a user is an admin
      exactly when one of their roles has the Company role below it, and a
      super admin exactly when one of their roles has the Supervisor role
      below it. */
  lemma IsAdminByHierarchy(store: UserStore, u: ApplicationUser)
    ensures IsAdmin(store, u, false) <==>
      exists r :: r in RolesOf(store, u.id) && RoleCompanyUser in Subordinates(r)
    ensures IsAdmin(store, u, true) <==>
      exists r :: r in RolesOf(store, u.id) && RoleSupervisor in Subordinates(r)
  {
    var rs := RolesOf(store, u.id);
    SubordinatesValues(RoleAdmin);
    SubordinatesValues(RoleSupervisor);
    forall r | r in rs
      ensures RoleCompanyUser in Subordinates(r) <==> r == RoleAdmin || r == RoleSupervisor
      ensures RoleSupervisor in Subordinates(r) <==> r == RoleAdmin
    {
      SubordinatesValues(r);
    }
  }

  // ---------------------------------------------------------------------
  // Lockout

  /** `IsLockedOutAsync`: lockout is on and its end lies in the future. */
  predicate IsLockedOut(u: ApplicationUser, now: Instant) {
    u.lockoutEnabled && u.lockoutEnd.Some? && u.lockoutEnd.value > now
  }

  /** The `onlyEnabled` condition of `GetAllUsersAsync`. */
  predicate IsEnabledAt(u: ApplicationUser, now: Instant) {
    !u.lockoutEnabled || u.lockoutEnd.None? || u.lockoutEnd.value < now
  }

  /** An enabled user is never locked out, and the only users that are
      neither are those whose lockout ends exactly now. */
  lemma LockoutBoundary(u: ApplicationUser, now: Instant)
    ensures IsEnabledAt(u, now) ==> !IsLockedOut(u, now)
    ensures (!IsEnabledAt(u, now) && !IsLockedOut(u, now)) <==>
            (u.lockoutEnabled && u.lockoutEnd == Some(now))
  {
  }

  // ---------------------------------------------------------------------
  // The user list

  function EnabledUsers(users: seq<ApplicationUser>, now: Instant): (r: seq<ApplicationUser>)
    ensures forall u :: u in r <==> u in users && IsEnabledAt(u, now)
  {
    if users == [] then []
    else (if IsEnabledAt(users[0], now) then [users[0]] else []) + EnabledUsers(users[1..], now)
  }

  /** The order of `OrderByDescending(x => x.LastAccess)`. */
  predicate ByLastAccessDesc(a: ApplicationUser, b: ApplicationUser) {
    a.lastAccess >= b.lastAccess
  }

  lemma ByLastAccessDescTotal()
    ensures TotalPreorder(ByLastAccessDesc)
  {
  }

  /** `roleNames.Intersect(roles).Any()`. */
  predicate InAnyRole(store: UserStore, u: ApplicationUser, roleNames: seq<string>) {
    exists r :: r in roleNames && r in RolesOf(store, u.id)
  }

  /** The users of the list that hold one of the roles, in list order. */
  function KeepInRoles(store: UserStore, users: seq<ApplicationUser>, roleNames: seq<string>): seq<ApplicationUser> {
    if users == [] then []
    else (if InAnyRole(store, users[0], roleNames) then [users[0]] else []) + KeepInRoles(store, users[1..], roleNames)
  }

  /** The role filter keeps exactly the users that hold one of the roles. */
  lemma {:induction false} KeepInRolesMembers(store: UserStore, users: seq<ApplicationUser>, roleNames: seq<string>)
    ensures forall u :: u in KeepInRoles(store, users, roleNames) <==> u in users && InAnyRole(store, u, roleNames)
  {
    if users != [] {
      KeepInRolesMembers(store, users[1..], roleNames);
      assert users == [users[0]] + users[1..];
    }
  }

  /** The role filter keeps relative order: filtering a concatenation
      concatenates the filtered parts. */
  lemma {:induction false} KeepInRolesAppend(store: UserStore, a: seq<ApplicationUser>, b: seq<ApplicationUser>, roleNames: seq<string>)
    ensures KeepInRoles(store, a + b, roleNames) == KeepInRoles(store, a, roleNames) + KeepInRoles(store, b, roleNames)
  {
    if a == [] {
      assert a + b == b;
    } else {
      assert (a + b)[1..] == a[1..] + b;
      KeepInRolesAppend(store, a[1..], b, roleNames);
    }
  }

  /** Filtering keeps a list ordered. */
  lemma {:induction false} KeepInRolesSorted(store: UserStore, users: seq<ApplicationUser>, roleNames: seq<string>)
    requires SortedBy(ByLastAccessDesc, users)
    ensures SortedBy(ByLastAccessDesc, KeepInRoles(store, users, roleNames))
  {
    if users != [] {
      KeepInRolesSorted(store, users[1..], roleNames);
      KeepInRolesMembers(store, users[1..], roleNames);
      var rest := KeepInRoles(store, users[1..], roleNames);
      forall j | 0 <= j < |rest| ensures ByLastAccessDesc(users[0], rest[j]) {
        assert rest[j] in users[1..];
      }
    }
  }

  lemma KeepInRolesStep(store: UserStore, users: seq<ApplicationUser>, i: int, roleNames: seq<string>)
    requires 0 <= i < |users|
    ensures users[..i + 1] == users[..i] + [users[i]]
    ensures KeepInRoles(store, users[i..], roleNames) ==
      (if InAnyRole(store, users[i], roleNames) then [users[i]] else []) + KeepInRoles(store, users[i + 1..], roleNames)
  {
    assert users[i..][1..] == users[i + 1..];
  }

  /** The result of `GetAllUsersAsync(roleNames, onlyEnabled)` at time `now`. */
  function AllUsers(store: UserStore, roleNames: seq<string>, onlyEnabled: bool, now: Instant): seq<ApplicationUser> {
    var users := if onlyEnabled then EnabledUsers(store.users, now) else store.users;
    var ordered := InsertionSort(ByLastAccessDesc, users);
    if |roleNames| != 0 then KeepInRoles(store, ordered, roleNames) else ordered
  }

  /** The list holds exactly the users of the table that pass the filters:
      enabled when asked for, and in one of the roles when roles are given
      (an empty role list removes nobody); it is ordered by descending last
      access. */
  lemma AllUsersSpec(store: UserStore, roleNames: seq<string>, onlyEnabled: bool, now: Instant)
    ensures forall u :: u in AllUsers(store, roleNames, onlyEnabled, now) <==>
      && u in store.users
      && (onlyEnabled ==> IsEnabledAt(u, now))
      && (|roleNames| != 0 ==> InAnyRole(store, u, roleNames))
    ensures SortedBy(ByLastAccessDesc, AllUsers(store, roleNames, onlyEnabled, now))
    ensures onlyEnabled ==> forall u :: u in AllUsers(store, roleNames, onlyEnabled, now) ==> !IsLockedOut(u, now)
  {
    var users := if onlyEnabled then EnabledUsers(store.users, now) else store.users;
    var ordered := InsertionSort(ByLastAccessDesc, users);
    ByLastAccessDescTotal();
    InsertionSortCorrect(ByLastAccessDesc, users);
    assert forall u :: u in ordered <==> u in users by {
      forall u ensures u in ordered <==> u in users {
        assert u in ordered <==> u in multiset(ordered);
        assert u in users <==> u in multiset(users);
      }
    }
    if |roleNames| != 0 {
      KeepInRolesMembers(store, ordered, roleNames);
      KeepInRolesSorted(store, ordered, roleNames);
    }
  }

  /** The role filter of `GetAllUsersAsync`: walks the list backwards and
      removes every user that holds none of the roles. */
  method RemoveUsersNotInRoles(store: UserStore, users: seq<ApplicationUser>, roleNames: seq<string>)
    returns (result: seq<ApplicationUser>)
    ensures result == KeepInRoles(store, users, roleNames)
  {
    result := users;
    var i := |result| - 1;
    while i >= 0
      invariant -1 <= i < |users|
      invariant result == users[..i + 1] + KeepInRoles(store, users[i + 1..], roleNames)
    {
      KeepInRolesStep(store, users, i, roleNames);
      ghost var kept := KeepInRoles(store, users[i + 1..], roleNames);
      assert result[..i] == users[..i] && result[i] == users[i] && result[i + 1..] == kept;
      if !InAnyRole(store, result[i], roleNames) {
        result := result[..i] + result[i + 1..];
      } else {
        assert result == users[..i] + ([users[i]] + kept);
      }
      i := i - 1;
    }
    assert users[..0] == [] && users[0..] == users;
  }

  /** `GetAllUsersAsync(roleNames, onlyEnabled)`: the database query filters
      and orders the table, then the role filter runs when roles are given. */
  method GetAllUsers(store: UserStore, roleNames: seq<string>, onlyEnabled: bool, now: Instant)
    returns (result: seq<ApplicationUser>)
    ensures result == AllUsers(store, roleNames, onlyEnabled, now)
  {
    var users := store.users;
    if onlyEnabled {
      users := EnabledUsers(users, now);
    }
    result := InsertionSort(ByLastAccessDesc, users);
    if |roleNames| != 0 {
      result := RemoveUsersNotInRoles(store, result, roleNames);
    }
  }

  /** `GetAllUsersAsync(roleName, onlyEnabled)`: a null or empty role name
      means no role filter. */
  method GetAllUsersByRoleName(store: UserStore, roleName: Option<string>, onlyEnabled: bool, now: Instant)
    returns (result: seq<ApplicationUser>)
    ensures IsNullOrEmpty(roleName) ==> result == AllUsers(store, [], onlyEnabled, now)
    ensures !IsNullOrEmpty(roleName) ==> result == AllUsers(store, [roleName.value], onlyEnabled, now)
  {
    if IsNullOrEmpty(roleName) {
      result := GetAllUsers(store, [], onlyEnabled, now);
    } else {
      result := GetAllUsers(store, [roleName.value], onlyEnabled, now);
    }
  }

  /** `GetAllUsersAsync(onlyEnabled)`: no role filter. */
  method GetAllUsersAnyRole(store: UserStore, onlyEnabled: bool, now: Instant)
    returns (result: seq<ApplicationUser>)
    ensures result == AllUsers(store, [], onlyEnabled, now)
  {
    result := GetAllUsers(store, [], onlyEnabled, now);
  }

  // ---------------------------------------------------------------------
  // Roles of a user

  /** Ordinal (code point by code point) ordering of strings. */
  predicate OrdinalLe(a: string, b: string) {
    a == [] || (b != [] && (a[0] < b[0] || (a[0] == b[0] && OrdinalLe(a[1..], b[1..]))))
  }

  lemma {:induction false} OrdinalTotal(a: string, b: string)
    ensures OrdinalLe(a, b) || OrdinalLe(b, a)
  {
    if a != [] && b != [] && a[0] == b[0] {
      OrdinalTotal(a[1..], b[1..]);
    }
  }

  lemma {:induction false} OrdinalTransitive(a: string, b: string, c: string)
    requires OrdinalLe(a, b) && OrdinalLe(b, c)
    ensures OrdinalLe(a, c)
  {
    if a != [] && b != [] && c != [] && a[0] == b[0] && b[0] == c[0] {
      OrdinalTransitive(a[1..], b[1..], c[1..]);
    }
  }

  lemma OrdinalTotalPreorder()
    ensures TotalPreorder(OrdinalLe)
  {
    forall a, b ensures OrdinalLe(a, b) || OrdinalLe(b, a) {
      OrdinalTotal(a, b);
    }
    forall a, b, c | OrdinalLe(a, b) && OrdinalLe(b, c) ensures OrdinalLe(a, c) {
      OrdinalTransitive(a, b, c);
    }
  }

  /** `GetUserRolesAsync(userId)`. */
  function GetUserRoles(store: UserStore, userId: Option<string>): (r: Result<seq<string>, UserError>)
    ensures IsNullOrEmpty(userId) ==> r == Err(InvalidArgument("User id is required"))
  {
    if IsNullOrEmpty(userId) then Err(InvalidArgument("User id is required"))
    else match FindById(store, userId.value)
      case None => Err(InvalidArgument("Non existing user"))
      case Some(u) => Ok(InsertionSort(OrdinalLe, RolesOf(store, u.id)))
  }

  /** The roles of an existing user come back in ascending order, and they
      are that user's roles, each as often as the store holds it; an id that
      names no user is an argument error. */
  lemma GetUserRolesSpec(store: UserStore, id: string)
    requires id != ""
    ensures FindById(store, id).None? ==> GetUserRoles(store, Some(id)) == Err(InvalidArgument("Non existing user"))
    ensures FindById(store, id).Some? ==>
      && GetUserRoles(store, Some(id)).Ok?
      && SortedBy(OrdinalLe, GetUserRoles(store, Some(id)).value)
      && multiset(GetUserRoles(store, Some(id)).value) == multiset(RolesOf(store, id))
  {
    OrdinalTotalPreorder();
    InsertionSortCorrect(OrdinalLe, RolesOf(store, id));
  }

  // ---------------------------------------------------------------------
  // Password checks

  datatype PasswordVerificationResult = Failed | Success | SuccessRehashNeeded

  /** `CheckPassword(user, password)`: `verify` is the password hasher's
      `VerifyHashedPassword(hash, password)`. Only a plain `Success` counts. */
  function CheckPassword(user: Option<ApplicationUser>, password: string,
                         verify: (string, string) -> PasswordVerificationResult): (ok: bool)
    ensures ok <==> user.Some? && !IsNullOrEmpty(user.value.passwordHash)
                    && verify(user.value.passwordHash.value, password) == Success
    ensures (user.Some? && !IsNullOrEmpty(user.value.passwordHash)
             && verify(user.value.passwordHash.value, password) == SuccessRehashNeeded) ==> !ok
  {
    if user.None? || IsNullOrEmpty(user.value.passwordHash) then false
    else verify(user.value.passwordHash.value, password) == Success
  }

  datatype IdentityResult = IdentityResult(succeeded: bool, errors: seq<string>)

  /** The descriptions of the errors of every failed validation, in order. */
  function FailedErrors(results: seq<IdentityResult>): seq<string> {
    if results == [] then []
    else FailedErrors(results[..|results| - 1])
         + (var last := results[|results| - 1]; if last.succeeded then [] else last.errors)
  }

  /** No error is reported exactly when every validator succeeded or failed
      without a description. */
  lemma {:induction false} FailedErrorsEmpty(results: seq<IdentityResult>)
    ensures FailedErrors(results) == [] <==>
      forall i :: 0 <= i < |results| ==> results[i].succeeded || results[i].errors == []
  {
    if results != [] {
      FailedErrorsEmpty(results[..|results| - 1]);
    }
  }

  /** `ValidatePasswordQualityAsync(password)`: runs every password
      validator (each is a function of the password) and collects the
      descriptions of the errors of the failed ones. */
  method ValidatePasswordQuality(validators: seq<string -> IdentityResult>, password: string)
    returns (passwordErrors: seq<string>)
    ensures passwordErrors == FailedErrors(seq(|validators|, i requires 0 <= i < |validators| => validators[i](password)))
  {
    ghost var results := seq(|validators|, i requires 0 <= i < |validators| => validators[i](password));
    passwordErrors := [];
    for k := 0 to |validators|
      invariant passwordErrors == FailedErrors(results[..k])
    {
      var result := validators[k](password);
      assert results[..k + 1][..k] == results[..k];
      if !result.succeeded {
        for e := 0 to |result.errors|
          invariant passwordErrors == FailedErrors(results[..k]) + result.errors[..e]
        {
          passwordErrors := passwordErrors + [result.errors[e]];
          assert result.errors[..e + 1] == result.errors[..e] + [result.errors[e]];
        }
        assert result.errors[..|result.errors|] == result.errors;
      }
    }
    assert results[..|validators|] == results;
  }

  // ---------------------------------------------------------------------
  // Creating the application roles

  /** The roles of `rs`, in order, that are not in `existing`. */
  function MissingRoles(existing: seq<string>, rs: seq<string>): seq<string> {
    if rs == [] then []
    else MissingRoles(existing, rs[..|rs| - 1])
         + (if rs[|rs| - 1] in existing then [] else [rs[|rs| - 1]])
  }

  lemma {:induction false} MissingRolesMembers(existing: seq<string>, rs: seq<string>)
    ensures forall x :: x in MissingRoles(existing, rs) <==> x in rs && x !in existing
  {
    if rs != [] {
      MissingRolesMembers(existing, rs[..|rs| - 1]);
      assert rs == rs[..|rs| - 1] + [rs[|rs| - 1]];
    }
  }

  /** Only missing roles are created, after the initialization every role of
      `Roles` exists, and a second initialization creates nothing. */
  lemma InitializeRolesIdempotent(existing: seq<string>)
    ensures forall x :: x in MissingRoles(existing, Roles) ==> x in Roles && x !in existing
    ensures forall x :: x in Roles ==> x in existing + MissingRoles(existing, Roles)
    ensures MissingRoles(existing + MissingRoles(existing, Roles), Roles) == []
  {
    MissingRolesMembers(existing, Roles);
    MissingRolesNone(existing + MissingRoles(existing, Roles), Roles);
  }

  lemma {:induction false} MissingRolesNone(existing: seq<string>, rs: seq<string>)
    requires forall x :: x in rs ==> x in existing
    ensures MissingRoles(existing, rs) == []
  {
    if rs != [] {
      assert rs[|rs| - 1] in rs;
      MissingRolesNone(existing, rs[..|rs| - 1]);
    }
  }

  /** The role at position k exists after the earlier steps exactly when it
      existed before, and the step adds it to the created roles when it did not. */
  lemma InitializeRolesStep(existing: seq<string>, k: nat)
    requires k < |Roles|
    ensures Roles[k] in existing + MissingRoles(existing, Roles[..k]) <==> Roles[k] in existing
    ensures MissingRoles(existing, Roles[..k + 1])
         == MissingRoles(existing, Roles[..k]) + (if Roles[k] in existing then [] else [Roles[k]])
  {
    RolesDistinct();
    MissingRolesMembers(existing, Roles[..k]);
    assert Roles[k] !in Roles[..k];
    assert Roles[..k + 1][..k] == Roles[..k];
  }

  /** The role table of the `RoleManager`: its role names, oldest first. */
  class RoleStore {
    var names: seq<string>

    constructor (existing: seq<string>)
      ensures names == existing
    {
      names := existing;
    }

    /** `RoleExistsAsync`. */
    predicate RoleExists(name: string)
      reads this
    {
      name in names
    }

    /** `CreateAsync(new IdentityRole(name))`; `accepted` is the store's
        answer, which this model does not see into. */
    method Create(name: string, accepted: bool) returns (succeeded: bool)
      modifies this
      ensures succeeded == accepted
      ensures names == if accepted then old(names) + [name] else old(names)
    {
      succeeded := accepted;
      if accepted {
        names := names + [name];
      }
    }
  }

  datatype Completion = Completed | Threw(error: UserError)

  /** The first step of `InitializeRolesAsync`: every role of `Roles` that
      does not exist is created, in order; a refused creation throws.
      `accepts` says whether the store accepts the creation of a role. */
  method InitializeRoles(store: RoleStore, accepts: string -> bool) returns (r: Completion)
    modifies store
    ensures r.Completed? <==> forall x :: x in MissingRoles(old(store.names), Roles) ==> accepts(x)
    ensures r.Completed? ==> store.names == old(store.names) + MissingRoles(old(store.names), Roles)
    ensures r.Threw? ==> exists k ::
      && 0 <= k < |Roles|
      && r.error == RoleCreationFailed(Roles[k])
      && Roles[k] !in old(store.names) && !accepts(Roles[k])
      && store.names == old(store.names) + MissingRoles(old(store.names), Roles[..k])
      && (forall x :: x in MissingRoles(old(store.names), Roles[..k]) ==> accepts(x))
  {
    ghost var existing := store.names;
    for k := 0 to |Roles|
      invariant store.names == existing + MissingRoles(existing, Roles[..k])
      invariant forall x :: x in MissingRoles(existing, Roles[..k]) ==> accepts(x)
    {
      var roleName := Roles[k];
      InitializeRolesStep(existing, k);
      if !store.RoleExists(roleName) {
        var succeeded := store.Create(roleName, accepts(roleName));
        if !succeeded {
          MissingRolesMembers(existing, Roles);
          assert roleName in MissingRoles(existing, Roles);
          assert store.names == existing + MissingRoles(existing, Roles[..k]);
          return Threw(RoleCreationFailed(roleName));
        }
      }
    }
    assert Roles[..|Roles|] == Roles;
    r := Completed;
  }
}
