/**
 * The role/permission table: a constant object that maps each role to its
 * list of permission names, the list of its keys (`roles`) and the lookup
 * map built from its entries (`roleRights`); and the permission each route
 * demands of its caller. A request passes a route's guard when the route
 * has none, or when the caller is signed in with a role whose rights hold
 * the route's permission.
 */
module Roles {
  import opened Wrappers

  type Role = string
  type Permission = string

  /** The table as an ordered list of entries, in the order of its keys. */
  const AllRoles: seq<(Role, seq<Permission>)> := [
    ("user", ["getNotifications", "getFormTypes", "getForms", "getRegulations", "askRegulation"]),
    ("admin", [
      "getUsers",
      "manageUsers",
      "manageNotifications",
      "getNotifications",
      "manageFormTypes",
      "getFormTypes",
      "manageForms",
      "getForms",
      "getRegulations",
      "manageRegulations",
      "askRegulation"])
  ]

  /** The keys of an entry list, in order (`Object.keys`). */
  function Keys<K, V>(entries: seq<(K, V)>): (r: seq<K>)
    ensures |r| == |entries|
    ensures forall i :: 0 <= i < |r| ==> r[i] == entries[i].0
  {
    if entries == [] then [] else Keys(entries[..|entries| - 1]) + [entries[|entries| - 1].0]
  }

  /** The value a map built from the entries holds for `key` (`new Map(...).get`). */
  function Lookup<K(==), V>(entries: seq<(K, V)>, key: K): Option<V> {
    if entries == [] then None
    else if entries[|entries| - 1].0 == key then Some(entries[|entries| - 1].1)
    else Lookup(entries[..|entries| - 1], key)
  }

  /** A map built from an entry list holds exactly the listed keys, each with a value listed for it. */
  lemma {:induction false} LookupSpec<K, V>(entries: seq<(K, V)>, key: K)
    ensures Lookup(entries, key).Some? <==> key in Keys(entries)
    ensures Lookup(entries, key).Some? ==> (key, Lookup(entries, key).value) in entries
    decreases |entries|
  {
    if entries != [] {
      var init := entries[..|entries| - 1];
      LookupSpec(init, key);
    }
  }

  const RoleList: seq<Role> := Keys(AllRoles)

  function RoleRights(role: Role): Option<seq<Permission>> {
    Lookup(AllRoles, role)
  }

  /** What the guard asks of a role: the role is known and its rights hold the permission. */
  predicate Authorize(role: Role, perm: Permission) {
    RoleRights(role).Some? && perm in RoleRights(role).value
  }

  predicate Distinct<T(==)>(s: seq<T>) {
    forall i, j :: 0 <= i < j < |s| ==> s[i] != s[j]
  }

  predicate IsManage(perm: Permission) {
    |perm| >= 6 && perm[..6] == "manage"
  }

  /** There are exactly two roles, `user` then `admin`. */
  lemma RoleListIsUserAdmin()
    ensures RoleList == ["user", "admin"]
  {
  }

  /** `user` has exactly its five listed rights and `admin` its eleven, with no repeats. */
  lemma RightsCounted()
    ensures RoleRights("user").Some? && |RoleRights("user").value| == 5 && Distinct(RoleRights("user").value)
    ensures RoleRights("admin").Some? && |RoleRights("admin").value| == 11 && Distinct(RoleRights("admin").value)
  {
  }

  /** Every right of `user` is a right of `admin`. */
  lemma UserRightsWithinAdmin(perm: Permission)
    ensures Authorize("user", perm) ==> Authorize("admin", perm)
  {
  }

  /** A `manage…` name begins with `m`. */
  lemma ManageStartsWithM(perm: Permission)
    requires IsManage(perm)
    ensures perm[0] == 'm'
  {
    assert perm[..6][0] == perm[0];
  }

  /** `user` holds no `manage…` right. */
  lemma UserManagesNothing(perm: Permission)
    ensures Authorize("user", perm) ==> !IsManage(perm)
  {
    if Authorize("user", perm) && IsManage(perm) {
      ManageStartsWithM(perm);
      assert false;
    }
  }

  /** Both roles may ask a question about the regulations. */
  lemma BothRolesMayAsk()
    ensures Authorize("user", "askRegulation") && Authorize("admin", "askRegulation")
  {
  }

  /** A name that is not one of the roles has no rights at all. */
  lemma UnknownRoleHasNoRights(role: Role, perm: Permission)
    requires role !in RoleList
    ensures RoleRights(role).None? && !Authorize(role, perm)
  {
    LookupSpec(AllRoles, role);
  }

  /** The routes of the API. */
  datatype Endpoint =
    | CreateForm | GetAllForms | GetForm | UpdateForm | DeleteForm
    | CreateFormType | GetAllFormTypes | GetFormType | UpdateFormType | DeleteFormType
    | CreateNotification | GetAllNotifications | GetNotification | UpdateNotification | DeleteNotification
    | Ask | CreateRegulation | GetRegulation | GetAllRegulations | DeleteRegulation

  /** The permission each route's guard names; the two regulation readers have no guard. */
  function Guard(e: Endpoint): Option<Permission> {
    match e
    case CreateForm | UpdateForm | DeleteForm => Some("manageForms")
    case GetAllForms | GetForm => Some("getForms")
    case CreateFormType | UpdateFormType | DeleteFormType => Some("manageFormTypes")
    case GetAllFormTypes | GetFormType => Some("getFormTypes")
    case CreateNotification | UpdateNotification | DeleteNotification => Some("manageNotifications")
    case GetAllNotifications | GetNotification => Some("getNotifications")
    case Ask => Some("askRegulation")
    case CreateRegulation | DeleteRegulation => Some("manageRegulations")
    case GetRegulation | GetAllRegulations => None
  }

  /** Who sends a request: nobody signed in, or a user with a role. */
  datatype Caller = Anonymous | SignedIn(role: Role)

  predicate MayCall(c: Caller, e: Endpoint) {
    match Guard(e)
    case None => true
    case Some(perm) => c.SignedIn? && Authorize(c.role, perm)
  }

  /** Every guarded route refuses a caller who is not signed in; the two unguarded ones admit anyone. */
  lemma AnonymousReachesOnlyUnguarded(e: Endpoint)
    ensures MayCall(Anonymous, e) <==> e == GetRegulation || e == GetAllRegulations
  {
  }

  /** `admin` may call every route. */
  lemma AdminMayCallAll(e: Endpoint)
    ensures MayCall(SignedIn("admin"), e)
  {
  }

  /** `user` may call exactly the routes that read, plus asking; never a route that changes anything. */
  lemma UserMayCallReaders(e: Endpoint)
    ensures MayCall(SignedIn("user"), e) <==> Guard(e).None? || !IsManage(Guard(e).value)
  {
    if Guard(e).Some? {
      UserManagesNothing(Guard(e).value);
      if IsManage(Guard(e).value) {
        ManageStartsWithM(Guard(e).value);
      }
    }
  }

  /** In particular `user` is refused all four create routes. */
  lemma UserCannotCreate()
    ensures !MayCall(SignedIn("user"), CreateForm) && !MayCall(SignedIn("user"), CreateFormType)
    ensures !MayCall(SignedIn("user"), CreateNotification) && !MayCall(SignedIn("user"), CreateRegulation)
  {
  }
}
