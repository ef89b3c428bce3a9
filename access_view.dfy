/**
 * controllers/access/ViewAction.php: reading the permissions of user
 * `userId` in company `companyId`. The guards run in order: the main
 * administrator's permissions are never shown, an admin may look only at
 * accounts of another role in a company it manages, and the user must
 * belong to the company.
 */
module AccessView {
  import opened Wrappers
  import opened Permissions
  import opened Users
  import opened Access
  import opened Decisions

  /** The target's row of the users table: its role and its `companies` array (None when null). */
  datatype TargetRow = TargetRow(role: Role, companies: Option<seq<int>>)

  /**
   * `checkAccess(companyId, userId)`; `target` is the users-table row of
   * `userId`, None when there is none. For a missing row the admin's role
   * comparison sees an empty role and refuses; for anyone else the missing
   * row reads as `false`, which the array parser turns into the empty list,
   * so the user is not in the company. A row whose companies array is null
   * parses to null, and mapping over it fails.
   */
  function CheckAccess(assignments: set<Assignment>, r: Requester, companyId: int, userId: int, target: Option<TargetRow>): Decision
  {
    if userId == SuperId then Forbidden
    else if r.role == Admin && (target.None? || target.value.role == r.role) then Forbidden
    else if r.role == Admin && !Can(assignments, r.id, PermissionName(ManageUsers, companyId)) then Forbidden
    else if target.Some? && target.value.companies.None? then InternalError
    else if target.None? || companyId !in target.value.companies.value then InvalidParam("user_company_mismatch")
    else Allow
  }

  /** Whether one of the first two guards (the main administrator, the admin's checks) refuses. */
  predicate RefusedBeforeMembership(assignments: set<Assignment>, r: Requester, companyId: int, userId: int, target: Option<TargetRow>)
  {
    || userId == SuperId
    || (r.role == Admin && (target.None? || target.value.role == Admin))
    || (r.role == Admin && Assignment(Item(ManageUsers, companyId), r.id) !in assignments)
  }

  /**
   * The order of the guards: the refusal comes exactly from the first two
   * guards, so it wins over the company mismatch; the mismatch is reported
   * exactly when those guards pass and the user has no row or a row whose
   * companies do not include the company; a server error exactly when they
   * pass and the row's companies are null; and the permissions are shown
   * exactly when all guards pass.
   */
  lemma GuardOrder(assignments: set<Assignment>, r: Requester, companyId: int, userId: int, target: Option<TargetRow>)
    ensures CheckAccess(assignments, r, companyId, userId, target) == Forbidden
      <==> RefusedBeforeMembership(assignments, r, companyId, userId, target)
    ensures CheckAccess(assignments, r, companyId, userId, target) == InvalidParam("user_company_mismatch")
      <==> (!RefusedBeforeMembership(assignments, r, companyId, userId, target)
            && (target.None? || (target.value.companies.Some? && companyId !in target.value.companies.value)))
    ensures CheckAccess(assignments, r, companyId, userId, target) == InternalError
      <==> (!RefusedBeforeMembership(assignments, r, companyId, userId, target)
            && target.Some? && target.value.companies.None?)
    ensures CheckAccess(assignments, r, companyId, userId, target) == Allow
      <==> (!RefusedBeforeMembership(assignments, r, companyId, userId, target)
            && target.Some? && target.value.companies.Some? && companyId in target.value.companies.value)
  {
    CanPermission(assignments, r.id, ManageUsers, companyId);
  }

  /** Nobody, the main administrator included, sees the main administrator's permissions. */
  lemma SuperTargetForbidden(assignments: set<Assignment>, r: Requester, companyId: int, target: Option<TargetRow>)
    ensures CheckAccess(assignments, r, companyId, SuperId, target) == Forbidden
  {
  }

  /**
   * For everyone who gets past the first two guards, a company the target
   * does not belong to is `user_company_mismatch`.
   */
  lemma MismatchForEveryone(assignments: set<Assignment>, r: Requester, companyId: int, userId: int, t: TargetRow)
    requires userId != SuperId
    requires r.role == Admin ==> t.role != Admin && Assignment(Item(ManageUsers, companyId), r.id) in assignments
    requires t.companies.Some? && companyId !in t.companies.value
    ensures CheckAccess(assignments, r, companyId, userId, Some(t)) == InvalidParam("user_company_mismatch")
  {
    CanPermission(assignments, r.id, ManageUsers, companyId);
  }

  /** A user id without a row is, for anyone past the first guard who is not an admin, a company mismatch. */
  lemma MissingRowMismatch(assignments: set<Assignment>, r: Requester, companyId: int, userId: int)
    requires userId != SuperId && r.role != Admin
    ensures CheckAccess(assignments, r, companyId, userId, None) == InvalidParam("user_company_mismatch")
  {
  }

  /** An account that is not an admin is held only to the membership of the target in the company. */
  lemma NonAdminNeedsOnlyMembership(assignments: set<Assignment>, r: Requester, companyId: int, userId: int, t: TargetRow)
    requires userId != SuperId && r.role != Admin && t.companies.Some?
    ensures CheckAccess(assignments, r, companyId, userId, Some(t)) == Allow <==> companyId in t.companies.value
  {
  }

  /**
   * `run`: the guards, then `getPermissions` of (companyId, userId). On
   * success the result is what `getPermissions` returns; otherwise nothing is read.
   */
  method View(store: AccessStore, r: Requester, companyId: int, userId: int, target: Option<TargetRow>)
    returns (d: Decision, perms: map<Kind, bool>)
    modifies store`cache
    ensures d == CheckAccess(old(store.assignments), r, companyId, userId, target)
    ensures d == Allow ==> perms == old(store.Current(companyId, userId))
    ensures d == Allow ==> store.cache == old(store.cache)[(companyId, userId) := perms]
    ensures d != Allow ==> store.cache == old(store.cache) && perms == map[]
  {
    d := CheckAccess(store.assignments, r, companyId, userId, target);
    perms := map[];
    if d == Allow {
      perms := store.GetPermissions(companyId, userId);
    }
  }
}
