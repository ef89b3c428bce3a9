/**
 * Outcomes of the authorization checks of the controllers: the request goes
 * on, is refused with 403, is refused with 400 and a message key, or ends
 * with a server error (an undefined array key or a call on null).
 */
module Decisions {
  import opened Users
  import opened Access

  datatype Decision = Allow | Forbidden | InvalidParam(message: string) | InternalError

  /** The logged-in account: its id and its `role` column. */
  datatype Requester = Requester(id: int, role: Role)

  /** `isSuperAdmin()` of the logged-in account. */
  predicate IsSuperAdmin(r: Requester)
  {
    r.id == SuperId
  }

  /**
   * The controller's role filter for listing and creating users: RBAC
   * `can('superAdmin')` or `can('admin')`, decided by the roles assigned to
   * the account in the RBAC store and the role hierarchy, not by its `role`
   * column. The assignment is made when the account is inserted and is not
   * redone when the column changes.
   */
  predicate PassesManagerFilter(roleAssignments: set<RoleAssignment>, r: Requester)
  {
    exists role :: RoleAssignment(role, r.id) in roleAssignments && (HoldsRole(role, SuperAdmin) || HoldsRole(role, Admin))
  }

  /** The filter passes exactly when the account is assigned superAdmin or admin. */
  lemma ManagerFilterRoles(roleAssignments: set<RoleAssignment>, r: Requester)
    ensures PassesManagerFilter(roleAssignments, r) <==>
      RoleAssignment(SuperAdmin, r.id) in roleAssignments || RoleAssignment(Admin, r.id) in roleAssignments
  {
    HoldsRoleCharacterised(SuperAdmin, Admin);
    HoldsRoleCharacterised(User, SuperAdmin);
    HoldsRoleCharacterised(User, Admin);
  }

  /** The account is assigned exactly the role its `role` column holds. */
  predicate AssignedAsColumn(roleAssignments: set<RoleAssignment>, r: Requester)
  {
    forall role :: RoleAssignment(role, r.id) in roleAssignments <==> role == r.role
  }

  /** While the assignment agrees with the column, the filter passes exactly for superAdmin and admin accounts. */
  lemma ManagerFilterByColumn(roleAssignments: set<RoleAssignment>, r: Requester)
    requires AssignedAsColumn(roleAssignments, r)
    ensures PassesManagerFilter(roleAssignments, r) <==> r.role != User
  {
    ManagerFilterRoles(roleAssignments, r);
  }

  /**
   * After a change of the column the kept assignment decides: an account
   * demoted to user but still assigned admin passes, and one promoted to
   * admin but assigned only user is refused.
   */
  lemma StaleAssignmentDecides(id: int)
    ensures PassesManagerFilter({RoleAssignment(Admin, id)}, Requester(id, User))
    ensures !PassesManagerFilter({RoleAssignment(User, id)}, Requester(id, Admin))
  {
    ManagerFilterRoles({RoleAssignment(Admin, id)}, Requester(id, User));
    ManagerFilterRoles({RoleAssignment(User, id)}, Requester(id, Admin));
  }
}
