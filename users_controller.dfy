/**
 * controllers/UsersController.php: who may view, update and create a user
 * account. The main administrator passes every check; everyone else is held
 * to the rules below, evaluated in the order the controller runs them.
 */
module UsersController {
  import opened Wrappers
  import opened Permissions
  import opened Users
  import opened Access
  import opened Decisions

  /** The account a view or an update is about, as `findModel` loads it. */
  datatype Target = Target(id: int, role: Role, companies: Option<seq<int>>)

  /**
   * The request being checked. `companies` is the body parameter of that
   * name; None when it is missing or null.
   */
  datatype Request =
    | Create(companies: Option<seq<int>>)
    | Update(target: Target, companies: Option<seq<int>>)
    | View(target: Target)

  /** `getCompaniesParam`: a missing or empty list is refused with `company_empty`. */
  function CompaniesParam(companies: Option<seq<int>>): (r: Option<seq<int>>)
    ensures r.Some? <==> companies.Some? && companies.value != []
    ensures r.Some? ==> r.value == companies.value
  {
    if companies.None? || companies.value == [] then None else companies
  }

  /**
   * `checkManageUsers`: the requester needs manageUsers in the first listed
   * company; reading the first element of an empty list is a server error.
   */
  function CheckManageUsers(assignments: set<Assignment>, r: Requester, companies: seq<int>): Decision
  {
    if companies == [] then InternalError
    else if Can(assignments, r.id, PermissionName(ManageUsers, companies[0])) then Allow
    else Forbidden
  }

  /** `checkAccessSuperAdmin` then `checkAccessAdmin`: the checks on the target for another account. */
  function CheckTarget(r: Requester, t: Target): Decision
  {
    if t.id == SuperId then Forbidden
    else if t.id != r.id && t.role == Admin && r.role == Admin then Forbidden
    else Allow
  }

  function CheckAccessCreate(assignments: set<Assignment>, r: Requester, companies: Option<seq<int>>): Decision
  {
    var param := CompaniesParam(companies);
    if param.None? then InvalidParam("company_empty") else CheckManageUsers(assignments, r, param.value)
  }

  /** `checkAccessUpdateUser`: an admin without a companies parameter is let through. */
  function CheckAccessUpdateUser(assignments: set<Assignment>, r: Requester, companies: Option<seq<int>>): Decision
  {
    if r.role == Admin then
      var param := CompaniesParam(companies);
      if param.None? then Allow else CheckManageUsers(assignments, r, param.value)
    else Forbidden
  }

  /** `checkAccessViewUser`: an admin needs manageUsers in the target's first company. */
  function CheckAccessViewUser(assignments: set<Assignment>, r: Requester, t: Target): Decision
  {
    if r.role == Admin then
      (if t.companies.None? then InternalError else CheckManageUsers(assignments, r, t.companies.value))
    else Forbidden
  }

  /** `checkAccess`: nothing is checked for the main administrator. */
  function CheckAccess(assignments: set<Assignment>, r: Requester, req: Request): Decision
  {
    if IsSuperAdmin(r) then Allow
    else match req
      case Create(companies) => CheckAccessCreate(assignments, r, companies)
      case Update(t, companies) =>
        if CheckTarget(r, t) != Allow then CheckTarget(r, t)
        else if t.id == r.id then Allow
        else CheckAccessUpdateUser(assignments, r, companies)
      case View(t) =>
        if CheckTarget(r, t) != Allow then CheckTarget(r, t)
        else if t.id == r.id then Allow
        else CheckAccessViewUser(assignments, r, t)
  }

  /**
   * The whole decision for a request: the role filter on create (on the
   * role assignments), then `checkAccess` (on the `role` column).
   */
  function Decide(assignments: set<Assignment>, roleAssignments: set<RoleAssignment>, r: Requester, req: Request): Decision
  {
    if req.Create? && !PassesManagerFilter(roleAssignments, r) then Forbidden
    else CheckAccess(assignments, r, req)
  }

  /** The target of an update or a view; the create request has none. */
  function TargetOf(req: Request): Option<Target>
  {
    if req.Create? then None else Some(req.target)
  }

  /** The main administrator passes `checkAccess` for every request. */
  lemma SuperAdminPasses(assignments: set<Assignment>, r: Requester, req: Request)
    requires r.id == SuperId
    ensures CheckAccess(assignments, r, req) == Allow
  {
  }

  /** Anybody else is refused any view or update of the main administrator. */
  lemma SuperTargetForbidden(assignments: set<Assignment>, roleAssignments: set<RoleAssignment>, r: Requester, req: Request)
    requires r.id != SuperId && !req.Create? && req.target.id == SuperId
    ensures Decide(assignments, roleAssignments, r, req) == Forbidden
  {
  }

  /** An account other than the main administrator may always view and update itself. */
  lemma SelfAllowed(assignments: set<Assignment>, roleAssignments: set<RoleAssignment>, r: Requester, req: Request)
    requires !req.Create? && req.target.id == r.id
    ensures Decide(assignments, roleAssignments, r, req) == Allow
  {
  }

  /** An admin is refused another admin. */
  lemma AdminOnAdminForbidden(assignments: set<Assignment>, roleAssignments: set<RoleAssignment>, r: Requester, req: Request)
    requires r.id != SuperId && r.role == Admin
    requires !req.Create? && req.target.id != r.id && req.target.role == Admin
    ensures Decide(assignments, roleAssignments, r, req) == Forbidden
  {
  }

  /** An account that is not an admin (and not the main administrator) is refused every other account. */
  lemma NonAdminForbiddenOnOthers(assignments: set<Assignment>, roleAssignments: set<RoleAssignment>, r: Requester, req: Request)
    requires r.id != SuperId && r.role != Admin
    requires !req.Create? && req.target.id != r.id
    ensures Decide(assignments, roleAssignments, r, req) == Forbidden
  {
  }

  /**
   * An admin updating another plain account: let through without a companies
   * parameter, otherwise exactly when it holds manageUsers in the first listed company.
   */
  lemma AdminUpdate(assignments: set<Assignment>, roleAssignments: set<RoleAssignment>, r: Requester, t: Target, companies: Option<seq<int>>)
    requires r.id != SuperId && r.role == Admin
    requires t.id != SuperId && t.id != r.id && t.role != Admin
    ensures companies.None? || companies.value == [] ==> Decide(assignments, roleAssignments, r, Update(t, companies)) == Allow
    ensures companies.Some? && companies.value != [] ==>
      ((Decide(assignments, roleAssignments, r, Update(t, companies)) == Allow) <==>
        Assignment(Item(ManageUsers, companies.value[0]), r.id) in assignments)
    ensures Decide(assignments, roleAssignments, r, Update(t, companies)) in {Allow, Forbidden}
  {
    if companies.Some? && companies.value != [] {
      CanPermission(assignments, r.id, ManageUsers, companies.value[0]);
    }
  }

  /**
   * An admin viewing another plain account needs manageUsers in the target's
   * first company; a target without companies makes the check fail with a server error.
   */
  lemma AdminView(assignments: set<Assignment>, roleAssignments: set<RoleAssignment>, r: Requester, t: Target)
    requires r.id != SuperId && r.role == Admin
    requires t.id != SuperId && t.id != r.id && t.role != Admin
    ensures t.companies.None? || t.companies.value == [] ==> Decide(assignments, roleAssignments, r, View(t)) == InternalError
    ensures t.companies.Some? && t.companies.value != [] ==>
      ((Decide(assignments, roleAssignments, r, View(t)) == Allow) <==>
        Assignment(Item(ManageUsers, t.companies.value[0]), r.id) in assignments)
  {
    if t.companies.Some? && t.companies.value != [] {
      CanPermission(assignments, r.id, ManageUsers, t.companies.value[0]);
    }
  }

  /**
   * Creating an account: an account assigned neither superAdmin nor admin is
   * refused by the role filter, whatever its `role` column; for one that
   * passes, a missing or empty list is `company_empty`, and otherwise only
   * the first listed company's manageUsers is checked.
   */
  lemma CreateRules(assignments: set<Assignment>, roleAssignments: set<RoleAssignment>, r: Requester, companies: Option<seq<int>>)
    requires r.id != SuperId
    ensures RoleAssignment(SuperAdmin, r.id) !in roleAssignments && RoleAssignment(Admin, r.id) !in roleAssignments ==>
      Decide(assignments, roleAssignments, r, Create(companies)) == Forbidden
    ensures PassesManagerFilter(roleAssignments, r) && (companies.None? || companies.value == []) ==>
      Decide(assignments, roleAssignments, r, Create(companies)) == InvalidParam("company_empty")
    ensures PassesManagerFilter(roleAssignments, r) && companies.Some? && companies.value != [] ==>
      ((Decide(assignments, roleAssignments, r, Create(companies)) == Allow) <==>
        Assignment(Item(ManageUsers, companies.value[0]), r.id) in assignments)
  {
    ManagerFilterRoles(roleAssignments, r);
    if companies.Some? && companies.value != [] {
      CanPermission(assignments, r.id, ManageUsers, companies.value[0]);
    }
  }

  /**
   * Only the main administrator may create an account while holding no
   * permission at all, and only while it is assigned superAdmin or admin.
   */
  lemma CreateNeedsPermission(roleAssignments: set<RoleAssignment>, r: Requester, companies: Option<seq<int>>)
    ensures Decide({}, roleAssignments, r, Create(companies)) == Allow <==>
      r.id == SuperId && (RoleAssignment(SuperAdmin, r.id) in roleAssignments || RoleAssignment(Admin, r.id) in roleAssignments)
  {
    ManagerFilterRoles(roleAssignments, r);
  }
}
