/**
 * controllers/users/IndexAction.php: listing the users of a company with
 * a given role. The query's `filter[role]` and `filter[companies]` must be
 * given; an admin may list only plain users of a company it manages, and
 * sees only the accounts that share all of its companies.
 */
module UsersIndex {
  import opened Wrappers
  import opened Text
  import opened Permissions
  import opened Users
  import opened Access
  import opened Decisions
  import opened InCondition

  /** A query parameter: a string, or an array with `size` entries (`filter[companies][in][]=…`). */
  datatype Param = Str(s: string) | Arr(size: nat)

  /** PHP `empty()` of a parameter: missing, "", "0" or an empty array. */
  predicate IsEmpty(p: Option<Param>)
  {
    match p
    case None => true
    case Some(Str(s)) => s == "" || s == "0"
    case Some(Arr(size)) => size == 0
  }

  /** PHP `(int)` of a parameter: the number a string starts with; 1 for a non-empty array. */
  function IntOf(p: Param): int
  {
    match p
    case Str(s) => IntCast(s)
    case Arr(size) => if size == 0 then 0 else 1
  }

  datatype Filter = Filter(role: Option<Param>, companies: Option<Param>)

  /** The outcome of `beforeRun`: refused, or the role and the company id to list. */
  datatype Parsed = Refused(d: Decision) | Accepted(role: string, companyId: int)

  /**
   * `beforeRun`: the role is checked for emptiness before the companies;
   * storing an array role in the string field is a type error.
   */
  function ParseFilter(f: Filter): Parsed
  {
    if IsEmpty(f.role) then Refused(InvalidParam("role_empty"))
    else if IsEmpty(f.companies) then Refused(InvalidParam("company_empty"))
    else if f.role.value.Arr? then Refused(InternalError)
    else Accepted(f.role.value.s, IntOf(f.companies.value))
  }

  /** `checkAccess`: only an admin is checked, then against the role listed and the company. */
  function CheckAccess(assignments: set<Assignment>, r: Requester, role: string, companyId: int): Decision
  {
    if r.role != Admin then Allow
    else if role == RoleName(Admin) then Forbidden
    else if !Can(assignments, r.id, PermissionName(ManageUsers, companyId)) then Forbidden
    else Allow
  }

  /**
   * The whole decision: the controller's role filter (on the role
   * assignments), `beforeRun`, then `checkAccess` (on the `role` column).
   */
  function Decide(assignments: set<Assignment>, roleAssignments: set<RoleAssignment>, r: Requester, f: Filter): Decision
  {
    if !PassesManagerFilter(roleAssignments, r) then Forbidden
    else match ParseFilter(f)
      case Refused(d) => d
      case Accepted(role, companyId) => CheckAccess(assignments, r, role, companyId)
  }

  /** A missing role is reported first, whatever the companies. */
  lemma RoleCheckedFirst(assignments: set<Assignment>, roleAssignments: set<RoleAssignment>, r: Requester, companies: Option<Param>)
    requires PassesManagerFilter(roleAssignments, r)
    ensures Decide(assignments, roleAssignments, r, Filter(None, companies)) == InvalidParam("role_empty")
  {
  }

  /** With a role given, missing companies are `company_empty`. */
  lemma CompaniesChecked(assignments: set<Assignment>, roleAssignments: set<RoleAssignment>, r: Requester, role: string)
    requires PassesManagerFilter(roleAssignments, r) && role != "" && role != "0"
    ensures Decide(assignments, roleAssignments, r, Filter(Some(Str(role)), None)) == InvalidParam("company_empty")
  {
  }

  /**
   * An account assigned neither superAdmin nor admin never gets the list,
   * whatever its `role` column; in particular a plain user whose assignment
   * agrees with the column.
   */
  lemma UserForbidden(assignments: set<Assignment>, roleAssignments: set<RoleAssignment>, r: Requester, f: Filter)
    ensures RoleAssignment(SuperAdmin, r.id) !in roleAssignments && RoleAssignment(Admin, r.id) !in roleAssignments ==>
      Decide(assignments, roleAssignments, r, f) == Forbidden
    ensures AssignedAsColumn(roleAssignments, r) && r.role == User ==> Decide(assignments, roleAssignments, r, f) == Forbidden
  {
    ManagerFilterRoles(roleAssignments, r);
  }

  /**
   * An account demoted to user whose admin assignment was kept passes the
   * filter; `checkAccess` and the restriction read the column, so it gets
   * the whole list unrestricted.
   */
  lemma DemotedAdminListsAll(assignments: set<Assignment>, roleAssignments: set<RoleAssignment>, r: Requester,
                             role: string, companies: Param, adminCompanies: seq<int>, rows: seq<Row>)
    requires r.role == User && RoleAssignment(Admin, r.id) in roleAssignments
    requires !IsEmpty(Some(Str(role))) && !IsEmpty(Some(companies))
    ensures Decide(assignments, roleAssignments, r, Filter(Some(Str(role)), Some(companies))) == Allow
    ensures Restrict(r, adminCompanies, rows) == rows
  {
    ManagerFilterRoles(roleAssignments, r);
  }

  /**
   * For an admin and a well-formed filter: listing admins is refused, and
   * listing anything else is allowed exactly when the admin holds
   * manageUsers in the company.
   */
  lemma AdminRules(assignments: set<Assignment>, roleAssignments: set<RoleAssignment>, r: Requester, role: string, companies: Param)
    requires r.role == Admin && PassesManagerFilter(roleAssignments, r)
    requires !IsEmpty(Some(Str(role))) && !IsEmpty(Some(companies))
    ensures role == "admin" ==> Decide(assignments, roleAssignments, r, Filter(Some(Str(role)), Some(companies))) == Forbidden
    ensures role != "admin" ==>
      (Decide(assignments, roleAssignments, r, Filter(Some(Str(role)), Some(companies))) == Allow <==>
        Assignment(Item(ManageUsers, IntOf(companies)), r.id) in assignments)
  {
    CanPermission(assignments, r.id, ManageUsers, IntOf(companies));
  }

  /**
   * An account that passes the filter and whose column is not admin (the
   * main administrator, or a demoted admin) gets the list with a well-formed
   * filter without further checks.
   */
  lemma SuperAdminUnchecked(assignments: set<Assignment>, roleAssignments: set<RoleAssignment>, r: Requester, role: string, companies: Param)
    requires r.role != Admin && PassesManagerFilter(roleAssignments, r)
    requires !IsEmpty(Some(Str(role))) && !IsEmpty(Some(companies))
    ensures Decide(assignments, roleAssignments, r, Filter(Some(Str(role)), Some(companies))) == Allow
  {
  }

  /** The company id read from the decimal notation of a company id is that id. */
  lemma CompanyIdOfDecimal(c: int)
    ensures IntOf(Str(IntToString(c))) == c
  {
    IntCastOfIntToString(c);
  }

  /**
   * The company id of a filter written as an array (`companies[in][]=7`) is
   * 1, whatever the array holds, so the admin's manageUsers is checked in company 1.
   */
  lemma ArrayFilterChecksCompanyOne(assignments: set<Assignment>, roleAssignments: set<RoleAssignment>, r: Requester, role: string, size: nat)
    requires r.role == Admin && PassesManagerFilter(roleAssignments, r)
    requires size > 0 && role != "" && role != "0" && role != "admin"
    ensures ParseFilter(Filter(Some(Str(role)), Some(Arr(size)))) == Accepted(role, 1)
    ensures Decide(assignments, roleAssignments, r, Filter(Some(Str(role)), Some(Arr(size)))) == Allow <==>
      Assignment(Item(ManageUsers, 1), r.id) in assignments
  {
    CanPermission(assignments, r.id, ManageUsers, 1);
  }

  // ---------------------------------------------------------------------------
  // The admin's restriction of the list

  /** A row of the users table as far as the list condition reads it. */
  datatype Row = Row(id: int, companies: Option<seq<int>>)

  /** The PostgreSQL test `row.companies @> ARRAY[values]`; a null array matches nothing. */
  predicate ContainsAll(row: Row, values: seq<int>)
  {
    row.companies.Some? && forall i | 0 <= i < |values| :: values[i] in row.companies.value
  }

  /** The condition an admin's query gets: the InConditionBuilder text for the admin's companies. */
  function AdminCondition(adminCompanies: seq<int>): (c: Condition)
    ensures c.Sql?
  {
    Build(Column, adminCompanies)
  }

  /** `prepareDataProvider`: an admin sees only the rows containing all of its companies, in order. */
  function Restrict(r: Requester, adminCompanies: seq<int>, rows: seq<Row>): (listed: seq<Row>)
    ensures |listed| <= |rows|
    ensures forall row | row in listed :: row in rows
  {
    if r.role != Admin || rows == [] then rows
    else (if ContainsAll(rows[0], adminCompanies) then [rows[0]] else []) + Restrict(r, adminCompanies, rows[1..])
  }

  /**
   * A row is listed for an admin exactly when its companies include every
   * company of the admin; anyone else's list is not restricted.
   */
  lemma {:induction false} RestrictMeaning(r: Requester, adminCompanies: seq<int>, rows: seq<Row>)
    ensures r.role != Admin ==> Restrict(r, adminCompanies, rows) == rows
    ensures r.role == Admin ==>
      forall row :: row in Restrict(r, adminCompanies, rows) <==> row in rows && ContainsAll(row, adminCompanies)
  {
    if r.role == Admin && rows != [] {
      RestrictMeaning(r, adminCompanies, rows[1..]);
      assert rows == [rows[0]] + rows[1..];
    }
  }

  /** The admin's condition states exactly the admin's companies, in order. */
  lemma AdminConditionNamesCompanies(adminCompanies: seq<int>)
    requires adminCompanies != []
    ensures Parse(AdminCondition(adminCompanies).text) == Some(adminCompanies)
  {
    ParseBuild(adminCompanies);
  }
}
