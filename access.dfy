/**
 * models/Access.php: the per-company permission items in the RBAC store, the
 * assignments of those items to users, and the cache of each user's
 * permissions in each company.
 *
 * A permission item is identified by its kind and its company; the lemma
 * `Permissions.PermissionNameInjective` shows this identifies the item's
 * string name, and `CanPermission` below shows the name-based RBAC check
 * agrees with membership of the pair.
 */
module Access {
  import opened Wrappers
  import opened Text
  import opened Permissions
  import opened Users

  /** The permission item `KindName(kind) . company`. */
  datatype Item = Item(kind: Kind, company: int)

  /** A row of the RBAC assignment table for a permission item. */
  datatype Assignment = Assignment(item: Item, user: int)

  /** A row of the RBAC assignment table for a role. */
  datatype RoleAssignment = RoleAssignment(role: Role, user: int)

  /** Name of the permissions cache (`Access::CACHE`). */
  const CacheName: string := "access"

  /** The cache key `access_{company}_{user}` under which a user's permissions are kept. */
  function CacheKey(c: int, u: int): string
  {
    Join([CacheName, IntToString(c), IntToString(u)], '_')
  }

  lemma NoUnderscoreInNumber(i: int)
    ensures '_' !in IntToString(i)
  {
    var s := IntToString(i);
    assert forall j | 0 <= j < |s| :: s[j] != '_';
  }

  /** Distinct (company, user) pairs use distinct cache keys, so the cache can be keyed by the pair. */
  lemma CacheKeyInjective(c1: int, u1: int, c2: int, u2: int)
    ensures CacheKey(c1, u1) == CacheKey(c2, u2) ==> c1 == c2 && u1 == u2
  {
    var p1 := [CacheName, IntToString(c1), IntToString(u1)];
    var p2 := [CacheName, IntToString(c2), IntToString(u2)];
    NoUnderscoreInNumber(c1);
    NoUnderscoreInNumber(u1);
    NoUnderscoreInNumber(c2);
    NoUnderscoreInNumber(u2);
    SplitJoin(p1, '_');
    SplitJoin(p2, '_');
    if CacheKey(c1, u1) == CacheKey(c2, u2) {
      assert p1 == p2;
      assert p1[1] == p2[1] && p1[2] == p2[2];
      IntToStringInjective(c1, c2);
      IntToStringInjective(u1, u2);
    }
  }

  /** The RBAC check `checkAccess(u, name)` for a permission name: no item inherits from a permission. */
  predicate Can(assignments: set<Assignment>, u: int, name: string)
  {
    exists a | a in assignments :: a.user == u && PermissionName(a.item.kind, a.item.company) == name
  }

  /** Checking a permission by its name is checking for the (kind, company, user) assignment. */
  lemma CanPermission(assignments: set<Assignment>, u: int, k: Kind, c: int)
    ensures Can(assignments, u, PermissionName(k, c)) <==> Assignment(Item(k, c), u) in assignments
  {
    if Can(assignments, u, PermissionName(k, c)) {
      var a :| a in assignments && a.user == u && PermissionName(a.item.kind, a.item.company) == PermissionName(k, c);
      PermissionNameInjective(a.item.kind, a.item.company, k, c);
    }
  }

  /** Whether the permissions of a user list `k`: every kind except manageUsers for a plain user. */
  predicate Listed(isUser: bool, k: Kind)
  {
    !(isUser && k == ManageUsers)
  }

  /** The permissions `getPermissions` computes for user `u` in company `c` when nothing is cached. */
  function ComputedPermissions(assignments: set<Assignment>, isUser: bool, c: int, u: int): map<Kind, bool>
  {
    map k | k in Catalog && Listed(isUser, k) :: Assignment(Item(k, c), u) in assignments
  }

  /**
   * The computed map lists the whole catalog, except manageUsers for a user
   * whose role is user, and each value says whether the permission is assigned.
   */
  lemma ComputedPermissionsShape(assignments: set<Assignment>, isUser: bool, c: int, u: int)
    ensures var m := ComputedPermissions(assignments, isUser, c, u);
      && (forall k: Kind :: k in m <==> Listed(isUser, k))
      && (ManageUsers in m <==> !isUser)
      && (forall k | k in m :: m[k] <==> Can(assignments, u, PermissionName(k, c)))
  {
    var m := ComputedPermissions(assignments, isUser, c, u);
    CatalogIsComplete();
    forall k | k in m ensures m[k] <==> Can(assignments, u, PermissionName(k, c)) {
      CanPermission(assignments, u, k, c);
    }
  }

  // ---------------------------------------------------------------------------
  // setPermissions, step by step

  /** What `setPermissions` does with one catalog kind. Grant is the revoke followed by an assign. */
  datatype Step = Keep | Revoke | Grant | Crash

  /**
   * The branch `setPermissions` takes for kind `k`: skipped for a plain user's
   * manageUsers; revoked when the request does not set it; skipped when the
   * current value equals the requested one; otherwise revoked and, when
   * requested, assigned again. Revoking a missing item and reading a kind the
   * current map lacks both end the request with an error.
   */
  function StepFor(k: Kind, isUser: bool, itemExists: bool, current: map<Kind, bool>, desired: map<string, bool>): Step
  {
    if !Listed(isUser, k) then Keep
    else if KindName(k) !in desired then (if itemExists then Revoke else Crash)
    else if k !in current then Crash
    else if current[k] == desired[KindName(k)] then Keep
    else if !itemExists then Crash
    else if desired[KindName(k)] then Grant
    else Revoke
  }

  /** The steps for the whole catalog, in catalog order. */
  function Plan(c: int, isUser: bool, items: map<Item, string>, current: map<Kind, bool>, desired: map<string, bool>): (plan: seq<Step>)
    ensures |plan| == |Catalog|
  {
    seq(|Catalog|, i requires 0 <= i < |Catalog| =>
      StepFor(Catalog[i], isUser, Item(Catalog[i], c) in items, current, desired))
  }

  /** Index of the first crashing step, or the length of the plan when no step crashes. */
  function FirstCrash(plan: seq<Step>): (n: nat)
    ensures n <= |plan|
    ensures n < |plan| ==> plan[n] == Crash
    ensures forall j | 0 <= j < n :: plan[j] != Crash
  {
    if plan == [] then 0
    else if plan[0] == Crash then 0
    else 1 + FirstCrash(plan[1..])
  }

  /** Whether an assignment is present after a step, given whether it was present before. */
  function After(step: Step, was: bool): bool
  {
    match step
    case Keep => was
    case Revoke => false
    case Grant => true
    case Crash => was
  }

  /**
   * Whether assignment `a` is present once the first `n` steps of `plan`
   * have run for user `u` in company `c` on assignments `before`.
   */
  predicate InAfterSteps(before: set<Assignment>, c: int, u: int, plan: seq<Step>, n: nat, a: Assignment)
    requires |plan| == |Catalog|
  {
    if a.user == u && a.item.company == c && IndexOfKind(a.item.kind) < n
    then After(plan[IndexOfKind(a.item.kind)], a in before)
    else a in before
  }

  /**
   * What the permissions of the request are (a listed kind is granted exactly
   * when the request sets it to true; keys that are not catalog names play no part).
   */
  function RequestedPermissions(isUser: bool, desired: map<string, bool>): map<Kind, bool>
  {
    map k | k in Catalog && Listed(isUser, k) :: KindName(k) in desired && desired[KindName(k)]
  }

  /**
   * Round trip: when `setPermissions` starts from the up-to-date permissions
   * and no step crashes, the permissions computed afterwards are exactly the
   * requested ones.
   */
  lemma SetPermissionsRoundTrip(before: set<Assignment>, after: set<Assignment>, isUser: bool,
                                items: map<Item, string>, c: int, u: int, desired: map<string, bool>)
    requires var plan := Plan(c, isUser, items, ComputedPermissions(before, isUser, c, u), desired);
      && FirstCrash(plan) == |Catalog|
      && forall a :: a in after <==> InAfterSteps(before, c, u, plan, |Catalog|, a)
    ensures ComputedPermissions(after, isUser, c, u) == RequestedPermissions(isUser, desired)
  {
    var current := ComputedPermissions(before, isUser, c, u);
    var plan := Plan(c, isUser, items, current, desired);
    forall k | k in Catalog && Listed(isUser, k)
      ensures (Assignment(Item(k, c), u) in after) == (KindName(k) in desired && desired[KindName(k)])
    {
      RoundTripAt(before, after, isUser, items, c, u, desired, current, plan, k);
    }
    ComputedMatchesRequested(after, isUser, c, u, desired);
  }

  lemma ComputedMatchesRequested(after: set<Assignment>, isUser: bool, c: int, u: int, desired: map<string, bool>)
    requires forall k | k in Catalog && Listed(isUser, k) ::
      (Assignment(Item(k, c), u) in after) == (KindName(k) in desired && desired[KindName(k)])
    ensures ComputedPermissions(after, isUser, c, u) == RequestedPermissions(isUser, desired)
  {
    var requested := RequestedPermissions(isUser, desired);
    var computed := ComputedPermissions(after, isUser, c, u);
    assert forall k :: k in computed <==> k in requested;
  }

  /** The round trip for one kind. */
  lemma RoundTripAt(before: set<Assignment>, after: set<Assignment>, isUser: bool,
                    items: map<Item, string>, c: int, u: int, desired: map<string, bool>,
                    current: map<Kind, bool>, plan: seq<Step>, k: Kind)
    requires current == ComputedPermissions(before, isUser, c, u)
    requires plan == Plan(c, isUser, items, current, desired)
    requires FirstCrash(plan) == |Catalog|
    requires forall a :: a in after <==> InAfterSteps(before, c, u, plan, |Catalog|, a)
    requires Listed(isUser, k)
    ensures (Assignment(Item(k, c), u) in after) == (KindName(k) in desired && desired[KindName(k)])
  {
    var i := IndexOfKind(k);
    var a := Assignment(Item(k, c), u);
    assert plan[i] == StepFor(k, isUser, Item(k, c) in items, current, desired);
    assert a in after <==> After(plan[i], a in before) by {
      assert InAfterSteps(before, c, u, plan, |Catalog|, a) == After(plan[i], a in before);
    }
    assert k in current && current[k] == (a in before);
    StepReaches(k, isUser, Item(k, c) in items, current, desired, a in before);
  }

  /** A step that does not crash, run from the current value, leaves the requested value. */
  lemma StepReaches(k: Kind, isUser: bool, itemExists: bool, current: map<Kind, bool>, desired: map<string, bool>, was: bool)
    requires Listed(isUser, k) && k in current && current[k] == was
    requires StepFor(k, isUser, itemExists, current, desired) != Crash
    ensures After(StepFor(k, isUser, itemExists, current, desired), was) == (KindName(k) in desired && desired[KindName(k)])
  {
  }

  /** `setPermissions` never touches a plain user's manageUsers assignment. */
  lemma PlainUserKeepsManageUsers(before: set<Assignment>, after: set<Assignment>, c: int, u: int,
                                  items: map<Item, string>, current: map<Kind, bool>, desired: map<string, bool>)
    requires var plan := Plan(c, true, items, current, desired);
      forall a :: a in after <==> InAfterSteps(before, c, u, plan, FirstCrash(plan), a)
    ensures Assignment(Item(ManageUsers, c), u) in after <==> Assignment(Item(ManageUsers, c), u) in before
  {
    var plan := Plan(c, true, items, current, desired);
    assert plan[0] == Keep;
    var a := Assignment(Item(ManageUsers, c), u);
    assert InAfterSteps(before, c, u, plan, FirstCrash(plan), a) == (a in before);
  }

  /** Steps run for (c, u) leave the permissions of every other (company, user) pair as they were. */
  lemma ComputedElsewhereUnchanged(before: set<Assignment>, after: set<Assignment>, isUser: bool, c: int, u: int,
                                   plan: seq<Step>, n: nat, c2: int, u2: int)
    requires |plan| == |Catalog|
    requires forall a :: a in after <==> InAfterSteps(before, c, u, plan, n, a)
    requires (c2, u2) != (c, u)
    ensures ComputedPermissions(after, isUser, c2, u2) == ComputedPermissions(before, isUser, c2, u2)
  {
    forall k | k in Catalog && Listed(isUser, k)
      ensures (Assignment(Item(k, c2), u2) in after) == (Assignment(Item(k, c2), u2) in before)
    {
      assert InAfterSteps(before, c, u, plan, n, Assignment(Item(k, c2), u2)) == (Assignment(Item(k, c2), u2) in before);
    }
  }

  lemma FirstCrashAt(plan: seq<Step>, i: nat)
    requires i < |plan| && plan[i] == Crash
    requires forall j | 0 <= j < i :: plan[j] != Crash
    ensures FirstCrash(plan) == i
  {
  }

  lemma FirstCrashNone(plan: seq<Step>)
    requires forall j | 0 <= j < |plan| :: plan[j] != Crash
    ensures FirstCrash(plan) == |plan|
  {
  }

  /** Running step `i` for the assignment it concerns extends the steps run so far by one. */
  lemma InAfterStepsNext(before: set<Assignment>, c: int, u: int, plan: seq<Step>, i: nat,
                         current: set<Assignment>, next: set<Assignment>)
    requires |plan| == |Catalog| && i < |Catalog|
    requires forall a :: a in current <==> InAfterSteps(before, c, u, plan, i, a)
    requires forall a :: a in next <==>
      if a == Assignment(Item(Catalog[i], c), u) then After(plan[i], a in current) else a in current
    ensures forall a :: a in next <==> InAfterSteps(before, c, u, plan, i + 1, a)
  {
    forall a ensures a in next <==> InAfterSteps(before, c, u, plan, i + 1, a) {
      if a.user == u && a.item.company == c && IndexOfKind(a.item.kind) == i {
        assert a == Assignment(Item(Catalog[i], c), u);
      }
    }
  }

  /**
   * `setPermissions` cannot fail once the company's items exist and the
   * current map lists what `getPermissions` lists for the user's role.
   */
  lemma SetPermissionsSucceeds(c: int, isUser: bool, items: map<Item, string>, current: map<Kind, bool>, desired: map<string, bool>)
    requires forall k | k in Catalog :: Item(k, c) in items
    requires forall k | k in Catalog && Listed(isUser, k) :: k in current
    ensures FirstCrash(Plan(c, isUser, items, current, desired)) == |Catalog|
  {
    var plan := Plan(c, isUser, items, current, desired);
    forall j | 0 <= j < |Catalog| ensures plan[j] != Crash {
      assert Catalog[j] in Catalog;
    }
    FirstCrashNone(plan);
  }

  /**
   * A cached map taken while the user's role was user lacks manageUsers; once
   * the user is an admin, a request that sets manageUsers crashes at that key.
   */
  lemma StaleListCrashes(c: int, items: map<Item, string>, current: map<Kind, bool>, desired: map<string, bool>)
    requires ManageUsers !in current && "manageUsers" in desired
    ensures FirstCrash(Plan(c, false, items, current, desired)) == 0
  {
    var plan := Plan(c, false, items, current, desired);
    assert plan[0] == StepFor(ManageUsers, false, Item(ManageUsers, c) in items, current, desired);
  }

  /**
   * Minimal update: a kind whose requested value equals the value in the
   * current map is skipped, even when that map is stale, so its assignment
   * is the same after any number of steps.
   */
  lemma EqualValueKept(before: set<Assignment>, after: set<Assignment>, isUser: bool, items: map<Item, string>,
                       c: int, u: int, current: map<Kind, bool>, desired: map<string, bool>, n: nat, k: Kind)
    requires KindName(k) in desired && k in current && current[k] == desired[KindName(k)]
    requires forall a :: a in after <==> InAfterSteps(before, c, u, Plan(c, isUser, items, current, desired), n, a)
    ensures Plan(c, isUser, items, current, desired)[IndexOfKind(k)] == Keep
    ensures Assignment(Item(k, c), u) in after <==> Assignment(Item(k, c), u) in before
  {
    var a := Assignment(Item(k, c), u);
    assert InAfterSteps(before, c, u, Plan(c, isUser, items, current, desired), n, a) == (a in before);
  }

  /** The request without the keys that name no catalog kind. */
  function CatalogNamesOnly(desired: map<string, bool>): map<string, bool>
  {
    map name | name in desired && KindOfName(name).Some? :: desired[name]
  }

  /** Request keys that name no catalog kind play no part in the steps. */
  lemma UnknownKeysIgnored(c: int, isUser: bool, items: map<Item, string>, current: map<Kind, bool>, desired: map<string, bool>)
    ensures Plan(c, isUser, items, current, desired) == Plan(c, isUser, items, current, CatalogNamesOnly(desired))
  {
    var p1 := Plan(c, isUser, items, current, desired);
    var p2 := Plan(c, isUser, items, current, CatalogNamesOnly(desired));
    forall i | 0 <= i < |Catalog|
      ensures p1[i] == p2[i]
    {
      KindOfNameOfKindName(Catalog[i]);
    }
  }

  // ---------------------------------------------------------------------------
  // The store

  class AccessStore {
    /** Permission items of the RBAC store, with their descriptions. */
    var items: map<Item, string>
    var assignments: set<Assignment>
    var roleAssignments: set<RoleAssignment>
    /** The `role` column of the users table, by user id. */
    var roles: map<int, Role>
    /** The permissions cache, keyed by (company, user); see `CacheKeyInjective`. */
    var cache: map<(int, int), map<Kind, bool>>

    /** Every assigned item exists (the assignment table's foreign key). */
    predicate Valid()
      reads this
    {
      forall a | a in assignments :: a.item in items
    }

    /** `isRoleUser`: the user exists and has role user. */
    predicate IsRoleUser(u: int)
      reads this
    {
      u in roles && roles[u] == User
    }

    function Computed(c: int, u: int): map<Kind, bool>
      reads this
    {
      ComputedPermissions(assignments, IsRoleUser(u), c, u)
    }

    /** What `getPermissions` returns: the cached map if there is one, else the computed one. */
    function Current(c: int, u: int): map<Kind, bool>
      reads this
    {
      if (c, u) in cache then cache[(c, u)] else Computed(c, u)
    }

    /** Every cached map equals the map computed from the assignments. */
    predicate CacheConsistent()
      reads this
    {
      forall key | key in cache :: cache[key] == Computed(key.0, key.1)
    }

    /** The state right after installation: the main administrator holds superAdmin. */
    constructor ()
      ensures items == map[] && assignments == {} && cache == map[]
      ensures roleAssignments == {RoleAssignment(SuperAdmin, SuperId)}
      ensures roles == map[SuperId := SuperAdmin]
      ensures Valid() && CacheConsistent()
    {
      items := map[];
      assignments := {};
      roleAssignments := {RoleAssignment(SuperAdmin, SuperId)};
      roles := map[SuperId := SuperAdmin];
      cache := map[];
    }

    /**
     * `createCompanyPermissions`: adds the catalog's items for company `c`, in
     * order, with their descriptions; adding an item that exists fails and
     * stops the loop, leaving the items added before it.
     */
    method CreateCompanyPermissions(c: int) returns (ok: bool)
      modifies this`items
      ensures var n := FirstExisting(old(items), c);
        && (ok <==> n == |Catalog|)
        && (forall it :: it in items <==> it in old(items) || (it.company == c && IndexOfKind(it.kind) < n))
        && (forall it | it in items :: items[it] == if it in old(items) then old(items)[it] else Description(it.kind))
      ensures old(Valid()) ==> Valid()
    {
      var i := 0;
      while i < |Catalog|
        invariant 0 <= i <= |Catalog|
        invariant forall j | 0 <= j < i :: Item(Catalog[j], c) !in old(items)
        invariant forall it :: it in items <==> it in old(items) || (it.company == c && IndexOfKind(it.kind) < i)
        invariant forall it | it in items :: items[it] == if it in old(items) then old(items)[it] else Description(it.kind)
      {
        var item := Item(Catalog[i], c);
        if item in items {
          assert FirstExisting(old(items), c) == i;
          return false;
        }
        items := items[item := Description(Catalog[i])];
        i := i + 1;
      }
      ok := true;
    }

    /** `assignRole`: assigning a role the user already holds fails. */
    method AssignRole(u: int, r: Role) returns (ok: bool)
      modifies this`roleAssignments
      ensures ok <==> RoleAssignment(r, u) !in old(roleAssignments)
      ensures roleAssignments == old(roleAssignments) + {RoleAssignment(r, u)}
    {
      ok := RoleAssignment(r, u) !in roleAssignments;
      roleAssignments := roleAssignments + {RoleAssignment(r, u)};
    }

    /**
     * `resetPermissions`: revokes from user `u` every permission of every
     * listed company; other users and other companies keep theirs. The cache
     * is left as it was.
     */
    method ResetPermissions(u: int, companies: seq<int>)
      requires Valid()
      modifies this`assignments
      ensures Valid()
      ensures forall a :: a in assignments <==> a in old(assignments) && !(a.user == u && a.item.company in companies)
    {
      var i := 0;
      while i < |companies|
        invariant 0 <= i <= |companies|
        invariant Valid()
        invariant forall a :: a in assignments <==> a in old(assignments) && !(a.user == u && a.item.company in companies[..i])
      {
        var id := companies[i];
        var j := 0;
        while j < |Catalog|
          invariant 0 <= j <= |Catalog|
          invariant Valid()
          invariant forall a :: a in assignments <==>
            (a in old(assignments)
             && !(a.user == u && a.item.company in companies[..i])
             && !(a.user == u && a.item.company == id && IndexOfKind(a.item.kind) < j))
        {
          var item := Item(Catalog[j], id);
          if item in items {
            assignments := assignments - {Assignment(item, u)};
          }
          j := j + 1;
        }
        assert companies[..i + 1] == companies[..i] + [id];
        i := i + 1;
      }
      assert companies[..i] == companies;
    }

    /**
     * `getPermissions`: returns the cached map for (c, u), or computes it by
     * walking the catalog and caches it.
     */
    method GetPermissions(c: int, u: int) returns (perms: map<Kind, bool>)
      modifies this`cache
      ensures perms == old(Current(c, u))
      ensures cache == old(cache)[(c, u) := perms]
      ensures old(CacheConsistent()) ==> CacheConsistent()
    {
      if (c, u) in cache {
        perms := cache[(c, u)];
        return;
      }
      var isUser := IsRoleUser(u);
      perms := map[];
      var i := 0;
      while i < |Catalog|
        invariant 0 <= i <= |Catalog|
        invariant forall k :: k in perms <==> IndexOfKind(k) < i && Listed(isUser, k)
        invariant forall k | k in perms :: perms[k] == (Assignment(Item(k, c), u) in assignments)
      {
        var k := Catalog[i];
        assert IndexOfKind(k) == i;
        if Listed(isUser, k) {
          perms := perms[k := Assignment(Item(k, c), u) in assignments];
        }
        i := i + 1;
      }
      CatalogIsComplete();
      assert perms == Computed(c, u);
      cache := cache[(c, u) := perms];
    }

    /** `invalidateCache`: drops the cached maps of user `u` in the listed companies. */
    method InvalidateCache(u: int, companies: seq<int>)
      modifies this`cache
      ensures forall key :: key in cache <==> key in old(cache) && !(key.1 == u && key.0 in companies)
      ensures forall key | key in cache :: cache[key] == old(cache)[key]
      ensures old(CacheConsistent()) ==> CacheConsistent()
    {
      var i := 0;
      while i < |companies|
        invariant 0 <= i <= |companies|
        invariant forall key :: key in cache <==> key in old(cache) && !(key.1 == u && key.0 in companies[..i])
        invariant forall key | key in cache :: cache[key] == old(cache)[key]
      {
        assert companies[..i + 1] == companies[..i] + [companies[i]];
        cache := cache - {(companies[i], u)};
        i := i + 1;
      }
      assert companies[..i] == companies;
    }

    /**
     * `setPermissions`: runs the step of every catalog kind in order against
     * the map `getPermissions` returns, stopping at the first step that
     * crashes; on success the (c, u) cache entry is dropped, after a crash it
     * keeps the map read at the start.
     */
    method SetPermissions(c: int, u: int, desired: map<string, bool>) returns (ok: bool)
      requires Valid()
      modifies this`assignments, this`cache
      ensures Valid()
      ensures var plan := Plan(c, IsRoleUser(u), items, old(Current(c, u)), desired);
        && (ok <==> FirstCrash(plan) == |Catalog|)
        && (forall a :: a in assignments <==> InAfterSteps(old(assignments), c, u, plan, FirstCrash(plan), a))
      ensures cache == if ok then old(cache) - {(c, u)} else old(cache)[(c, u) := old(Current(c, u))]
      ensures IsRoleUser(u) ==>
        (Assignment(Item(ManageUsers, c), u) in assignments <==> Assignment(Item(ManageUsers, c), u) in old(assignments))
    {
      var isUser := IsRoleUser(u);
      var current := GetPermissions(c, u);
      ghost var read := cache;
      ok := RunSteps(c, u, isUser, current, desired);
      if ok {
        InvalidateCache(u, [c]);
        assert forall key :: key in cache <==> key in read && key != (c, u);
        DroppedEntry(old(cache), read, cache, (c, u), current);
      } else {
        assert cache == read;
      }
      if isUser {
        PlainUserKeepsManageUsers(old(assignments), assignments, c, u, items, current, desired);
      }
    }

    /** The loop of `setPermissions` over the catalog; false when a step crashes. */
    method RunSteps(c: int, u: int, isUser: bool, current: map<Kind, bool>, desired: map<string, bool>) returns (ok: bool)
      requires Valid()
      modifies this`assignments
      ensures Valid()
      ensures var plan := Plan(c, isUser, items, current, desired);
        && (ok <==> FirstCrash(plan) == |Catalog|)
        && (forall a :: a in assignments <==> InAfterSteps(old(assignments), c, u, plan, FirstCrash(plan), a))
    {
      ghost var plan := Plan(c, isUser, items, current, desired);
      var i := 0;
      while i < |Catalog|
        invariant 0 <= i <= |Catalog|
        invariant forall j | 0 <= j < i :: plan[j] != Crash
        invariant forall a :: a in assignments <==> InAfterSteps(old(assignments), c, u, plan, i, a)
        invariant Valid()
      {
        var k := Catalog[i];
        var name := KindName(k);
        var item := Item(k, c);
        var itemExists := item in items;
        ghost var step := StepFor(k, isUser, itemExists, current, desired);
        ghost var before := assignments;
        assert IndexOfKind(k) == i;
        assert plan[i] == step;
        if !Listed(isUser, k) {
        } else if name !in desired {
          if !itemExists {
            FirstCrashAt(plan, i);
            return false;
          }
          assignments := assignments - {Assignment(item, u)};
        } else if k !in current {
          FirstCrashAt(plan, i);
          return false;
        } else if current[k] == desired[name] {
        } else {
          if !itemExists {
            FirstCrashAt(plan, i);
            return false;
          }
          assignments := assignments - {Assignment(item, u)};
          if desired[name] {
            assignments := assignments + {Assignment(item, u)};
          }
        }
        assert forall a :: a in assignments <==>
          if a == Assignment(item, u) then After(step, a in before) else a in before;
        InAfterStepsNext(old(assignments), c, u, plan, i, before, assignments);
        i := i + 1;
      }
      FirstCrashNone(plan);
      ok := true;
    }
  }

  /** Setting an entry and then dropping it leaves the map without that entry. */
  lemma DroppedEntry<K, V>(before: map<K, V>, read: map<K, V>, after: map<K, V>, key: K, v: V)
    requires read == before[key := v]
    requires forall k :: k in after <==> k in read && k != key
    requires forall k | k in after :: after[k] == read[k]
    ensures after == before - {key}
  {
  }

  /** Index of the first catalog kind whose item for company `c` exists, or the catalog length. */
  function FirstExisting(items: map<Item, string>, c: int): (n: nat)
    ensures n <= |Catalog|
    ensures n < |Catalog| ==> Item(Catalog[n], c) in items
    ensures forall j | 0 <= j < n :: Item(Catalog[j], c) !in items
  {
    FirstExistingFrom(items, c, 0)
  }

  function FirstExistingFrom(items: map<Item, string>, c: int, i: nat): (n: nat)
    requires i <= |Catalog|
    requires forall j | 0 <= j < i :: Item(Catalog[j], c) !in items
    ensures i <= n <= |Catalog|
    ensures n < |Catalog| ==> Item(Catalog[n], c) in items
    ensures forall j | 0 <= j < n :: Item(Catalog[j], c) !in items
    decreases |Catalog| - i
  {
    if i == |Catalog| || Item(Catalog[i], c) in items then i
    else FirstExistingFrom(items, c, i + 1)
  }

  /** A company none of whose items exist gets all of them, with the catalog's descriptions. */
  lemma CreateForNewCompany(items: map<Item, string>, c: int)
    requires forall k | k in Catalog :: Item(k, c) !in items
    ensures FirstExisting(items, c) == |Catalog|
  {
    assert forall j | 0 <= j < |Catalog| :: Catalog[j] in Catalog;
  }
}
