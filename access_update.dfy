/**
 * controllers/access/UpdateAction.php: setting the permissions of user
 * `userId` in company `companyId`. The body must carry a non-empty
 * `permissions` object; then the guards of the view run, and only after
 * they pass is `setPermissions` called.
 */
module AccessUpdate {
  import opened Wrappers
  import opened Permissions
  import opened Users
  import opened Access
  import opened Decisions
  import opened AccessView

  /** The response status of a successful update: no content. */
  const NoContent: int := 204

  /**
   * The `permissions` body parameter: None when it is missing or null; a
   * value of None inside the object is a JSON null.
   */
  type Body = Option<map<string, Option<bool>>>

  /** `isset($permissions[name])`: the keys whose value is not null. */
  function Defined(body: map<string, Option<bool>>): (d: map<string, bool>)
    ensures forall name :: name in d <==> name in body && body[name].Some?
    ensures forall name | name in d :: d[name] == body[name].value
  {
    map name | name in body && body[name].Some? :: body[name].value
  }

  /** `beforeRun` and then `checkAccess`: an empty body is refused before any guard. */
  function Guard(assignments: set<Assignment>, r: Requester, companyId: int, userId: int,
                 target: Option<TargetRow>, body: Body): Decision
  {
    if body.None? || body.value == map[] then InvalidParam("access_empty")
    else CheckAccess(assignments, r, companyId, userId, target)
  }

  /**
   * The empty-body check comes first: even the main administrator asking
   * for the main administrator's permissions with an empty body gets
   * `access_empty`, not a refusal.
   */
  lemma EmptyBodyFirst(assignments: set<Assignment>, r: Requester, companyId: int, userId: int, target: Option<TargetRow>)
    ensures Guard(assignments, r, companyId, userId, target, None) == InvalidParam("access_empty")
    ensures Guard(assignments, r, companyId, userId, target, Some(map[])) == InvalidParam("access_empty")
  {
  }

  /** With a non-empty body the update is held to exactly the guards of the view. */
  lemma SameGuardsAsView(assignments: set<Assignment>, r: Requester, companyId: int, userId: int,
                         target: Option<TargetRow>, body: map<string, Option<bool>>)
    requires body != map[]
    ensures Guard(assignments, r, companyId, userId, target, Some(body)) == CheckAccess(assignments, r, companyId, userId, target)
  {
  }

  /**
   * `run` after `beforeRun`: the guards, then `setPermissions` with the
   * body. A refusal changes nothing; otherwise the store takes the steps of
   * `setPermissions` and the answer is 204, or a server error when a step
   * crashes part-way.
   */
  method Update(store: AccessStore, r: Requester, companyId: int, userId: int, target: Option<TargetRow>, body: Body)
    returns (d: Decision, status: int)
    requires store.Valid()
    modifies store`assignments, store`cache
    ensures store.Valid()
    ensures var g := Guard(old(store.assignments), r, companyId, userId, target, body);
      g != Allow ==> d == g && store.assignments == old(store.assignments) && store.cache == old(store.cache)
    ensures Guard(old(store.assignments), r, companyId, userId, target, body) == Allow ==>
      var plan := Plan(companyId, store.IsRoleUser(userId), store.items, old(store.Current(companyId, userId)), Defined(body.value));
      && (d == Allow <==> FirstCrash(plan) == |Catalog|)
      && (d != Allow ==> d == InternalError)
      && (forall a :: a in store.assignments <==> InAfterSteps(old(store.assignments), companyId, userId, plan, FirstCrash(plan), a))
    ensures d == Allow ==> body.Some? && status == NoContent && store.cache == old(store.cache) - {(companyId, userId)}
  {
    status := 0;
    d := Guard(store.assignments, r, companyId, userId, target, body);
    if d != Allow {
      return;
    }
    var ok := store.SetPermissions(companyId, userId, Defined(body.value));
    if ok {
      status := NoContent;
    } else {
      d := InternalError;
    }
  }

  /**
   * Update then read: when the cached permissions of (companyId, userId)
   * are absent or up to date and the update succeeds, the next read returns
   * exactly the permissions the body asked for (null values and unknown
   * names count as not granted).
   */
  method UpdateThenRead(store: AccessStore, r: Requester, companyId: int, userId: int, target: Option<TargetRow>, body: Body)
    returns (d: Decision, perms: map<Kind, bool>)
    requires store.Valid()
    requires (companyId, userId) in store.cache ==> store.cache[(companyId, userId)] == store.Computed(companyId, userId)
    modifies store`assignments, store`cache
    ensures d == Allow ==> body.Some? && perms == RequestedPermissions(store.IsRoleUser(userId), Defined(body.value))
  {
    var status;
    d, status := Update(store, r, companyId, userId, target, body);
    perms := map[];
    if d == Allow {
      SetPermissionsRoundTrip(old(store.assignments), store.assignments, store.IsRoleUser(userId), store.items,
                              companyId, userId, Defined(body.value));
      perms := store.GetPermissions(companyId, userId);
    }
  }
}
