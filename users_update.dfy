/**
 * controllers/users/UpdateAction.php: updating a user account. The
 * scenario, which fixes the attributes the request may change, depends on
 * who updates whom; after an update without errors the cached permissions
 * of the account are dropped in each of its companies.
 */
module UsersUpdate {
  import opened Wrappers
  import opened Users
  import opened Access
  import opened Decisions

  /** The response status set after the update. */
  const NoContent: int := 204

  /**
   * `setScenario`: updating oneself is `update_self`; an admin updating
   * another account is `update_admin`; anyone else is `update_super`.
   */
  function SelectScenario(r: Requester, id: int): Scenario
  {
    if r.id == id then UpdateSelf else if r.role == Admin then UpdateAdmin else UpdateSuper
  }

  /**
   * Who may change what: only an account that is neither updating itself nor
   * an admin can change the role; an account updating itself can change the
   * password but not its companies; nobody changes another account's password.
   */
  lemma ScenarioRules(r: Requester, id: int)
    ensures var attrs := ScenarioAttributes(SelectScenario(r, id));
      && ("role" in attrs <==> r.id != id && r.role != Admin)
      && ("companies" in attrs <==> r.id != id)
      && ("password" in attrs <==> r.id == id)
  {
    ScenarioRestrictions(SelectScenario(r, id));
  }

  /** The companies whose cached permissions are dropped: none for a null list. */
  function InvalidatedCompanies(companies: Option<seq<int>>): seq<int>
  {
    if companies.Some? then companies.value else []
  }

  /**
   * The end of `run`: after an update without errors, drop the cached
   * permissions of user `userId` in each company of its list after the
   * update; the status is set to 204 either way.
   */
  method AfterUpdate(store: AccessStore, userId: int, hasErrors: bool, companies: Option<seq<int>>) returns (status: int)
    modifies store`cache
    ensures status == NoContent
    ensures hasErrors ==> store.cache == old(store.cache)
    ensures !hasErrors ==> forall key :: key in store.cache <==>
      key in old(store.cache) && !(key.1 == userId && key.0 in InvalidatedCompanies(companies))
    ensures forall key | key in store.cache :: store.cache[key] == old(store.cache)[key]
    ensures companies.None? || companies.value == [] ==> store.cache == old(store.cache)
    ensures old(store.CacheConsistent()) ==> store.CacheConsistent()
  {
    if !hasErrors {
      store.InvalidateCache(userId, InvalidatedCompanies(companies));
    }
    status := NoContent;
  }
}
