/**
 * components/behaviors/ResetPermissionsBehavior.php: after a user's role or
 * company list changed, revoke the user's permissions in the companies the
 * change concerns.
 */
module ResetPermissions {
  import opened Wrappers
  import opened Users
  import opened Access

  /** `array_diff(a, b)`: the values of `a` that are not in `b`, in order, duplicates kept. */
  function Difference(a: seq<int>, b: seq<int>): (r: seq<int>)
    ensures forall x :: x in r <==> x in a && x !in b
    ensures |r| <= |a|
  {
    if a == [] then []
    else (if a[0] in b then [] else [a[0]]) + Difference(a[1..], b)
  }

  /** Difference keeps the order of `a`: it is `a` with the removed values dropped. */
  lemma {:induction false} DifferenceOfDisjoint(a: seq<int>, b: seq<int>)
    requires forall i | 0 <= i < |a| :: a[i] !in b
    ensures Difference(a, b) == a
  {
    if a != [] {
      assert a[0] !in b;
      DifferenceOfDisjoint(a[1..], b);
      assert [a[0]] + a[1..] == a;
    }
  }

  /**
   * `getCompanies`: the companies to reset. A missing old list counts as
   * empty; the owner's list being null makes `array_merge`/`array_diff`
   * fail, which gives None.
   */
  function ResetCompanies(roleChanged: bool, modelCompanies: Option<seq<int>>, oldCompanies: Option<seq<int>>): (r: Option<seq<int>>)
    ensures r.Some? <==> modelCompanies.Some?
  {
    match modelCompanies
    case None => None
    case Some(m) =>
      var previous := if oldCompanies.Some? then oldCompanies.value else [];
      Some(if roleChanged then Unique(m + previous) else Difference(previous, m))
  }

  /**
   * On a role change every company of the new or the old list is reset, each
   * once; otherwise exactly the companies that were dropped are, and a
   * company still on the list is never reset.
   */
  lemma ResetCompaniesMeaning(roleChanged: bool, m: seq<int>, oldCompanies: Option<seq<int>>)
    ensures var r := ResetCompanies(roleChanged, Some(m), oldCompanies).value;
      var previous := if oldCompanies.Some? then oldCompanies.value else [];
      && (roleChanged ==> NoDuplicates(r) && forall x :: x in r <==> x in m || x in previous)
      && (!roleChanged ==> forall x :: x in r <==> x in previous && x !in m)
  {
  }

  /** Without a role change and without an old list nothing is reset. */
  lemma NoOldListResetsNothing(m: seq<int>)
    ensures ResetCompanies(false, Some(m), None) == Some([])
  {
  }

  /**
   * The companies-only change keeps the list when nothing was dropped: the
   * role is unchanged and every old company is still listed.
   */
  lemma NothingDroppedResetsNothing(m: seq<int>, previous: seq<int>)
    requires forall i | 0 <= i < |previous| :: previous[i] in m
    ensures ResetCompanies(false, Some(m), Some(previous)) == Some([])
  {
    DifferenceOfCovered(previous, m);
  }

  lemma {:induction false} DifferenceOfCovered(a: seq<int>, b: seq<int>)
    requires forall i | 0 <= i < |a| :: a[i] in b
    ensures Difference(a, b) == []
  {
    if a != [] {
      assert a[0] in b;
      DifferenceOfCovered(a[1..], b);
    }
  }

  /**
   * `run`, attached to the after-update event only: resets the owner's
   * permissions in the computed companies. False when the owner's company
   * list is null, which makes the computation fail.
   */
  method Run(store: AccessStore, ownerId: int, config: ResetConfig, ownerCompanies: Option<seq<int>>) returns (ok: bool)
    requires store.Valid()
    modifies store`assignments
    ensures store.Valid()
    ensures ok <==> ownerCompanies.Some?
    ensures forall a :: a in store.assignments <==>
      (a in old(store.assignments) &&
       !(ok && a.user == ownerId && a.item.company in ResetCompanies(config.roleChanged, ownerCompanies, config.oldCompanies).value))
  {
    var companies := ResetCompanies(config.roleChanged, ownerCompanies, config.oldCompanies);
    if companies.None? {
      return false;
    }
    store.ResetPermissions(ownerId, companies.value);
    ok := true;
  }

  /**
   * Composed with the store: after a role change the user holds no
   * permission in any company of the new or the old list, and keeps every
   * permission elsewhere and every other user's.
   */
  method RoleChangeRevokesAll(store: AccessStore, ownerId: int, newCompanies: seq<int>, oldCompanies: Option<seq<int>>)
    requires store.Valid()
    modifies store`assignments
    ensures store.Valid()
    ensures forall a | a in store.assignments && a.user == ownerId ::
      a.item.company !in newCompanies && (oldCompanies.Some? ==> a.item.company !in oldCompanies.value)
    ensures forall a | a in old(store.assignments) && (a.user != ownerId || (a.item.company !in newCompanies &&
      (oldCompanies.Some? ==> a.item.company !in oldCompanies.value))) :: a in store.assignments
  {
    var ok := Run(store, ownerId, ResetConfig(true, oldCompanies), Some(newCompanies));
    ResetCompaniesMeaning(true, newCompanies, oldCompanies);
  }
}
