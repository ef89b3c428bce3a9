/**
 * components/validators/UserCompaniesValidator.php: every company of a
 * user's list must exist. The ids are looked up in list order and the
 * first one that does not exist is reported.
 */
module CompaniesValidator {
  import opened Wrappers

  /** Whether every id of `ids` names an existing company. */
  predicate AllExist(ids: seq<int>, companyExists: int -> bool)
  {
    forall i | 0 <= i < |ids| :: companyExists(ids[i])
  }

  /** The position of the first id that does not exist, or |ids| when all do. */
  function FirstMissing(ids: seq<int>, companyExists: int -> bool): (n: nat)
    ensures n <= |ids|
    ensures forall j | 0 <= j < n :: companyExists(ids[j])
    ensures n < |ids| ==> !companyExists(ids[n])
  {
    if ids == [] then 0
    else if !companyExists(ids[0]) then 0
    else 1 + FirstMissing(ids[1..], companyExists)
  }

  /**
   * `validateValue`: None when every company exists, otherwise the first id
   * that does not. `lookups` counts the calls of `isCompanyValid`: the loop
   * stops at the first failure, so no later id is looked up.
   */
  method ValidateValue(ids: seq<int>, companyExists: int -> bool) returns (invalid: Option<int>, lookups: nat)
    ensures invalid.None? <==> AllExist(ids, companyExists)
    ensures invalid.Some? ==> var n := FirstMissing(ids, companyExists);
      n < |ids| && invalid.value == ids[n] && lookups == n + 1
    ensures invalid.None? ==> lookups == |ids|
  {
    var valid := true;
    var id := 0;
    lookups := 0;
    var i := 0;
    while i < |ids|
      invariant 0 <= i <= |ids|
      invariant lookups == i
      invariant forall j | 0 <= j < i :: companyExists(ids[j])
    {
      id := ids[i];
      lookups := lookups + 1;
      if !companyExists(id) {
        valid := false;
        break;
      }
      i := i + 1;
    }
    invalid := if valid then None else Some(id);
    if !valid {
      FirstMissingAt(ids, companyExists, i);
    }
  }

  lemma {:induction false} FirstMissingAt(ids: seq<int>, companyExists: int -> bool, i: nat)
    requires i < |ids| && !companyExists(ids[i])
    requires forall j | 0 <= j < i :: companyExists(ids[j])
    ensures FirstMissing(ids, companyExists) == i
  {
    if i > 0 {
      FirstMissingAt(ids[1..], companyExists, i - 1);
    }
  }

  /** The empty list is valid and looks nothing up. */
  lemma EmptyListValid(companyExists: int -> bool)
    ensures AllExist([], companyExists) && FirstMissing([], companyExists) == 0
  {
  }

  /** The report depends only on the ids up to the first missing one: appending ids after it changes nothing. */
  lemma {:induction false} FirstMissingIgnoresTail(ids: seq<int>, tail: seq<int>, companyExists: int -> bool)
    requires FirstMissing(ids, companyExists) < |ids|
    ensures FirstMissing(ids + tail, companyExists) == FirstMissing(ids, companyExists)
  {
    var n := FirstMissing(ids, companyExists);
    assert (ids + tail)[n] == ids[n];
    FirstMissingAt(ids + tail, companyExists, n);
  }
}
