/**
 * The fixed permission catalog of models/Access.php and the naming scheme that
 * scopes a permission kind to one organization: the permission item of kind
 * `k` for company `c` is named `KindName(k)` followed by the decimal notation
 * of `c` (for example `manageUsers5`).
 */
module Permissions {
  import opened Text
  import opened Wrappers

  datatype Kind =
    | ManageUsers
    | ViewDevices
    | ManageDevices
    | ViewEquipments
    | ManageEquipments
    | ManagePlacements
    | ManageLines
    | ManageExtFactors
    | EnterMetrics
    | ManageTariffs
    | ViewEconomic

  /** The catalog in its declared order; every loop over permissions follows it. */
  const Catalog: seq<Kind> := [
    ManageUsers, ViewDevices, ManageDevices, ViewEquipments, ManageEquipments,
    ManagePlacements, ManageLines, ManageExtFactors, EnterMetrics, ManageTariffs,
    ViewEconomic
  ]

  function KindName(k: Kind): string
  {
    match k
    case ManageUsers => "manageUsers"
    case ViewDevices => "viewDevices"
    case ManageDevices => "manageDevices"
    case ViewEquipments => "viewEquipments"
    case ManageEquipments => "manageEquipments"
    case ManagePlacements => "managePlacements"
    case ManageLines => "manageLines"
    case ManageExtFactors => "manageExtFactors"
    case EnterMetrics => "enterMetrics"
    case ManageTariffs => "manageTariffs"
    case ViewEconomic => "viewEconomic"
  }

  function Description(k: Kind): string
  {
    match k
    case ManageUsers => "Управление пользователями"
    case ViewDevices => "Просмотр приборов учёта"
    case ManageDevices => "Управление приборами учёта"
    case ViewEquipments => "Просмотр оборудования"
    case ManageEquipments => "Управление оборудованием"
    case ManagePlacements => "Управление помещениями"
    case ManageLines => "Управление линиями"
    case ManageExtFactors => "Управление внешними факторами"
    case EnterMetrics => "Ввод показателей"
    case ManageTariffs => "Управление тарифами"
    case ViewEconomic => "Просмотр экономических показателей"
  }

  /** Position of a kind in the catalog. */
  function IndexOfKind(k: Kind): (i: nat)
    ensures i < |Catalog| && Catalog[i] == k
    ensures forall j | 0 <= j < |Catalog| && Catalog[j] == k :: j == i
  {
    match k
    case ManageUsers => 0
    case ViewDevices => 1
    case ManageDevices => 2
    case ViewEquipments => 3
    case ManageEquipments => 4
    case ManagePlacements => 5
    case ManageLines => 6
    case ManageExtFactors => 7
    case EnterMetrics => 8
    case ManageTariffs => 9
    case ViewEconomic => 10
  }

  /** The catalog lists 11 kinds, each exactly once. */
  lemma CatalogIsComplete()
    ensures |Catalog| == 11
    ensures forall k: Kind :: k in Catalog
    ensures forall i, j | 0 <= i < j < |Catalog| :: Catalog[i] != Catalog[j]
  {
    forall k: Kind ensures k in Catalog {
      var _ := IndexOfKind(k);
    }
  }

  /** The kind a request key names, if it names one. */
  function KindOfName(name: string): (r: Option<Kind>)
    ensures r.Some? ==> KindName(r.value) == name
  {
    if name == "manageUsers" then Some(ManageUsers)
    else if name == "viewDevices" then Some(ViewDevices)
    else if name == "manageDevices" then Some(ManageDevices)
    else if name == "viewEquipments" then Some(ViewEquipments)
    else if name == "manageEquipments" then Some(ManageEquipments)
    else if name == "managePlacements" then Some(ManagePlacements)
    else if name == "manageLines" then Some(ManageLines)
    else if name == "manageExtFactors" then Some(ManageExtFactors)
    else if name == "enterMetrics" then Some(EnterMetrics)
    else if name == "manageTariffs" then Some(ManageTariffs)
    else if name == "viewEconomic" then Some(ViewEconomic)
    else None
  }

  /** Kind names are exactly the names KindOfName recognises, so distinct kinds have distinct names. */
  lemma KindOfNameOfKindName(k: Kind)
    ensures KindOfName(KindName(k)) == Some(k)
  {
  }

  lemma KindNameInjective(k1: Kind, k2: Kind)
    ensures KindName(k1) == KindName(k2) ==> k1 == k2
  {
    KindOfNameOfKindName(k1);
    KindOfNameOfKindName(k2);
  }

  lemma KindNameIsLetters(k: Kind)
    ensures |KindName(k)| > 0 && AllLetters(KindName(k))
  {
  }

  /** Name of the permission item of kind `k` in company `c` (`$name . $companyId`). */
  function PermissionName(k: Kind, c: int): string
  {
    KindName(k) + IntToString(c)
  }

  /** Length of the longest prefix of `s` made of letters. */
  function LetterPrefixLength(s: string): (n: nat)
    ensures n <= |s|
  {
    if s == [] || !IsLetter(s[0]) then 0 else 1 + LetterPrefixLength(s[1..])
  }

  lemma {:induction false} LetterPrefixOfConcat(a: string, b: string)
    requires AllLetters(a)
    requires |b| > 0 && !IsLetter(b[0])
    ensures LetterPrefixLength(a + b) == |a|
  {
    if a != [] {
      assert (a + b)[1..] == a[1..] + b;
      LetterPrefixOfConcat(a[1..], b);
    } else {
      assert a + b == b;
    }
  }

  /**
   * Two letter-only prefixes followed by suffixes that start with a non-letter
   * split a string at the same place.
   */
  lemma SplitAtFirstNonLetter(a1: string, b1: string, a2: string, b2: string)
    requires AllLetters(a1) && AllLetters(a2)
    requires |b1| > 0 && !IsLetter(b1[0]) && |b2| > 0 && !IsLetter(b2[0])
    requires a1 + b1 == a2 + b2
    ensures a1 == a2 && b1 == b2
  {
    var s := a1 + b1;
    LetterPrefixOfConcat(a1, b1);
    LetterPrefixOfConcat(a2, b2);
    assert a1 == s[..|a1|] == a2;
    assert b1 == s[|a1|..] == b2;
  }

  /**
   * The string name encodes the pair: distinct (kind, company) pairs give
   * distinct permission names, so every company owns a separate set of items.
   */
  lemma PermissionNameInjective(k1: Kind, c1: int, k2: Kind, c2: int)
    ensures PermissionName(k1, c1) == PermissionName(k2, c2) ==> k1 == k2 && c1 == c2
  {
    if PermissionName(k1, c1) == PermissionName(k2, c2) {
      KindNameIsLetters(k1);
      KindNameIsLetters(k2);
      var d1, d2 := IntToString(c1), IntToString(c2);
      assert !IsLetter(d1[0]) && !IsLetter(d2[0]);
      SplitAtFirstNonLetter(KindName(k1), d1, KindName(k2), d2);
      KindNameInjective(k1, k2);
      IntToStringInjective(c1, c2);
    }
  }

  /** The names `createCompanyPermissions` creates for company `c`, in catalog order. */
  function CompanyPermissionNames(c: int): (names: seq<string>)
    ensures |names| == |Catalog|
  {
    seq(|Catalog|, i requires 0 <= i < |Catalog| => PermissionName(Catalog[i], c))
  }

  /** A company's 11 names are pairwise distinct and disjoint from every other company's. */
  lemma CompanyPermissionNamesDistinct(c: int, d: int)
    ensures forall i, j | 0 <= i < |Catalog| && 0 <= j < |Catalog| ::
      CompanyPermissionNames(c)[i] == CompanyPermissionNames(d)[j] ==> i == j && c == d
  {
    forall i, j | 0 <= i < |Catalog| && 0 <= j < |Catalog| &&
      CompanyPermissionNames(c)[i] == CompanyPermissionNames(d)[j]
      ensures i == j && c == d
    {
      PermissionNameInjective(Catalog[i], c, Catalog[j], d);
      CatalogIsComplete();
    }
  }
}
