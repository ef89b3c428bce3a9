/**
 * What models/db/User.php decides about a user record: the three roles and
 * their hierarchy, the role validation rule, the attributes each update
 * scenario accepts, the normalisation of the company list, the password-reset
 * token and the condition under which saving a user resets its permissions.
 */
module Users {
  import opened Text
  import opened Wrappers

  /** Id of the main administrator, seeded with role superAdmin. */
  const SuperId: int := 1

  /** `passwordResetTokenExpire` of the application parameters, in seconds. */
  const PasswordResetTokenExpire: int := 86400

  datatype Role = SuperAdmin | Admin | User

  function RoleName(r: Role): string
  {
    match r
    case SuperAdmin => "superAdmin"
    case Admin => "admin"
    case User => "user"
  }

  /**
   * The RBAC role hierarchy seeded at installation: superAdmin has admin and
   * user as children; roles have no permission children.
   */
  function ChildRoles(r: Role): set<Role>
  {
    if r == SuperAdmin then {Admin, User} else {}
  }

  /** An account assigned role `held` passes an RBAC check for role `r`. */
  predicate HoldsRole(held: Role, r: Role)
  {
    held == r || r in ChildRoles(held)
  }

  /** superAdmin holds every role; admin and user hold only themselves. */
  lemma HoldsRoleCharacterised(held: Role, r: Role)
    ensures HoldsRole(held, r) <==> held == SuperAdmin || held == r
  {
  }

  /** The `role` validation rule: strict membership in [admin, user]. */
  predicate RoleRuleAccepts(role: string)
  {
    role in ["admin", "user"]
  }

  /** Only the names of admin and user pass the rule; superAdmin cannot be given by a request. */
  lemma RoleRuleExactlyAdminOrUser(role: string)
    ensures RoleRuleAccepts(role) <==> role == RoleName(Admin) || role == RoleName(User)
    ensures !RoleRuleAccepts(RoleName(SuperAdmin))
  {
  }

  datatype Scenario = Default | PasswordReset | UpdateSuper | UpdateAdmin | UpdateSelf

  /**
   * Attributes a scenario lets a request assign. The default scenario lists
   * every attribute that carries a rule without an `on` restriction.
   */
  function ScenarioAttributes(s: Scenario): set<string>
  {
    match s
    case Default => {"email", "name", "role", "companies", "password", "enabled", "password_hash",
                     "created_at", "updated_at", "password_repeat", "password_reset_token"}
    case PasswordReset => {"password", "password_reset_token", "updated_at"}
    case UpdateSuper => {"email", "name", "role", "enabled", "companies", "updated_at"}
    case UpdateAdmin => {"email", "name", "enabled", "companies", "updated_at"}
    case UpdateSelf => {"email", "name", "password", "password_repeat", "updated_at"}
  }

  /**
   * Who may change what: an admin update cannot change the role, a
   * self-update can change neither role nor companies, and among the update
   * and reset scenarios only the self-update and the password reset take a
   * password.
   */
  lemma ScenarioRestrictions(s: Scenario)
    ensures "role" in ScenarioAttributes(s) <==> s == Default || s == UpdateSuper
    ensures "companies" in ScenarioAttributes(s) <==> s in {Default, UpdateSuper, UpdateAdmin}
    ensures s != Default ==> ("password" in ScenarioAttributes(s) <==> s == UpdateSelf || s == PasswordReset)
  {
  }

  // ---------------------------------------------------------------------------
  // Company list normalisation

  predicate NoDuplicates(s: seq<int>)
  {
    forall i, j | 0 <= i < j < |s| :: s[i] != s[j]
  }

  predicate SortedAscending(s: seq<int>)
  {
    forall i, j | 0 <= i < j < |s| :: s[i] <= s[j]
  }

  /** Strictly increasing: sorted and without duplicates at once. */
  predicate Increasing(s: seq<int>)
  {
    forall i, j | 0 <= i < j < |s| :: s[i] < s[j]
  }

  /** `array_unique`: the first occurrence of every value, in list order. */
  function Unique(s: seq<int>): (u: seq<int>)
    ensures NoDuplicates(u)
    ensures forall x :: x in u <==> x in s
    ensures |u| <= |s|
    ensures s != [] ==> u != [] && u[0] == s[0]
  {
    if s == [] then []
    else
      var u := Unique(s[..|s| - 1]);
      if s[|s| - 1] in u then u else u + [s[|s| - 1]]
  }

  /** A list without duplicates is its own `array_unique`. */
  lemma {:induction false} UniqueOfDistinct(s: seq<int>)
    requires NoDuplicates(s)
    ensures Unique(s) == s
  {
    if s != [] {
      var p := s[..|s| - 1];
      assert NoDuplicates(p);
      UniqueOfDistinct(p);
      assert s[|s| - 1] !in p;
      assert p + [s[|s| - 1]] == s;
    }
  }

  function Insert(x: int, s: seq<int>): (r: seq<int>)
    requires SortedAscending(s)
    ensures SortedAscending(r)
    ensures multiset(r) == multiset(s) + multiset{x}
    ensures forall y :: y in r <==> y == x || y in s
  {
    if s == [] then [x]
    else if x <= s[0] then [x] + s
    else
      var t := Insert(x, s[1..]);
      assert s == [s[0]] + s[1..];
      assert forall k | 0 <= k < |t| :: s[0] <= t[k] by {
        forall k | 0 <= k < |t| ensures s[0] <= t[k] {
          assert t[k] in t;
        }
      }
      [s[0]] + t
  }

  /** PHP's `sort` on integers: ascending order, the same values. */
  function Sort(s: seq<int>): (r: seq<int>)
    ensures SortedAscending(r)
    ensures multiset(r) == multiset(s)
    ensures forall y :: y in r <==> y in s
  {
    if s == [] then []
    else
      var p := s[..|s| - 1];
      assert s == p + [s[|s| - 1]];
      Insert(s[|s| - 1], Sort(p))
  }

  lemma {:induction false} InsertKeepsDistinct(x: int, s: seq<int>)
    requires SortedAscending(s) && NoDuplicates(s) && x !in s
    ensures NoDuplicates(Insert(x, s))
  {
    if s != [] && x > s[0] {
      assert forall y | y in s[1..] :: y in s;
      assert NoDuplicates(s[1..]);
      InsertKeepsDistinct(x, s[1..]);
      var t := Insert(x, s[1..]);
      assert s[0] !in t by {
        assert s[0] !in s[1..];
      }
    }
  }

  /** Sorting keeps a list free of duplicates. */
  lemma {:induction false} SortKeepsDistinct(s: seq<int>)
    requires NoDuplicates(s)
    ensures NoDuplicates(Sort(s))
  {
    if s != [] {
      var p := s[..|s| - 1];
      assert NoDuplicates(p) && s[|s| - 1] !in p;
      SortKeepsDistinct(p);
      InsertKeepsDistinct(s[|s| - 1], Sort(p));
    }
  }

  lemma {:induction false} InsertAboveAll(x: int, s: seq<int>)
    requires Increasing(s)
    requires |s| > 0 ==> s[|s| - 1] < x
    ensures Insert(x, s) == s + [x]
  {
    if s != [] {
      assert s[0] <= s[|s| - 1];
      InsertAboveAll(x, s[1..]);
      assert [s[0]] + (s[1..] + [x]) == s + [x];
    }
  }

  /** Sorting a strictly increasing list leaves it as it is. */
  lemma {:induction false} SortOfIncreasing(s: seq<int>)
    requires Increasing(s)
    ensures Sort(s) == s
  {
    if s != [] {
      var p := s[..|s| - 1];
      assert Increasing(p);
      SortOfIncreasing(p);
      InsertAboveAll(s[|s| - 1], p);
      assert p + [s[|s| - 1]] == s;
    }
  }

  /**
   * `normalizeCompanies` on a plain list: drop duplicates, keep only the
   * first-listed company of an account with role user that names several,
   * then sort ascending.
   */
  function NormalizedCompanies(isUser: bool, s: seq<int>): seq<int>
  {
    var u := Unique(s);
    var kept := if isUser && |u| > 1 then [s[0]] else u;
    Sort(kept)
  }

  /**
   * The result is strictly increasing; it holds exactly the listed companies,
   * except that an account with role user that named several distinct
   * companies keeps only the first one listed; a user account ends with at
   * most one company.
   */
  lemma NormalizedCompaniesShape(isUser: bool, s: seq<int>)
    ensures var n := NormalizedCompanies(isUser, s);
      && SortedAscending(n) && NoDuplicates(n) && Increasing(n)
      && (isUser && |Unique(s)| > 1 ==> n == [s[0]])
      && (!(isUser && |Unique(s)| > 1) ==> forall x :: x in n <==> x in s)
      && (isUser ==> |n| <= 1)
  {
    var u := Unique(s);
    var kept := if isUser && |u| > 1 then [s[0]] else u;
    SortKeepsDistinct(kept);
    assert |Sort(kept)| == |kept| by {
      assert |multiset(Sort(kept))| == |multiset(kept)|;
    }
    if isUser && |u| > 1 {
      assert Sort([s[0]]) == [s[0]] by { SortOfIncreasing([s[0]]); }
    }
  }

  /** Normalising an already normalised list changes nothing. */
  lemma NormalizedCompaniesIdempotent(isUser: bool, s: seq<int>)
    ensures NormalizedCompanies(isUser, NormalizedCompanies(isUser, s)) == NormalizedCompanies(isUser, s)
  {
    var n := NormalizedCompanies(isUser, s);
    NormalizedCompaniesShape(isUser, s);
    UniqueOfDistinct(n);
    SortOfIncreasing(n);
  }

  // ---------------------------------------------------------------------------
  // Password-reset token

  /**
   * The time stamp a token carries: the `(int)` cast of what follows its last
   * `_` (from index 1 when there is none, since `strrpos` then gives false).
   */
  function TokenTimestamp(token: string): int
    requires token != ""
  {
    var p := LastIndexOf(token, '_');
    var start := if p >= 0 then p + 1 else 1;
    IntCast(token[start..])
  }

  /** `isPasswordResetTokenValid`: PHP's `empty()` is true of "" and "0". */
  predicate IsPasswordResetTokenValid(token: string, expire: int, now: int)
  {
    if token == "" || token == "0" then false
    else TokenTimestamp(token) + expire >= now
  }

  /** `generatePasswordResetToken`: a random string, `_`, and the current Unix time. */
  function ResetToken(random: string, now: nat): (token: string)
    ensures |token| > |random| && token[|random|] == '_'
  {
    random + "_" + NatToString(now)
  }

  /**
   * Round trip: a token generated at time `t` is accepted at time `now` exactly
   * when `now <= t + expire`, whatever the random part contains.
   */
  lemma ResetTokenRoundTrip(random: string, t: nat, expire: int, now: int)
    ensures IsPasswordResetTokenValid(ResetToken(random, t), expire, now) <==> now <= t + expire
  {
    var token := ResetToken(random, t);
    var digits := NatToString(t);
    assert token[|random| + 1..] == digits;
    assert forall j | |random| < j < |token| :: token[j] != '_' by {
      forall j | |random| < j < |token| ensures token[j] != '_' {
        assert token[j] == digits[j - |random| - 1];
      }
    }
    assert LastIndexOf(token, '_') == |random|;
    IntCastOfIntToString(t);
    assert token != "0";
  }

  /** An empty token is never valid. */
  lemma EmptyTokenInvalid(expire: int, now: int)
    ensures !IsPasswordResetTokenValid("", expire, now)
  {
  }

  // ---------------------------------------------------------------------------
  // After-save trigger

  /**
   * The old values `afterSave` receives for the attributes a save changed:
   * `Some` when the attribute changed and its old value was not null (PHP's
   * `isset`).
   */
  datatype ChangedAttributes = ChangedAttributes(role: Option<Role>, companies: Option<seq<int>>)

  /** What the reset hook is configured with: `roleChanged` and `oldCompanies`. */
  datatype ResetConfig = ResetConfig(roleChanged: bool, oldCompanies: Option<seq<int>>)

  /** The reset-permissions hook `afterSave` attaches, if any. */
  function ResetHookFor(insert: bool, changed: ChangedAttributes): (hook: Option<ResetConfig>)
    ensures hook.Some? <==> !insert && (changed.role.Some? || changed.companies.Some?)
    ensures hook.Some? ==> hook.value.roleChanged == changed.role.Some?
    ensures hook.Some? ==> hook.value.oldCompanies == changed.companies
  {
    if !insert && (changed.role.Some? || changed.companies.Some?) then
      Some(ResetConfig(changed.role.Some?, changed.companies))
    else None
  }

  // ---------------------------------------------------------------------------
  // The record

  /** The companies attribute: as loaded from the database, or as assigned by a request. */
  datatype CompanyList = FromDatabase(ids: seq<int>) | Assigned(ids: seq<int>)

  class UserRecord {
    var id: int
    var role: Role
    var companies: CompanyList
    var passwordResetToken: string

    constructor (id: int, role: Role, companies: CompanyList)
      ensures this.id == id && this.role == role && this.companies == companies
      ensures passwordResetToken == ""
    {
      this.id := id;
      this.role := role;
      this.companies := companies;
      passwordResetToken := "";
    }

    predicate IsSuperAdmin()
      reads this
    {
      id == SuperId
    }

    predicate IsAdmin()
      reads this
    {
      role == Admin
    }

    predicate IsUser()
      reads this
    {
      role == User
    }

    /**
     * `normalizeCompanies`: a list assigned by a request is normalised for the
     * record's current role; a list loaded from the database is left alone.
     */
    method NormalizeCompanies()
      modifies this`companies
      ensures old(companies).Assigned? ==>
        companies == Assigned(NormalizedCompanies(role == User, old(companies).ids))
      ensures old(companies).FromDatabase? ==> companies == old(companies)
    {
      if companies.Assigned? {
        var normalized := NormalizedCompanies(IsUser(), companies.ids);
        companies := Assigned(normalized);
      }
    }

    /** `generatePasswordResetToken`, with the random string and the clock as inputs. */
    method GeneratePasswordResetToken(random: string, now: nat)
      modifies this`passwordResetToken
      ensures passwordResetToken == ResetToken(random, now)
      ensures IsPasswordResetTokenValid(passwordResetToken, PasswordResetTokenExpire, now + PasswordResetTokenExpire)
      ensures !IsPasswordResetTokenValid(passwordResetToken, PasswordResetTokenExpire, now + PasswordResetTokenExpire + 1)
    {
      passwordResetToken := random + "_" + NatToString(now);
      ResetTokenRoundTrip(random, now, PasswordResetTokenExpire, now + PasswordResetTokenExpire);
      ResetTokenRoundTrip(random, now, PasswordResetTokenExpire, now + PasswordResetTokenExpire + 1);
    }
  }
}
