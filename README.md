# Per-company permissions and authorization rules of sample-api

This project is a Dafny model of the access-control core of sample-api, a Yii2 REST API for organisations (companies) and their user accounts.

Every company has its own set of eleven permissions, named by kind plus company id (`manageUsers7`, `viewDevices7`, …). Accounts get three kinds of role:
- `superAdmin`: account 1, the main administrator.
- `admin`.
- `user`.

The model covers:

- `Access`: the permission engine, a class `AccessStore` with four parts:
  - the permission items of the RBAC store;
  - the permission assignments;
  - the users' roles;
  - the per-(company, user) permissions cache.

  Its methods are the engine's operations:
  - creating a company's permissions;
  - assigning a role;
  - resetting a user's permissions in a list of companies;
  - reading permissions (get-or-set on the cache);
  - setting permissions by a minimal sequence of revokes and assigns;
  - invalidating the cache.
- `ResetPermissions`: the hook that chooses which companies to wipe after a user's role or company list changed.
- `Users`:
  - roles and the role hierarchy;
  - update scenarios;
  - company-list normalisation;
  - the password-reset token;
  - the after-save trigger;
  - the user record class.
- `UsersController`, `AccessView`, `AccessUpdate`, `UsersIndex`, `UsersUpdate`: the authorization decisions of the controllers. Each is a decision function from the requester, the target, the request parameters and the assignments to `Allow | Forbidden | InvalidParam(key) | InternalError`. The two access actions and the user update also run their effect on the store.
- `ErrorHandler`: the error-code mapping.
- `CompaniesValidator`: the first-invalid-company validator.
- `InCondition`: the SQL array-containment condition.
- `Text`: PHP string helpers used throughout (decimal notation, `(int)` casts, `strrpos`, `implode`/`explode`, `mb_strpos`).

Inputs that the source reads from its environment are parameters of the model:
- the clock;
- the random part of tokens;
- the logged-in account's id and role;
- the users-table rows read by the controllers;
- the `companyExists` lookup of the validator.

## Model

| member | source | states |
|---|---|---|
| Permissions.CatalogIsComplete | models/Access.php:141-153 | the catalog has 11 kinds, lists every kind, and lists each only once |
| Permissions.IndexOfKind | models/Access.php:141-153 | every kind has exactly one position in the catalog order |
| Permissions.KindOfName | models/Access.php:141-153 | a name maps back to a kind only if that kind has that name |
| Permissions.KindOfNameOfKindName | models/Access.php:141-153 | a kind's name maps back to that kind |
| Permissions.KindNameInjective | models/Access.php:141-153 | distinct kinds have distinct names |
| Permissions.KindNameIsLetters | models/Access.php:141-153 | permission kind names are non-empty and made of letters only |
| Permissions.PermissionNameInjective | models/Access.php:89-108 | `kind . companyId` determines both the kind and the company, so each company has its own set |
| Permissions.CompanyPermissionNames | models/Access.php:172-179 | a company's permission names: one per catalog kind, in catalog order |
| Permissions.CompanyPermissionNamesDistinct | models/Access.php:172-179 | two companies' permission names coincide only for the same kind and the same company |
| Access.CacheKeyInjective | models/Access.php:219 | the key `access_{c}_{u}` determines the company and the user |
| Access.NoUnderscoreInNumber | models/Access.php:219 | no decimal id contains `_`, the separator of the cache key |
| Access.CanPermission | models/Access.php:227 | the RBAC check for `kind . c` holds exactly when the (kind, c, user) assignment exists |
| Access.ComputedPermissionsShape | models/Access.php:221-231 | the computed map has the 10 kinds other than manageUsers for a plain user and all 11 otherwise; each value says whether the permission is assigned |
| Access.Plan | models/Access.php:246-264 | one step per catalog kind, in catalog order |
| Access.FirstCrash | models/Access.php:246-264 | index of the first step that fails, so every earlier step runs and no later one does |
| Access.SetPermissionsRoundTrip | models/Access.php:244-266 | from up-to-date current values and with no failing step, the permissions afterwards are exactly the requested ones; a kind the request leaves out or sets to false ends revoked |
| Access.ComputedMatchesRequested | models/Access.php:244-266 | when every listed kind is assigned exactly as the request says, the computed map equals the requested one |
| Access.StepReaches | models/Access.php:251-263 | each step that runs leaves the kind assigned exactly when the request sets it to true |
| Access.PlainUserKeepsManageUsers | models/Access.php:249-251 | for a target with role user the manageUsers assignment never changes |
| Access.ComputedElsewhereUnchanged | models/Access.php:244-266 | permissions of every other (company, user) pair are unchanged by the steps |
| Access.SetPermissionsSucceeds | models/Access.php:244-266 | all items of the company exist and the current map lists every listed kind, so no step fails |
| Access.StaleListCrashes | models/Access.php:247-256 | a current map that lacks manageUsers, while the request names it, fails at the first step |
| Access.EqualValueKept | models/Access.php:254-255 | a kind whose requested value equals the current map's value is skipped, even with a stale map, so its assignment is unchanged after any number of steps |
| Access.UnknownKeysIgnored | models/Access.php:248-257 | request keys that name no catalog kind do not change the plan |
| Access.FirstExisting | models/Access.php:172-179 | position of the first catalog kind whose item already exists |
| Access.CreateForNewCompany | models/Access.php:172-179 | for a company without items, every kind is added |
| Access.AccessStore.constructor | migrations/m191218_071140_create_users_table.php:44-55 | initial state: no items, no assignments, an empty cache, and account 1 holding superAdmin |
| Access.AccessStore.CreateCompanyPermissions | models/Access.php:172-179 | adds one item per kind, named kind + c, in catalog order, with the catalog description; it fails at an existing item and keeps the items added before it |
| Access.AccessStore.AssignRole | models/Access.php:188-191 | the role assignment is added; it fails when the role was already assigned |
| Access.AccessStore.ResetPermissions | models/Access.php:200-209 | afterwards no permission of `u` remains in any listed company; missing items are skipped; other companies, other users and the cache are unchanged |
| Access.AccessStore.GetPermissions | models/Access.php:217-236 | returns the cached map when there is one, otherwise the computed one, which it stores under (c, u); a consistent cache stays consistent |
| Access.AccessStore.InvalidateCache | models/Access.php:273-279 | removes exactly the keys (id, u) for the listed ids and changes no other entry |
| Access.AccessStore.SetPermissions | models/Access.php:244-266 | runs the steps from the map `getPermissions` returns, up to the first failure; it changes only the (c, u) assignments; on success exactly the (c, u) cache key is dropped; a plain user's manageUsers is untouched |
| Access.AccessStore.RunSteps | models/Access.php:248-264 | the loop applies the plan's steps in order and stops at the first failing one |
| ResetPermissions.Difference | components/behaviors/ResetPermissionsBehavior.php:72 | `array_diff`: the values of the first list that are not in the second |
| ResetPermissions.DifferenceOfDisjoint | components/behaviors/ResetPermissionsBehavior.php:72 | nothing is removed when no value is in the second list |
| ResetPermissions.DifferenceOfCovered | components/behaviors/ResetPermissionsBehavior.php:72 | a list covered by the second list gives the empty difference |
| ResetPermissions.ResetCompanies | components/behaviors/ResetPermissionsBehavior.php:65-85 | a list is computed exactly when the owner's company list is not null |
| ResetPermissions.ResetCompaniesMeaning | components/behaviors/ResetPermissionsBehavior.php:65-74 | after a role change: the new and old companies, each once; otherwise: the old companies that are no longer listed |
| ResetPermissions.NoOldListResetsNothing | components/behaviors/ResetPermissionsBehavior.php:68 | with neither a role change nor an old list, nothing is reset |
| ResetPermissions.NothingDroppedResetsNothing | components/behaviors/ResetPermissionsBehavior.php:72 | when no company was dropped and the role is unchanged, nothing is reset |
| ResetPermissions.Run | components/behaviors/ResetPermissionsBehavior.php:53-56 | resets the owner's permissions over exactly the computed list; fails when the owner's list is null |
| ResetPermissions.RoleChangeRevokesAll | components/behaviors/ResetPermissionsBehavior.php:53-74 | after a role change the user keeps no permission in any old or new company, and keeps every other permission |
| Users.HoldsRoleCharacterised | migrations/m191216_143835_init_rbac.php:24-34 | superAdmin holds every role; admin and user hold only themselves |
| Users.RoleRuleExactlyAdminOrUser | models/db/User.php:186 | only `admin` and `user` pass the role rule |
| Users.ScenarioRestrictions | models/db/User.php:206-215 | role only in the default and update_super scenarios; companies also in update_admin; password only in update_self and password_reset |
| Users.Unique | models/db/User.php:280 | `array_unique`: no duplicates, the same values, and the first element kept first |
| Users.UniqueOfDistinct | models/db/User.php:280 | a list without duplicates is unchanged |
| Users.Insert | models/db/User.php:284 | inserting into a sorted list keeps it sorted and adds exactly the element |
| Users.Sort | models/db/User.php:284 | `sort`: ascending, and a permutation of the input |
| Users.InsertKeepsDistinct | models/db/User.php:284 | inserting a new element keeps a sorted list free of duplicates |
| Users.SortKeepsDistinct | models/db/User.php:284 | sorting keeps a list free of duplicates |
| Users.InsertAboveAll | models/db/User.php:284 | an element above every element of a strictly increasing list goes at the end |
| Users.SortOfIncreasing | models/db/User.php:284 | a strictly increasing list is already sorted |
| Users.NormalizedCompaniesShape | models/db/User.php:277-287 | the result is sorted with no duplicates; a plain user with more than one distinct company keeps only the first listed; otherwise the values are the same |
| Users.NormalizedCompaniesIdempotent | models/db/User.php:277-287 | normalising twice is normalising once |
| Users.ResetToken | models/db/User.php:394 | the token is the random part, `_`, and the time |
| Users.ResetTokenRoundTrip | models/db/User.php:363-396 | a token made at time t is valid at `now` exactly when now <= t + expire |
| Users.EmptyTokenInvalid | models/db/User.php:365-367 | an empty token is never valid |
| Users.ResetHookFor | models/db/User.php:249-260 | the hook is attached exactly on a non-insert save that changed role or companies; it carries roleChanged and the old companies |
| Users.UserRecord.constructor | models/db/User.php:77-84 | a record with the given id, role and companies, and no reset token |
| Users.UserRecord.NormalizeCompanies | models/db/User.php:277-287 | an assigned list is replaced by its normalised form; a list loaded from the database is left alone |
| Users.UserRecord.GeneratePasswordResetToken | models/db/User.php:392-396 | the stored token is valid until the expiry at `now + 86400` and no longer |
| Decisions.ManagerFilterRoles | controllers/UsersController.php:121-125 | the role filter for create and index passes exactly when the account is assigned superAdmin or admin in the RBAC store, whatever its `role` column |
| Decisions.ManagerFilterByColumn | controllers/UsersController.php:121-125 | while the account's role assignment agrees with its column, the filter passes exactly for superAdmin and admin accounts |
| Decisions.StaleAssignmentDecides | controllers/UsersController.php:121-125 | after a role change the kept assignment decides: a demoted admin passes, a promoted user is refused |
| UsersController.CompaniesParam | controllers/UsersController.php:349-357 | a missing or empty `companies` parameter is refused; any other value is returned as given |
| UsersController.SuperAdminPasses | controllers/UsersController.php:219-234 | account 1 passes every check |
| UsersController.SuperTargetForbidden | controllers/UsersController.php:254-291 | anyone else is refused viewing or updating account 1 |
| UsersController.SelfAllowed | controllers/UsersController.php:254-277 | an account may always view and update itself |
| UsersController.AdminOnAdminForbidden | controllers/UsersController.php:300-305 | an admin is refused another admin |
| UsersController.NonAdminForbiddenOnOthers | controllers/UsersController.php:312-340 | an account that is not an admin is refused every other account |
| UsersController.AdminUpdate | controllers/UsersController.php:312-371 | an admin updating another account without a `companies` parameter is allowed; otherwise it is allowed exactly with manageUsers in the first listed company |
| UsersController.AdminView | controllers/UsersController.php:333-371 | an admin viewing another account is allowed exactly with manageUsers in the target's first company; a target with no companies gives a server error |
| UsersController.CreateRules | controllers/UsersController.php:219-371 | for create, an account assigned neither superAdmin nor admin is refused; for one that passes the filter an empty list gives `company_empty`, otherwise only the first listed company's manageUsers counts |
| UsersController.CreateNeedsPermission | controllers/UsersController.php:219-245 | with no permissions at all, only account 1 may create, and only while it is assigned superAdmin or admin |
| AccessView.GuardOrder | controllers/access/ViewAction.php:118-188 | refused exactly by the super-target or admin guards; `user_company_mismatch` exactly when those pass and the user has no row or is not in the company; a server error exactly when they pass and its companies are null; allowed exactly when all pass |
| AccessView.MissingRowMismatch | controllers/access/ViewAction.php:180-188 | for a requester that is not an admin, a user id without a row gives `user_company_mismatch` (the missing value parses as an empty array) |
| AccessView.SuperTargetForbidden | controllers/access/ViewAction.php:135-140 | account 1's permissions are refused to everyone, account 1 included |
| AccessView.MismatchForEveryone | controllers/access/ViewAction.php:180-188 | past the first guards, a company the target is not in gives `user_company_mismatch` |
| AccessView.NonAdminNeedsOnlyMembership | controllers/access/ViewAction.php:121-125 | an account that is not an admin is held only to the company membership of the target |
| AccessView.View | controllers/access/ViewAction.php:98-106 | on success the result equals `getPermissions` of (companyId, userId); otherwise the cache is untouched |
| AccessUpdate.Defined | models/Access.php:254 | the keys of the body whose value is not null, with their values |
| AccessUpdate.EmptyBodyFirst | controllers/access/UpdateAction.php:33-41 | an empty or missing body is `access_empty` whatever the guards would say |
| AccessUpdate.SameGuardsAsView | controllers/access/UpdateAction.php:117-119 | with a non-empty body, the update is held to the view's guards |
| AccessUpdate.Update | controllers/access/UpdateAction.php:33-127 | a refusal leaves the store unchanged; otherwise `setPermissions` runs with the body; status 204 on success, a server error when a step fails |
| AccessUpdate.UpdateThenRead | controllers/access/UpdateAction.php:117-127 | after a successful update from an up-to-date cache, the next read returns exactly the requested permissions |
| UsersIndex.RoleCheckedFirst | controllers/users/IndexAction.php:156-161 | a missing role is `role_empty`, whatever the companies |
| UsersIndex.CompaniesChecked | controllers/users/IndexAction.php:162-164 | a role given and companies missing is `company_empty` |
| UsersIndex.UserForbidden | controllers/UsersController.php:121-125 | an account assigned neither superAdmin nor admin is refused the list whatever its column; so is a plain user whose assignment agrees with its column |
| UsersIndex.DemotedAdminListsAll | controllers/users/IndexAction.php:180-206 | an account demoted to user that kept its admin assignment passes the filter, skips `checkAccess` and gets the unrestricted list |
| UsersIndex.AdminRules | controllers/users/IndexAction.php:200-230 | an admin that passes the filter and lists admins is refused; otherwise it needs manageUsers in the filter's company |
| UsersIndex.SuperAdminUnchecked | controllers/users/IndexAction.php:200-206 | an account that passes the filter and whose column is not admin gets the list with a well-formed filter, without further checks |
| UsersIndex.CompanyIdOfDecimal | controllers/users/IndexAction.php:167 | the company id read from a decimal id is that id |
| UsersIndex.ArrayFilterChecksCompanyOne | controllers/users/IndexAction.php:167 | a non-empty array filter gives company id 1, and the admin's check is made in company 1 |
| UsersIndex.AdminCondition | controllers/users/IndexAction.php:185-187 | an admin's list condition is the array-containment SQL |
| UsersIndex.Restrict | controllers/users/IndexAction.php:185-187 | the list is no longer than the rows and holds only rows of the table |
| UsersIndex.RestrictMeaning | controllers/users/IndexAction.php:185-187 | an admin sees exactly the rows whose companies include all of its companies; others are not restricted |
| UsersIndex.AdminConditionNamesCompanies | controllers/users/IndexAction.php:186 | the admin's condition names exactly the admin's companies, in order |
| UsersUpdate.ScenarioRules | controllers/users/UpdateAction.php:162-167 | updating oneself: password but not role or companies; only a non-admin updating another account may change the role |
| UsersUpdate.AfterUpdate | controllers/users/UpdateAction.php:143-148 | after an error-free update, drops exactly the user's cache entries in its post-update companies (none for an empty or null list); status 204 |
| ErrorHandler.NonZeroCodeKept | components/ErrorHandler.php:136-138 | a non-zero exception code is returned unchanged |
| ErrorHandler.CodeByClass | components/ErrorHandler.php:139-151 | without a code: not-found is 1, bad request is 2 exactly with the CSRF text and 3 otherwise, forbidden is 5, anything else is 0 |
| ErrorHandler.ZeroCodeRange | components/ErrorHandler.php:134-152 | without a code the result is one of 0, 1, 2, 3, 5 |
| ErrorHandler.ContainsAt | components/ErrorHandler.php:143 | `mb_strpos` finds a piece wherever it occurs |
| ErrorHandler.CsrfMessageDetected | components/ErrorHandler.php:142-146 | a bad request whose message includes the CSRF failure text gets code 2 |
| ErrorHandler.DecisionCodes | components/ErrorHandler.php:136-151 | refusals get 5; parameter errors get 3 whatever their message; not-found gets 1 |
| CompaniesValidator.FirstMissing | components/validators/UserCompaniesValidator.php:41-46 | the position of the first company that does not exist |
| CompaniesValidator.ValidateValue | components/validators/UserCompaniesValidator.php:37-50 | valid exactly when every company exists; otherwise reports the first missing id and makes no lookup after it |
| CompaniesValidator.EmptyListValid | components/validators/UserCompaniesValidator.php:39-49 | the empty list is valid |
| CompaniesValidator.FirstMissingIgnoresTail | components/validators/UserCompaniesValidator.php:45 | ids after the first missing one do not affect the report |
| InCondition.Build | components/db/InConditionBuilder.php:26-31 | the containment SQL exactly for the `companies` column; any other column goes to the framework's builder |
| InCondition.EmptyValues | components/db/InConditionBuilder.php:29 | no values give `companies @> ARRAY[]` |
| InCondition.SeparatorCount | components/db/InConditionBuilder.php:29 | n values give exactly n - 1 commas |
| InCondition.ParseBuild | components/db/InConditionBuilder.php:29 | the values can be read back from the SQL, in input order |
| Text.IntCastOfIntToString | models/db/User.php:369 | PHP's `(int)` of a decimal id is that id |
| Text.LastIndexOf | models/db/User.php:369 | `strrpos`: the last position of the character, or -1 when it does not occur |
| Text.SplitJoin | components/db/InConditionBuilder.php:29 | splitting a joined list on the separator gives back the parts |
| Text.CountJoin | components/db/InConditionBuilder.php:29 | joining n separator-free parts inserts n - 1 separators |

## Left out

- RBAC framework internals, which are not part of the source. The store's behaviour is assumed:
  - assigning an existing assignment fails;
  - revoking is a delete;
  - revoking a missing item is an error;
  - adding an existing item fails;
  - a permission check is direct membership, since roles only have roles as children.
- Framework plumbing, which is configuration rather than logic:
  - login, logout and password-reset endpoints;
  - mail sending;
  - action logging;
  - CSRF regeneration;
  - the `AccessControl`/`VerbFilter` tables of AccessController and CompaniesController.
  The role filter of UsersController for create and index is modelled as `PassesManagerFilter`, on the RBAC role assignments.
- Identity loading: the logged-in account's id and role are inputs, not looked up. The source's restored identity selects only `id` and `name` (models/User.php:31), so outside a login by e-mail `isAdmin()` reads a null role. The model's requester role stands for a fully loaded record.
- Cache TTLs, `TagDependency` query-cache tags and the invalidation of the users tag in the user update: these depend on time and the framework. The Access cache is a plain map.
- Concurrency: requests are sequential.
- JSON request bodies are modelled as follows:
  - null values of `permissions` are kept and count as not set;
  - the other values are booleans, i.e. their PHP truthiness;
  - the companies parameters are lists of integers;
  - non-array values where an array is expected (a PHP type error) are not modelled.
- Users.UserRecord.GeneratePasswordResetToken: the database write of the token is not modelled; the random string and the clock are parameters.
- Text.IntCast: PHP's exponent notation and integer overflow in `(int)` casts are not modelled.
- UsersIndex.Restrict: list ordering (`id DESC`), pagination, the filter's role and companies conditions on the list (the search model) and their validation (the 422 response) are not modelled. Neither is the database's handling of an admin whose company list is empty or an `ArrayExpression`.
- Server errors (undefined array keys, calls on null, PHP type errors) are one outcome, `InternalError`. The exception code such an error carries is not modelled.
- Access.AccessStore.SetPermissions: it does not claim to keep the whole cache consistent. After a failed step the (c, u) entry holds the map read at the start while some assignments have changed, and `ResetPermissions` revokes without touching the cache. `UpdateThenRead` states the round trip with an up-to-date entry as a precondition instead.
- AssignRoleBehavior and CreatePermissionsBehavior are one-line hooks. Their effect is `AssignRole` and `CreateCompanyPermissions`. The role assignment after a role change is not redone, because the hook runs on insert only.
- The phone validator (a libphonenumber wrapper) and the company ORM rules are not modelled.
