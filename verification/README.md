# Access control and vehicle loans of the e-procurement API, in Dafny

This project models the core of the `jxb-eprocurement` Go service (gin + gorm). It has two layers:

- **The access-control layer.** This covers:
  - users, roles, modules and features, and the services that read, create, update and delete them;
  - the DTO conversions between rows and JSON shapes;
  - login and the JWT claims it signs;
  - the `Authentication` and `Authorization` middleware gates;
  - the per-route feature tables of the four routers;
  - the pagination, ordering and environment helpers;
  - the response envelope, the validation-error mapping, and the pure parts of the request and system logs.
- **The older controllers.** These are the role, user, vehicle type and vehicle controllers, the login handler that signs role-name tokens, and the loan controller. The loan controller is a small state machine over vehicle availability.

Storage is one `map<nat, Row>` per table, holding the active (not soft-deleted) rows. A query that returns several rows or the first match returns them in ascending id order. Every operation is a pure function from the store and the request to a response and, for writes, the new store. The HTTP status, the message and the payload are modelled exactly. The error detail is what the code passes on: `strconv`'s error text with the input quoted as `strconv.Quote` does (`Numbers.NumErrorText`), gorm's "record not found", or the failed insert's text, which is a parameter.

The following parts of the outside world are parameters:

- the outcome of binding the request body (`Binding`);
- the outcome of struct validation (`ValidationOutcome`);
- bcrypt hashing (`HashResult`) and comparison (a `(hash, plain) -> bool` function);
- JWT signing (`(Claims, key) -> SignResult`) and verification (`string -> Verification`);
- the process environment (a map);
- the clock (an integer Unix time `now`);
- the id the database assigns to a new row (`newId`);
- the text of a failed insert (`insertError`).

Go's integer behaviour is written out where it shows:

- `strconv.Atoi` and `ParseUint` work on 64-bit values, with their range-error clamping.
- `ParseBool` accepts its twelve spellings.
- The user DTO keeps what `strconv.ParseUint(role_id, 10, 32)` returns even when that is an error. An all-digit role id that overflows 32 bits therefore becomes 4294967295, not 0, and any other malformed text becomes 0 (`Dtos.ParseRoleId`).
- The arithmetic behind the pagination offset and the JWT expiry wraps at 64 bits.
- A nil slice is marshalled as `null`, while a non-nil empty slice becomes `[]` (`Base.JsonList`).

## Model

| member | source | states |
|---|---|---|
| Numbers.ParseUint | handlers/dtos/usr_user.dto.go:119 | `strconv.ParseUint` in base 10 succeeds exactly on a non-empty all-digit text whose value fits, returning that value; an all-digit text that is too large is a range error carrying the maximum |
| Numbers.Atoi | helpers/pagination.helper.go:28 | `strconv.Atoi` succeeds exactly on an optionally signed decimal whose value is an int64; an out-of-range magnitude is a range error clamped to MinInt64 or MaxInt64 by its sign |
| Numbers.ParseBool | controllers/vehicle.controller.go:69 | exactly "1, t, T, TRUE, true, True" read as true and "0, f, F, FALSE, false, False" as false; anything else is an error |
| Numbers.NatToDecimal | helpers/pagination.helper.go:67-75 | `%d` of a non-negative number is a non-empty digit string without a leading zero |
| Numbers.Wrap64 | helpers/pagination.helper.go:39 | Go `int` arithmetic: the result is in the int64 range and congruent to the exact value modulo 2^64 |
| Numbers.Wrap64InRange | helpers/pagination.helper.go:39 | wrapping leaves an in-range value unchanged |
| Numbers.PrefixValueBound | handlers/dtos/usr_user.dto.go:119 | a prefix of a digit string never denotes more than the whole string |
| Numbers.ScanCharacterised | handlers/dtos/usr_user.dto.go:119 | the digit loop returns exactly the digits' value, or a range error once the value passes the maximum, or a syntax error at the first non-digit |
| Numbers.NatDecimalValue | helpers/pagination.helper.go:67-75 | the digits printed for n denote n |
| Numbers.ParseUintRoundTrip | handlers/dtos/usr_user.dto.go:119 | `ParseUint` reads back any in-range number that `%d` printed |
| Numbers.AtoiRoundTrip | helpers/jwt.helper.go:25-28 | `Atoi` reads back every int64 that `%d` printed, negative values included |
| Numbers.EscapeChar | service/usr_module.service.go:136-144 | `strconv.Quote` keeps printable ASCII other than `"` and `\`, backslash-escapes those two, uses the seven C escapes, and writes any other ASCII control character as `\x` and two hex digits |
| Numbers.Quote | service/usr_module.service.go:136-144 | the quoted text starts and ends with a double quote and is at least two characters longer than the input |
| Numbers.NumErrorText | service/usr_module.service.go:136-144 | the error text follows the quoted input and ends in "value out of range" for a range error, "invalid syntax" otherwise |
| Numbers.QuoteKeepsPlainText | service/usr_module.service.go:136-144 | text without quotes, backslashes or control characters is quoted as it is |
| Numbers.EscapePrefixFree | service/usr_module.service.go:136-144 | no escape is a prefix of another, so the escaped text decides each character |
| Numbers.EscapeAllInjective | service/usr_module.service.go:136-144 | different texts escape to different texts |
| Numbers.QuoteInjective | service/usr_module.service.go:136-144 | `strconv.Quote` is one-to-one |
| Numbers.NumErrorTextNamesInput | service/usr_feature.service.go:84-92 | two inputs a parser refuses with the same error text are the same input |
| Numbers.AtoiRefusesWord | service/usr_module.service.go:136-144 | `strconv.Atoi("abc")` fails with the text `strconv.Atoi: parsing "abc": invalid syntax` |
| Strings.TrimPrefix | middlewares/auth.middleware.go:25 | `strings.TrimPrefix` removes one leading copy of the prefix when there is one, else returns the text unchanged |
| Strings.TrimPrefixOfPrepended | middlewares/auth.middleware.go:25 | trimming a prefix that was just prepended restores the original text |
| Base.Appended | controllers/vehicle.controller.go:81-86 | a slice built by appending to a nil slice is JSON `null` exactly when nothing was appended, and otherwise holds the elements in order |
| Response.Fail | handlers/responseFormatter.handler.go:42-57 | a service failure carries the status, message and error detail given, and no data |
| Response.Succeed | handlers/responseFormatter.handler.go:42-57 | a service success carries the status, message and data given, and no error |
| Response.ResponseFormatter | handlers/responseFormatter.handler.go:42-57 | the HTTP status is written unchanged; `success` holds iff the status is 200 or 201; nil data becomes `{}`; data and message pass through |
| Response.ResponseFormatterInjective | handlers/responseFormatter.handler.go:42-57 | two envelopes are equal exactly when they were written from the same status, payload and message, so the client can read back what the handler passed |
| Response.ResponseFormatterWithLogging | handlers/responseFormatter.handler.go:93-140 | the envelope is the one `ResponseFormatter` builds; a system-log entry is produced iff the start time is set, and then it carries the status, message and errors |
| Validator.CustomMessage | handlers/validator.handler.go:26-38 | each of `required`, `email`, `no_space` and `min` has its own message, and `min` embeds the rule's size; every other tag gives "Invalid Field" |
| Validator.NoSpace | handlers/validator.handler.go:77-80 | a value passes iff it contains no U+0020; other whitespace is allowed |
| Validator.ErrorKey | handlers/validator.handler.go:60-70 | a failure is reported under the field's json tag, or under the Go field name when there is no tag |
| Validator.ErrorMap | handlers/validator.handler.go:60-70 | the error map has exactly one key per failure's reported key |
| Validator.ErrorMapLastWins | handlers/validator.handler.go:60-70 | when failures share a key, the last of them supplies that key's message |
| Validator.ValidationErrorsV1 | handlers/validator.handler.go:52-74 | validation failures give the field-keyed map; any other outcome gives nil |
| Validator.ValidationErrorHandler | handlers/validator.handler.go:40-50 | validation failures answer 400 with the first failure's message; any other error answers 500 with its text |
| Request.EnvWithDefault | helpers/env.helper.go:7-15 | an unset or empty variable gives the default, and a non-empty one is returned verbatim; the result is empty only when both are empty |
| Request.EnvWithDefaultStable | helpers/env.helper.go:7-15 | writing the looked-up value back into the environment does not change the lookup |
| Order.Direction | helpers/order.helper.go:14-28 | the direction is always "asc" or "desc", and it is "desc" exactly when asked for |
| Order.OrderClause | helpers/order.helper.go:10-34 | a clause is added iff `order_by` is on the whitelist, and it is exactly the column, a space and the direction |
| Order.OrderClauseWhitelisted | helpers/order.helper.go:17-29 | the column read back from any clause produced is the requested one and is on the whitelist |
| Order.WhitelistsHaveNoSpaces | service/usr_user.service.go:88 | none of the user, role or module whitelists contains a column with a space |
| Pagination.PositiveParam | helpers/pagination.helper.go:28-39 | a page or limit parameter is its int64 value when positive, the fallback when it is non-positive or not a number, and MaxInt64 when it is too large |
| Pagination.PageParam | helpers/pagination.helper.go:28-31 | the page is always a positive int64 |
| Pagination.LimitParam | helpers/pagination.helper.go:33-37 | the limit is always a positive int64 |
| Pagination.Paginate | helpers/pagination.helper.go:26-42 | the scope's limit is the parsed limit; its offset is (page−1)·limit, non-negative whenever that fits in an int64, and it wraps otherwise |
| Pagination.PageRows | helpers/pagination.helper.go:40 | `OFFSET o LIMIT l` returns the min(l, n−o) rows starting at position o, and none when o ≥ n |
| Pagination.CeilDiv | helpers/pagination.helper.go:64 | the page count is the least r with r·limit ≥ totalRows |
| Pagination.PageLink | helpers/pagination.helper.go:67-76 | a page link is never empty |
| Pagination.Summary | helpers/pagination.helper.go:44-106 | as written: it echoes page, limit and row count, and gives the ceiling page count; a previous page is linked iff page > 1; a next page is linked iff page < totalRows; the row range is `RowRange` |
| Pagination.RowRange | helpers/pagination.helper.go:79-91 | as written: page 1 is (1, min(limit, totalRows)); a later page within the page count is (page·limit+1, (page+1)·limit); any other page is (0, 0) |
| Pagination.GeneratePaginatedQuery | helpers/pagination.helper.go:44-106 | the summary reads page and limit as `Paginate` does, and the next link is guarded by the row count |
| Pagination.SummaryFixed | helpers/pagination.helper.go:74-91 | corrected: a next page is linked iff page < totalPages, and the row range numbers the rows actually on the page |
| Pagination.GeneratePaginatedQueryFixed | helpers/pagination.helper.go:44-106 | corrected: the next link is guarded by the page count |
| Pagination.PageNonEmptyIffInRange | helpers/pagination.helper.go:39-64 | a page of the scope is non-empty iff its number is at most ⌈rows/limit⌉ |
| Pagination.FixedRowRangeMatchesWindow | helpers/pagination.helper.go:79-91 | the corrected range is the 1-based numbers of the first and last row the scope returns, and (0, 0) for an empty page |
| Pagination.FixedNextPageMatchesWindow | helpers/pagination.helper.go:74-76 | the corrected summary links a next page exactly when that page holds rows |
| Pagination.RowRangeShiftedOnePage | helpers/pagination.helper.go:86-91 | as written, page 2 of 25 rows at 10 per page claims rows 21–30, while the scope returns rows 11–20 |
| Pagination.NextPageBeyondLast | helpers/pagination.helper.go:74-76 | as written, page 2 of 15 rows at 10 per page links to an empty page 3 |
| Pagination.ScopeAgreesWithSummary | helpers/pagination.helper.go:26-106 | `Paginate` and the corrected summary agree on page and limit, and the offset skips exactly the rows before the summary's range |
| Store.LoadFeature | service/usr_role.service.go:181-191 | a feature read alone copies its row and has no module preloaded |
| Store.LoadFeatures | service/usr_role.service.go:181-191 | `Where("id IN ?")` returns each requested id that names an active feature exactly once, in ascending id order |
| Store.LoadEach | service/usr_role.service.go:181-191 | loading a list of existing ids returns one feature per id, in order |
| Store.LoadRole | service/usr_role.service.go:108-142 | a role read copies id, name and the administrative flag, with no features unless they are preloaded |
| Store.LoadUser | service/usr_user.service.go:121-155 | a user read copies its row; the role is the zero role when it is not preloaded or is dangling, and the stored role otherwise |
| Store.FindOther | service/usr_user.service.go:48-56 | the uniqueness probe finds a row satisfying the condition other than the excluded id iff one exists |
| Store.LoadModule | service/usr_module.service.go:132-171 | a module read alone copies id, name and parent, with no children and no features |
| Store.ChildIds | service/usr_module.service.go:132-171 | a module's children are exactly the active modules whose parent it is, ascending |
| Store.LoadModuleTree | service/usr_module.service.go:132-171 | `Preload("Child").Preload("Features")` gives the direct children without preloads, and exactly the module's features |
| Store.FeatureIdsOf | service/usr_feature.service.go:80-97 | the features of a module are exactly the active features whose module id is it |
| Store.LoadFeatureWithModule | service/usr_feature.service.go:124-171 | a feature with its module preloaded carries the module row, or the zero module when that module is gone |
| Store.CreatedId | service/usr_module.service.go:203-231 | an insert keeps a non-zero id from the body and otherwise takes the id the database assigns |
| Dtos.ToModuleDto | handlers/dtos/usr_module.dto.go:37-51 | the module DTO copies id, name and parent, with one child DTO per child |
| Dtos.ToModuleModel | handlers/dtos/usr_module.dto.go:56-70 | the model copies id, name and parent, with one child per child DTO and no features |
| Dtos.WithoutFeatures | handlers/dtos/usr_module.dto.go:37-70 | the feature-free tree keeps id, name, parent and shape at every node |
| Dtos.ModuleDtoRoundTrip | handlers/dtos/usr_module.dto.go:37-70 | every DTO tree survives DTO → model → DTO unchanged |
| Dtos.ModuleModelRoundTrip | handlers/dtos/usr_module.dto.go:37-70 | model → DTO → model returns the tree with every node's features emptied |
| Dtos.ModuleDtoIgnoresFeatures | handlers/dtos/usr_module.dto.go:37-51 | the DTO of a module does not depend on its features |
| Dtos.ToModuleMinimalDto | handlers/dtos/usr_module.dto.go:74-81 | the minimal DTO copies id, name and parent |
| Dtos.ToModuleMinimalModel | handlers/dtos/usr_module.dto.go:98-105 | the minimal model copies id, name and parent, with no children and no features |
| Dtos.ModuleMinimalRoundTrip | handlers/dtos/usr_module.dto.go:74-105 | the minimal conversions are inverse on id, name and parent, in both directions |
| Dtos.ToModuleMinimalDtos | handlers/dtos/usr_module.dto.go:85-94 | one minimal DTO per module, in order, and `null` for no modules |
| Dtos.ToModuleWithFeaturesDto | handlers/dtos/usr_module.dto.go:107-128 | the children and features are one-level minimal projections, in order |
| Dtos.ToFeatureMinimalDto | handlers/dtos/usr_feature.dto.go:32-39 | the minimal DTO copies id, name and module id |
| Dtos.ToFeatureMinimalModel | handlers/dtos/usr_feature.dto.go:84-91 | the minimal model copies id, name and module id, with no module preloaded |
| Dtos.FeatureMinimalRoundTrip | handlers/dtos/usr_feature.dto.go:32-91 | the minimal feature conversions are inverse on id, name and module id |
| Dtos.ToFeatureMinimalDtos | handlers/dtos/usr_feature.dto.go:43-54 | one minimal DTO per feature, in order, and `null` for no features |
| Dtos.ToFeatureWithModuleDto | handlers/dtos/usr_feature.dto.go:56-63 | the DTO holds the id, the name and the module DTO of the preloaded module |
| Dtos.ToFeatureWithModuleDtos | handlers/dtos/usr_feature.dto.go:65-80 | one DTO per feature, in order, and an array `[]` even when empty |
| Dtos.FeatureIds | handlers/dtos/usr_role.dto.go:36-48 | the ids of a feature list, position by position |
| Dtos.ToRoleDto | handlers/dtos/usr_role.dto.go:36-48 | the role DTO copies id, name and flag; its features are the feature ids in order, and `null` for none |
| Dtos.ToRoleModel | handlers/dtos/usr_role.dto.go:52-59 | the model copies id, name and flag, and drops the features |
| Dtos.InputToRoleModel | handlers/dtos/usr_role.dto.go:63-69 | a new role has id 0, the input's name and flag, and no features |
| Dtos.RoleDtoRoundTrip | handlers/dtos/usr_role.dto.go:36-59 | the detail conversions lose the feature list and nothing else, in both directions |
| Dtos.ToRoleMinimalDto | handlers/dtos/usr_role.dto.go:73-80 | the minimal DTO copies id, name and flag |
| Dtos.ToRoleMinimalModel | handlers/dtos/usr_role.dto.go:101-108 | the minimal model copies id, name and flag, with no features |
| Dtos.RoleMinimalRoundTrip | handlers/dtos/usr_role.dto.go:73-108 | the minimal role conversions keep id, name and flag in both directions |
| Dtos.ToRoleMinimalDtos | handlers/dtos/usr_role.dto.go:84-97 | one minimal DTO per role, in order, and `[]` (not `null`) for none |
| Dtos.ParseRoleId | handlers/dtos/usr_user.dto.go:119 | the role id is the decimal value when it fits in 32 bits, 4294967295 when an all-digit text overflows, and 0 otherwise |
| Dtos.InputCreateToUserModel | handlers/dtos/usr_user.dto.go:117-128 | a new user has id 0, the input's name, email and password, and the parsed role id |
| Dtos.InputUpdateToUserModel | handlers/dtos/usr_user.dto.go:132-142 | the same as the create conversion, but with no password |
| Dtos.InputConversionsAgree | handlers/dtos/usr_user.dto.go:117-142 | the create and update conversions agree on everything but the password |
| Dtos.ToUserMinimalDto | handlers/dtos/usr_user.dto.go:64-74 | the minimal DTO copies id, name, email and role id, and takes the role name from the preloaded role |
| Dtos.ToUserMinimalDtos | handlers/dtos/usr_user.dto.go:78-91 | one minimal DTO per user, in order, and `null` for none |
| Dtos.ToUserDto | handlers/dtos/usr_user.dto.go:93-102 | the user DTO copies id, name, email and role id, with the role's detail DTO |
| Dtos.ToUserMinimalModel | handlers/dtos/usr_user.dto.go:106-113 | the model copies id, name and role id; the email is not carried over |
| Dtos.UserMinimalRoundTrip | handlers/dtos/usr_user.dto.go:64-113 | DTO → model → DTO keeps id, name and role id, and loses the email and the role name |
| UserService.InputValidator | service/usr_user.service.go:40-67 | `email` is flagged iff another user has the email; `role_id` is flagged iff no role has that id; both can occur together; the error flag holds iff some field is flagged |
| UserService.GetUser | service/usr_user.service.go:121-155 | a non-numeric id gives 400; an unknown id gives 404 "Role not found"; otherwise 200 with the user, its role and the role's features |
| UserService.AddUser | service/usr_user.service.go:158-223 | each error path has its status and message, and none of them stores anything; on success it answers 201 and stores the hash, never the plaintext |
| UserService.UpdateUser | service/usr_user.service.go:226-309 | the id is checked, then existence (404, before validation), then the body: failed validation gives 400 "Error Invalid Data" with the field map, and a taken email or missing role gives the same with the validator's messages; on success only name, email and role id change |
| UserService.DeleteUser | service/usr_user.service.go:312-360 | a non-numeric id gives 400; an unknown id gives 404 "User not found"; otherwise the user is removed and 200 returned |
| UserService.DeletedUserNotFound | service/usr_user.service.go:312-360 | after a delete the user reads back as 404, a second delete gives 404 "User not found", and every other user is unchanged |
| UserService.MismatchErrors | service/usr_user.service.go:410-416 | differing passwords flag both `password` and `re_password` |
| UserService.ResetPass | service/usr_user.service.go:363-456 | a mismatch gives 400 "Invalid Data" with both fields flagged, and nothing is stored; success replaces only the password hash |
| UserService.StorePassword | service/usr_user.service.go:427-455 | a hashing failure gives 400 and stores nothing; otherwise only that user's password becomes the hash |
| UserService.ChangePassErrors | service/usr_user.service.go:505-526 | the mismatch pair and a wrong old password are reported together, and there are no errors iff neither occurs |
| UserService.ChangePass | service/usr_user.service.go:459-557 | only when the passwords match and the old password checks out is the hash, and nothing else, replaced |
| UserService.ChangePassRefinesResetPass | service/usr_user.service.go:363-557 | whenever a change succeeds, a reset with the same new password succeeds with the same outcome |
| UserService.CreatedUserReadsBack | service/usr_user.service.go:121-223 | a created user reads back with the submitted name and email, the parsed role id and the stored hash |
| UserService.UpdateKeepsPassword | service/usr_user.service.go:226-309 | an update leaves every other user and the updated user's password hash unchanged |
| RoleService.InputValidator | service/usr_role.service.go:37-56 | a conflict is reported iff another role has the name (any role on create, excluding the role's own id on update) |
| RoleService.GrantedIds | service/usr_role.service.go:181-191 | the grants stored are exactly the requested ids that name an existing feature; unknown ids are dropped |
| RoleService.GetRole | service/usr_role.service.go:108-142 | a non-numeric id gives 400; an unknown id gives 404; otherwise 200 with the role's DTO |
| RoleService.AddRole | service/usr_role.service.go:145-209 | a bind or validation failure or a name conflict gives 400 "Error Invalid Data" and creates nothing; success stores the role and its grants and answers 201 |
| RoleService.StoreNewRole | service/usr_role.service.go:181-209 | the new role row and its grants are inserted and echoed back |
| RoleService.LoadFeaturesOfGranted | service/usr_role.service.go:181-191 | loading the stored grants gives the features the request fetched |
| RoleService.UpdateRole | service/usr_role.service.go:212-316 | an unknown id gives 404; failed validation gives 400 "Error Invalid Data" with the field map, and a name used by another role gives the same with the "name" message; success overwrites name and flag and replaces the grant set |
| RoleService.ReplaceRole | service/usr_role.service.go:276-315 | the old grants are dropped, the fetched features become the grants, and the role is echoed with their ids |
| RoleService.DeleteRole | service/usr_role.service.go:319-367 | an unknown id gives 404; an existing role is deleted with no check for users that reference it |
| RoleService.CreatedRoleReadsBack | service/usr_role.service.go:108-209 | a created role reads back as the create response showed it, with exactly the requested features that exist |
| RoleService.FeatureIdsSorted | service/usr_role.service.go:108-142 | the features loaded for a grant set are its ids in ascending order |
| RoleService.UpdateReplacesGrants | service/usr_role.service.go:276-291 | after an update the features depend only on the request and on which features exist, never on the previous grants |
| RoleService.DeleteIgnoresAssignedUsers | service/usr_role.service.go:319-367 | deleting a role that users hold succeeds and leaves those users dangling |
| ModuleService.InputValidator | service/usr_module.service.go:37-75 | `name` is flagged iff another module has the name; `parent_id` is flagged iff a parent is named and missing |
| ModuleService.GetModule | service/usr_module.service.go:132-171 | a non-numeric id gives 400 "Invalid ID" with `strconv.Atoi`'s error text; an unknown id gives 404 with no error; otherwise the module with its direct children and its features |
| ModuleService.AddModule | service/usr_module.service.go:174-232 | a bind or validation failure gives 400 and creates nothing; an insert onto a taken id gives 500 "Error Creating Data" with the insert's error; otherwise 201 with id, name and parent, stored under the body id when it is non-zero |
| ModuleService.UpdateModule | service/usr_module.service.go:235-326 | a non-numeric id gives 400 "Invalid ID" with `strconv.Atoi`'s error text; an unknown id gives 404 before validation; failed validation, a taken name or a missing parent gives 400 "Error Invalid Data" with the field map; success changes only name and parent |
| ModuleService.DeleteModule | service/usr_module.service.go:329-384 | a non-numeric id gives 400 "Invalid ID" with `strconv.Atoi`'s error text; an unknown id gives 404 "Module not found"; otherwise the module is removed and its children and features stay |
| ModuleService.DeletedModuleNotFound | service/usr_module.service.go:329-384 | after a delete the module reads back as 404 and a second delete gives 404, while its features and its other children stay, still naming it as parent |
| ModuleService.SelfParentAccepted | service/usr_module.service.go:59-306 | there is no cycle check: a module can be made its own parent |
| ModuleService.CreatedModuleReadsBack | service/usr_module.service.go:132-232 | a created module reads back with its name and parent |
| ModuleService.NonNumericIdReported | service/usr_module.service.go:136-144 | GET /modules/abc answers 400 "Invalid ID" with the error `strconv.Atoi: parsing "abc": invalid syntax` |
| ModuleService.InvalidIdDetailNamesPath | service/usr_module.service.go:136-144 | two rejected path ids that get the same answer are the same text, so the error detail identifies the request |
| FeatureService.InputValidator | service/usr_feature.service.go:37-74 | `name` is flagged iff another feature has the name, with the module wording; `feature_id` is flagged iff a non-zero module id is missing |
| FeatureService.ListedIds | service/usr_feature.service.go:77-121 | the listing's ids are ascending and are all features, or those of the given module |
| FeatureService.ListFeatures | service/usr_feature.service.go:77-121 | one feature with its module preloaded per listed id |
| FeatureService.GetAllFeatures | service/usr_feature.service.go:77-121 | a non-numeric `module_id` gives 400 "Invalid module_id" with `strconv.ParseUint`'s error text; otherwise the listing is filtered by it when it is given |
| FeatureService.GetFeature | service/usr_feature.service.go:124-171 | a non-numeric id gives 400 with no error; an unknown id gives 404 "Feature Not Found" with gorm's "record not found"; otherwise the feature with its module |
| FeatureService.AddFeature | service/usr_feature.service.go:174-232 | a bind or validation failure gives 400 and creates nothing; an insert onto a taken id gives 500 "Error Creating Data" with the insert's error; otherwise 201 "Module Created Successfully" |
| FeatureService.UpdateFeature | service/usr_feature.service.go:235-326 | an unknown id gives 404; failed validation, a taken name or a missing module gives 400 "Error Invalid Data" with the field map; success changes only name and module id and returns no data |
| FeatureService.DeleteFeature | service/usr_feature.service.go:329-384 | an unknown id gives 404; otherwise the feature is removed and the grants naming it stay |
| FeatureService.CreatedFeatureReadsBack | service/usr_feature.service.go:124-232 | a created feature reads back with its name and its module preloaded |
| FeatureService.UpdatedFeatureReadsBack | service/usr_feature.service.go:124-326 | an update whose id exists, whose body validates, whose name is free and whose module exists succeeds; the feature then reads back with the new name and module, and modules, roles, users and the other features are unchanged |
| FeatureService.ListingFilterExact | service/usr_feature.service.go:80-97 | a feature is listed under `module_id=n` iff it belongs to module n, and an unfiltered listing has every feature |
| FeatureService.DeletedFeatureNotGranted | service/usr_feature.service.go:329-384 | a deleted feature disappears from every role that granted it, and the role rows stay |
| Jwt.FeatureNames | helpers/jwt.helper.go:15-19 | the claims' feature list has the role's length, and entry i is the name of feature i |
| Jwt.LifetimeHours | helpers/jwt.helper.go:23-28 | the lifetime is `JWT_TIME` when it is an int64, zero and negative included; it is 24 when that is unset, empty or not a number |
| Jwt.BuildClaims | helpers/jwt.helper.go:31-46 | the claims copy the user's id and name and the preloaded role's id, name and flag; issued-at and not-before are now; the expiry is now plus the lifetime |
| Jwt.GenerateJwt | helpers/jwt.helper.go:13-56 | a signing failure gives ("", error); success gives (token, nil) signed with `JWT_SECRET` |
| Jwt.LegacyClaims | handlers/auth.handler.go:22-34 | the legacy claims carry only the user id and the role name, and expire 24 hours after now |
| Jwt.LifetimeReadsBack | helpers/jwt.helper.go:23-28 | any int64 written into `JWT_TIME` becomes the lifetime |
| Jwt.ExpiryExact | helpers/jwt.helper.go:31-42 | while the nanosecond count fits in 64 bits, the token expires exactly hours·3600 seconds after now |
| Jwt.ExpiryWrapsForHugeLifetimes | helpers/jwt.helper.go:31-42 | a lifetime of 2562048 hours wraps the duration, giving a token that has already expired |
| Payload.GetUserPayload | helpers/payload.helper.go:9-21 | the target is unchanged when "user" is absent or not a user, and otherwise becomes the stored user |
| Payload.GetRolePayload | helpers/payload.helper.go:23-35 | the same three rules apply to "role" |
| Payload.PayloadIdempotent | helpers/payload.helper.go:9-35 | reading a payload twice is the same as reading it once |
| Payload.AuthenticatedPayload | helpers/payload.helper.go:9-35 | after the authentication gate, the helpers read back the user and role built from the token's claims |
| AuthMiddleware.RejectionMessage | middlewares/auth.middleware.go:30-53 | "Token has expired" iff the only error is expiry; "Token is not valid yet" iff the only error is not-before; otherwise "Invalid token" |
| AuthMiddleware.ClaimedUser | middlewares/auth.middleware.go:56 | the stored user has only the id, name and role id taken from the claims |
| AuthMiddleware.ClaimedRole | middlewares/auth.middleware.go:57 | the stored role has the claims' role id, name and flag, and no features |
| AuthMiddleware.Authenticate | middlewares/auth.middleware.go:16-62 | a missing header or one not starting with `Bearer ` gives 401 "Authorization token not provided"; a failed verification gives 401 with its message; otherwise the context gets user, role and features and the request continues |
| AuthMiddleware.Authorize | middlewares/auth.middleware.go:66-100 | a request continues iff "features" is a string list and some held feature equals some allowed one; otherwise 403 "Unauthorized to access this resource" |
| AuthMiddleware.GrantsBySets | middlewares/auth.middleware.go:84-95 | access is granted iff the held and allowed name sets intersect |
| AuthMiddleware.GrantsIgnoresOrder | middlewares/auth.middleware.go:84-95 | order and duplicates in either list do not change the decision |
| AuthMiddleware.EmptyListsDeny | middlewares/auth.middleware.go:84-98 | an empty allowed list or an empty held list denies |
| AuthMiddleware.AnyOneSuffices | middlewares/auth.middleware.go:90-94 | one matching feature grants access, whatever else is held |
| AuthMiddleware.OnePrefixStripped | middlewares/auth.middleware.go:25 | exactly one `Bearer ` is stripped, so a doubled prefix reaches the verifier |
| AuthMiddleware.SchemeCaseSensitive | middlewares/auth.middleware.go:19 | `bearer ` in lower case, or a bare `Bearer`, is treated as a missing token |
| AuthMiddleware.AuthenticatedDecision | middlewares/auth.middleware.go:56-100 | after authentication, the second gate decides by the token's feature list alone |
| Routes.RouteOf | routers/api/v1/accesses/usr_user.router.go:15-88 | the two password routes exist only under `/users`; every resource has list, detail, create, update and delete routes |
| Routes.Allowed | routers/api/v1/accesses/usr_user.router.go:74-86 | a route has a feature list exactly when its group registers it: the two password routes exist only under `/users` |
| Routes.UserRoutes | routers/api/v1/accesses/usr_user.router.go:22-86 | every `/users` route's list is the one the naming rule gives, with "Reset User Password" added on the list and password routes |
| Routes.RoleRoutes | routers/api/v1/accesses/usr_role.router.go:22-79 | `/roles` registers the five CRUD routes; all follow the naming rule except DELETE, which asks for "Create Role" |
| Routes.ModuleRoutes | routers/api/v1/accesses/usr_module.router.go:22-80 | `/modules` registers the five CRUD routes, each following the naming rule |
| Routes.FeatureRoutes | routers/api/v1/accesses/usr_feature.router.go:22-79 | `/features` registers the five CRUD routes, each following the naming rule |
| Routes.AllowedFixed | routers/api/v1/accesses/usr_role.router.go:73-79 | corrected: the same routes, with role DELETE asking for "Delete Role" and every other list unchanged |
| Routes.NounedFeatures | routers/api/v1/accesses/usr_role.router.go:23-79 | the feature names of each resource are "View/Create/Update/Delete" followed by its noun |
| Routes.TableFollowsRuleExceptRoleDelete | routers/api/v1/accesses/usr_role.router.go:73-79 | the table as written follows the rule on every route except role DELETE |
| Routes.FixedTableFollowsRule | routers/api/v1/accesses/usr_role.router.go:73-79 | the corrected table follows the rule on every route |
| Routes.FixedTableSameRoutes | routers/api/v1/accesses/usr_user.router.go:15-88 | both tables register the same routes |
| Routes.Guard | routers/api/v1/accesses/usr_user.router.go:18-36 | a route lets a request through iff it authenticates and is then authorized; the first gate fails with 401, the second with 403 |
| Routes.DeleteRoleAloneCannotDelete | routers/api/v1/accesses/usr_role.router.go:73-79 | a token holding only "Delete Role" is refused the role DELETE route, while one holding only "Create Role" passes |
| Routes.FixedDeleteRoleNeedsDeleteRole | routers/api/v1/accesses/usr_role.router.go:73-79 | with the corrected table, deleting a role needs exactly "Delete Role" |
| Routes.WritesNeedOwnFeature | routers/api/v1/accesses/usr_module.router.go:53-80 | every create, update and delete route except role DELETE admits a caller iff it holds that write's own feature |
| Routes.ResetPasswordAlone | routers/api/v1/accesses/usr_user.router.go:23-86 | "Reset User Password" alone lists users and resets or changes passwords, but cannot view a user's detail |
| Routes.NoFeaturesNoAccess | routers/api/v1/accesses/usr_feature.router.go:18-79 | a token without features is refused every route with 403 |
| AuthService.MatchingUser | service/auth.service.go:39 | the lookup finds the first user whose email or username equals the identifier, or none iff no user has it |
| AuthService.CheckCredentials | service/auth.service.go:33-49 | an unknown identifier or a wrong password is an error; otherwise the matched user is returned with its role preloaded |
| AuthService.LoginUsing | service/auth.service.go:52-109 | a bind failure gives 400 "Invalid Input"; validation gives 400 "Error Invalid Data" before any lookup; bad credentials or a signing failure give 400; success gives 200 with "Bearer " + token, the user's name and the role's name |
| AuthService.Login | service/auth.service.go:39 | as written, the role is preloaded without its features, so a successful login signs an empty feature list |
| AuthService.LoginFixed | service/auth.service.go:39 | corrected: the login preloads the role's features |
| AuthService.LoginTokenHasNoFeatures | service/auth.service.go:39 | as written, whatever the role grants, the signed claims list no features |
| AuthService.FixedLoginTokenListsRoleFeatures | service/auth.service.go:39 | with features preloaded, the signed claims list the names of the role's active features |
| AuthService.NoUserEnumeration | service/auth.service.go:39-84 | an unknown identifier and a wrong password get the identical 400 "Invalid email or password" |
| AuthHandler.UserByEmail | handlers/auth.handler.go:47 | the first user with the email, or none iff no user has it |
| AuthHandler.LegacyAuthenticate | handlers/auth.handler.go:36-64 | a malformed body gives 400 "Invalid input"; an unknown email or wrong password gives 401; a signing failure gives 500; success gives 200 with the bare token |
| AuthHandler.LegacyNoUserEnumeration | handlers/auth.handler.go:47-55 | an unknown email and a wrong password get the same 401 |
| AuthHandler.LegacyTokenUnprefixed | handlers/auth.handler.go:22-63 | a successful login returns the signer's token without `Bearer `, over claims holding only the id, the role name and a 24-hour expiry |
| LogHandler.RedactForm | handlers/log.handler.go:76-115 | password, re_password and old_password become "[REDACTED]"; other single-valued fields are logged as a scalar and multi-valued ones as a list |
| LogHandler.RedactionHidesPasswords | handlers/log.handler.go:82-113 | no submitted value of a sensitive field reaches the log |
| LogHandler.LogRequestBody | handlers/log.handler.go:76-121 | multipart and url-encoded bodies are redacted; any other body is logged as its decoded JSON, or as text when it does not parse |
| LogHandler.JsonBodiesNotRedacted | handlers/log.handler.go:116-121 | a JSON body is logged verbatim, passwords included |
| LogHandler.RedactHeaders | handlers/log.handler.go:132-135 | the logged clone has the same keys, with Authorization replaced only when present |
| LogHandler.LogResponseBody | handlers/log.handler.go:148-154 | a body that does not decode is logged as {"raw": body} |
| LogHandler.LogMessage | handlers/log.handler.go:156-162 | the message is "API Log \| " + message when the body has one, "API LOG \| No message in response" when it has none, and a non-string message panics |
| LogHandler.EnvelopeMessageLogged | handlers/log.handler.go:156-162 | every envelope's message reaches the API log |
| LogHandler.NonJsonResponseHasNoMessage | handlers/log.handler.go:148-162 | a non-JSON response is always logged with the no-message text |
| LogHandler.LevelOf | handlers/log.handler.go:170-178 | exactly 500 is fatal; 400–499 is error; every other status is info |
| LogHandler.Category | handlers/log.handler.go:230-237 | the category is FATAL, ERROR or INFO, matching the level |
| LogHandler.OtherServerErrorsAreInfo | handlers/log.handler.go:170-237 | statuses 501–599 are logged as info |
| LogHandler.UserInfoLogged | handlers/log.handler.go:239-241 | user_info is `{}` only when both id and username are empty |
| LogHandler.LogSystem | handlers/log.handler.go:222-256 | the entry's category follows the status, user_info follows the rule above, and the other fields are passed through |
| LegacyStore.SetAvailability | controllers/loan.controller.go:48-59 | only the named vehicle's availability changes, and every other table and vehicle is untouched |
| LegacyStore.SaveTarget | controllers/role.controller.go:96 | gorm's `Save` writes a non-zero bound key in place, and a zero key inserts under a new, non-zero id |
| LoanController.CreateLoan | controllers/loan.controller.go:18-60 | a missing or unavailable vehicle gives 404 "Vehicle Not Available" and no change; success marks the vehicle unavailable, stores the loan and answers 201 |
| LoanController.UpdateLoanWith | controllers/loan.controller.go:85-171 | an unknown loan gives 404; with the same vehicle availability is untouched; a new vehicle that is not available, or an old vehicle that is gone, gives 404 "Vehicle Not Available" and no change; otherwise the old vehicle is released and the new one taken |
| LoanController.DeleteLoanWith | controllers/loan.controller.go:173-200 | the loan is removed and, as written, its vehicle is marked available |
| LoanController.ReturnLoanWith | controllers/loan.controller.go:202-231 | an unknown loan gives 404 "Loan not found"; otherwise the return time is set, the loan kept and the answer is 200 "Loan returned successfully" with, as written, the vehicle released without an already-returned check; a vehicle that is gone gives 404 "Vehicle Not Available" and vehicles unchanged; users, roles and types never change |
| LoanController.UpdateLoan | controllers/loan.controller.go:85-171 | as written: on success the loan names the body's vehicle, and moving any loan to another vehicle frees the old one and takes the new one |
| LoanController.DeleteLoan | controllers/loan.controller.go:173-200 | as written: on success the loan is gone and its vehicle, if it exists, is available |
| LoanController.ReturnLoan | controllers/loan.controller.go:202-231 | as written: on success the loan carries the return time and its vehicle is available |
| LoanController.UpdateLoanFixed | controllers/loan.controller.go:126-156 | corrected: moving an already-returned loan leaves every vehicle as it was; moving an active one swaps availability |
| LoanController.DeleteLoanFixed | controllers/loan.controller.go:182-199 | corrected: deleting an already-returned loan leaves every vehicle as it was; deleting an active one frees its vehicle |
| LoanController.ReturnLoanFixed | controllers/loan.controller.go:211-230 | corrected: returning an already-returned loan changes nothing; returning an active one stamps it and frees its vehicle |
| LoanController.CreateKeepsConsistent | controllers/loan.controller.go:18-60 | lending keeps the invariant that a vehicle out on an active loan is unavailable |
| LoanController.UpdateFixedKeepsConsistent | controllers/loan.controller.go:126-156 | with releases limited to active loans, updating keeps the invariant |
| LoanController.DeleteFixedKeepsConsistent | controllers/loan.controller.go:182-199 | with releases limited to active loans, deleting keeps the invariant |
| LoanController.ReturnFixedKeepsConsistent | controllers/loan.controller.go:211-230 | with releases limited to active loans, returning keeps the invariant |
| LoanController.ReturnTwiceSameAvailability | controllers/loan.controller.go:211-230 | returning a loan twice leaves availability as the first return did |
| LoanController.ReusedVanState | controllers/loan.controller.go:18-60 | a consistent state in which a returned loan's van is out again on a second loan |
| LoanController.ReleaseOfReturnedLoanBreaksInvariant | controllers/loan.controller.go:182-230 | as written, deleting or returning the already-returned loan marks the van available while it is out on the other loan |
| RoleController.CreateRole | controllers/role.controller.go:18-42 | an existing name gives 409 and nothing is created; a non-zero body `id` that is taken gives 500 "Internal Server Error" and nothing is created; success gives 201 and stores the role under the body `id`, or under a new id when there is none |
| RoleController.BodyIdChoosesKey | controllers/role.controller.go:18-42 | a free body `id` becomes the new role's key, and a second create naming that key under another name gives 500 |
| RoleController.UpdateRole | controllers/role.controller.go:71-102 | an unknown id gives 404; a name used by a row other than the bound id gives 409; success saves the merged body to the bound id, or inserts it under a new id when the body says `"id": 0` |
| RoleController.DeleteRole | controllers/role.controller.go:104-130 | deleting a role users still hold gives 403 and the role stays; an unreferenced role is deleted with 200 |
| RoleController.DeleteKeepsRolesResolved | controllers/role.controller.go:113-122 | the guard keeps every user's role resolvable |
| RoleController.CreateKeepsNamesUnique | controllers/role.controller.go:30-41 | role names stay unique across a create |
| RoleController.UpdateKeepsNamesUnique | controllers/role.controller.go:75-101 | role names stay unique across an update without a body id |
| RoleController.ZeroBodyIdInserts | controllers/role.controller.go:71-102 | a body `"id": 0` stores the name as a new role and leaves the addressed one as it was; the same request sent again gives 409 |
| UserController.CreateUser | controllers/user.controller.go:19-63 | an existing email gives 409, a missing role gives 400 "Invalid role ID", and a failed hash or a taken non-zero body `id` gives 500 with nothing stored; success stores the hash under the body `id`, or a new id when there is none, and answers 200, not 201 |
| UserController.UpdateUser | controllers/user.controller.go:92-154 | an unknown id gives 404; the email check, which excludes the user's own row, runs before validation; name, email and role are overwritten; the hash changes only when a password is supplied |
| UserController.DeleteUser | controllers/user.controller.go:156-177 | an unknown id gives 404; otherwise the user is removed and 200 returned |
| UserController.DeleteKeepsUsersConsistent | controllers/user.controller.go:156-177 | a delete keeps emails unique and roles resolvable, frees the deleted email for a new account, and a repeat gives 404 |
| UserController.UpdateKeepsUsersConsistent | controllers/user.controller.go:97-140 | an update keeps emails unique and roles resolvable, and keeping one's own email is never a conflict |
| UserController.CreateKeepsUsersConsistent | controllers/user.controller.go:31-62 | a create keeps emails unique and roles resolvable |
| UserController.PasswordReplacedOnlyWhenSupplied | controllers/user.controller.go:128-140 | an empty password keeps the stored hash; a non-empty one stores its new hash |
| VehicleController.CreateVehicle | controllers/vehicle.controller.go:19-49 | a duplicate police number gives 409, a missing type gives 400 "Invalid type ID", and a taken non-zero body `id` gives 500, each storing nothing; success stores the vehicle under the body `id`, or a new id when there is none, and answers 201 |
| VehicleController.SelectedIds | controllers/vehicle.controller.go:56-76 | a vehicle is listed iff it passes both given filters, in ascending id order |
| VehicleController.ListVehicles | controllers/vehicle.controller.go:76-84 | one listed entry per selected id, carrying that row |
| VehicleController.GetAllVehicles | controllers/vehicle.controller.go:51-87 | a non-integer type_id gives 400 "Invalid type_id" (checked first); a non-boolean is_available gives 400 "Invalid is_available"; otherwise 200 with the filtered list, `null` when empty |
| VehicleController.UpdateVehicle | controllers/vehicle.controller.go:101-145 | an unknown id gives 404; a police number used by another row gives 409; success changes only name, police number and type, and preserves availability |
| VehicleController.DeleteVehicle | controllers/vehicle.controller.go:147-162 | an unknown id gives 404; otherwise the vehicle is removed and 200 returned |
| VehicleController.DeleteKeepsVehiclesConsistent | controllers/vehicle.controller.go:147-162 | a delete keeps police numbers unique and types resolvable, frees the police number, and a repeat gives 404 |
| VehicleController.CreateKeepsVehiclesConsistent | controllers/vehicle.controller.go:31-48 | a create keeps police numbers unique and every vehicle's type resolvable |
| VehicleController.UpdateKeepsVehiclesConsistent | controllers/vehicle.controller.go:105-137 | an update keeps police numbers unique and every vehicle's type resolvable |
| VehicleController.FiltersCombineByAnd | controllers/vehicle.controller.go:56-75 | listing with both filters selects exactly the vehicles of the type with the given availability |
| VehicleTypeController.CreateVehicleType | controllers/vehicleType.controller.go:18-42 | an existing name gives 409 and a taken non-zero body `id` gives 500, each storing nothing; success gives 201 and stores the type under the body `id`, or a new id when there is none |
| VehicleTypeController.BodyIdChoosesKey | controllers/vehicleType.controller.go:18-42 | a free body `id` becomes the new type's key, and a second create naming that key under another name gives 500 |
| VehicleTypeController.UpdateVehicleType | controllers/vehicleType.controller.go:71-102 | an unknown id gives 404; a name used by a row other than the bound id gives 409; success saves the merged body to the bound id, or inserts it under a new id when the body says `"id": 0` |
| VehicleTypeController.DeleteVehicleTypeGuarded | controllers/vehicleType.controller.go:104-130 | an unknown id gives 404; a blocked delete gives 403 and no change; otherwise the type is removed with 200 |
| VehicleTypeController.DeleteVehicleType | controllers/vehicleType.controller.go:113-122 | as written, the delete is refused iff some user's role_id equals the type's id; vehicles are not counted |
| VehicleTypeController.DeleteVehicleTypeFixed | controllers/vehicleType.controller.go:113-122 | corrected: the delete is refused iff some vehicle has the type |
| VehicleTypeController.FixedDeleteKeepsTypesResolved | controllers/vehicleType.controller.go:104-130 | the corrected delete keeps every vehicle's type resolvable |
| VehicleTypeController.DeleteGuardChecksUsers | controllers/vehicleType.controller.go:113-122 | as written, a type still used by a vehicle is deleted when no user matches, and an unused type is refused when a user's role_id matches |
| VehicleTypeController.CreateKeepsTypeNamesUnique | controllers/vehicleType.controller.go:30-41 | type names stay unique across a create |
| VehicleTypeController.UpdateKeepsTypeNamesUnique | controllers/vehicleType.controller.go:75-101 | type names stay unique across an update without a body id, and no row is added or removed |
| VehicleTypeController.ZeroBodyIdInserts | controllers/vehicleType.controller.go:71-102 | a body `"id": 0` stores the name as a new type and leaves the addressed one as it was; the same request sent again gives 409 |

## Left out

- The list endpoints of the user, role and module services (`GetAll`) are left out. They compose SQL paging, ordering and search. Their pieces (`Paginate`, `Order`, `GeneratePaginatedQuery`) are modelled separately.
- The read-only `GetAll`/`Get` endpoints of the older role, vehicle type, user and loan controllers, and the older vehicle controller's `GetVehicle`, are left out. They only read rows. The vehicle listing `GetAllVehicles` is modelled for its two filters.
- Database failures are not modelled, with one exception: an insert under an id that an active row already holds gives the handler's 500. Every other "Internal Server Error" or 500 that a failing query, insert or save would produce is left out; the store never fails otherwise.
- The check-then-insert race between the uniqueness probe and the insert is left out, as it is a concurrency matter.
- gorm details are abstracted to maps of active rows: query building, transactions, soft-delete, and id collisions with soft-deleted rows.
- Ids are abstracted as follows:
  - A new row receives the `newId` parameter unless the request body carries a non-zero `id`. gorm's `Create` keeps such an id (`Store.CreatedId`). This applies to the module and feature services and to the older role, user, vehicle type and vehicle creates. An insert onto an existing row fails.
  - The older role and vehicle type updates save to the id bound from the body. Only a bound id of zero makes gorm's `Save` insert under `newId` (`LegacyStore.SaveTarget`).
  - A path id of an older controller is already a number. gorm's raw-string conditions are not modelled.
- Nested association objects in request bodies are not modelled.
- bcrypt, HMAC signing and JWT parsing are parameters, and so is the clock.
- The older login handler's key is read once at start-up, and is a parameter.
- The second, boolean argument the routers pass to `Authorization` is ignored: the function shown takes one parameter.
- Floating point: `math.Ceil(float64/float64)` is replaced by exact integer ceiling division.
- Logging I/O and wiring are left out: zap, the log and CORS middlewares, panic recovery, `main`, database configuration, migrations, seeding and the index routers.
- The older duplicate services and DTOs, and the DTOs that only copy fields, are not modelled (`service/feature.service.go`, `service/module.service.go`, `handlers/dtos/module.dto.go`, `handlers/dtos/feature.dto.go`, `user.dto.go`, `loan.dto.go`, `vehicle.dto.go`, `vehicletype.dto.go`, `role.dto.go`).
- The vehicle list carries the vehicle rows rather than their DTOs.
- The older controllers' `ctrl.DB` and the global `models.DB` are the same store here.
- Pagination.Paginate: a wrapped offset is stated only to be an int64, not its exact value, because the exact value depends on Go's two's-complement product.
- AuthService.MatchingUser: assumes that `usr_users` has a `username` column. The `USR_User` struct declares no such field and never reads or writes it, so users created through the API hold "" there. If the column did not exist, the login query would fail and every login would be refused; the model does not show that.
- Numbers.EscapeChar: a character beyond ASCII is copied unchanged, while `strconv.Quote` escapes the unprintable ones as `\u` or `\U`, because deciding printability needs Unicode's tables. Input that is not valid UTF-8 is not modelled either, since a Dafny string holds Unicode scalar values.
- The route tables are modelled as the four access routers define them. In this snapshot the API router mounts only the older module routes: `InitAccessRoutes` is never called, and `InitUserRoutes` is called from nowhere. That wiring is not part of this model.
- Store.FindOther, RoleController.RoleNameTaken, UserController.EmailTaken, VehicleController.PoliceNumberTaken, VehicleTypeController.TypeNameTaken, AuthService.MatchingUser, AuthHandler.UserByEmail and the `InputValidator`s of the user, role, module and feature services: every `WHERE column = ?` probe is modelled as exact string equality, as under a binary collation. The database is MySQL opened with `charset=utf8mb4` and no collation (config/database.go:36-39). MySQL's default utf8mb4 collations compare case-insensitively, ignore trailing spaces (general_ci, unicode_ci) or accents (0900_ai_ci). Under those collations, a role "Admin" posted while "admin" exists gets 409 from the server, and a login as "ANA@EXAMPLE.COM" finds "ana@example.com". The model answers 201 and "Invalid email or password" (or 401) instead. Which collation a deployment uses is database configuration, outside the program's text.
- UserController.UpdateUser: the empty-password branch is kept although struct validation requires a password, so it is unreachable when validation passes.

## Findings

| source | as written | input that shows it | evidently intended | confidence | as-written member | corrected member |
|---|---|---|---|---|---|---|
| helpers/pagination.helper.go:86-91 | a page after the first claims rows page·limit+1 to (page+1)·limit | page 2 of 25 rows, limit 10: the summary says rows 21–30, the scope returns rows 11–20 | (page−1)·limit+1 to min(page·limit, total) | high, not executed | Pagination.RowRangeShiftedOnePage | Pagination.FixedRowRangeMatchesWindow |
| helpers/pagination.helper.go:74-76 | the next link is shown while page < totalRows | page 2 of 15 rows, limit 10: a link to page 3, which is empty | page < totalPages | high, not executed | Pagination.NextPageBeyondLast | Pagination.FixedNextPageMatchesWindow |
| controllers/loan.controller.go:182-230 | delete and return mark the loan's vehicle available even when the loan was already returned | loan 1 returned, its van out again on loan 2; deleting or returning loan 1 marks the van available | release only a loan that is still out | high, not executed | LoanController.ReleaseOfReturnedLoanBreaksInvariant | LoanController.DeleteFixedKeepsConsistent |
| controllers/vehicleType.controller.go:113-122 | the delete guard counts users whose role_id equals the type's id | type 1 with vehicle 3 of that type and no users: deleted with 200, leaving vehicle 3 without a type | refuse while a vehicle has the type | high, not executed | VehicleTypeController.DeleteGuardChecksUsers | VehicleTypeController.FixedDeleteKeepsTypesResolved |
| routers/api/v1/accesses/usr_role.router.go:73-79 | role DELETE requires "Create Role" | a token holding only "Delete Role" gets 403 on DELETE /roles/:id | "Delete Role" | high, not executed | Routes.DeleteRoleAloneCannotDelete | Routes.FixedDeleteRoleNeedsDeleteRole |
| service/auth.service.go:39 | login preloads only `Role`, so the token's feature list is always empty | any user whose role grants features: the token lists none, and every route then answers 403 | preload `Role.Features` | high, not executed | AuthService.LoginTokenHasNoFeatures | AuthService.FixedLoginTokenListsRoleFeatures |
