# Lost & Found: a Dafny model of the report lifecycle and its clients

A campus Lost & Found application lets students report things they lost or
found, mark a found item as returned to its owner ("claimed"), and lets
administrators unmark and delete reports and manage accounts. This project
models its core in Dafny, as pure functions over immutable data:

- **Server.** The five report routes (list, create, mark-claimed,
  unmark-claimed, delete) act on a collection `map<Id, Item>`. The account
  routes (create-admin, register, login with the built-in admin bypass,
  `me`, user list, user deletion) act on a users collection `seq<User>`.
  The `auth` middleware and the `isAdmin`/`isStudent` role gates are
  modelled, and so are the request-body validators with their
  `handleValidationErrors` gate and the sanitizers that rewrite the body.
- **Browser.** The `lostFound` and `auth` Redux slices are modelled as
  reducers, and their async thunks as functions from the server's
  response to the dispatched action. Also modelled: the `useLostFound`
  hook's list actions, the `ProtectedRoute` guard, the admin credential
  helpers, and the page's decisions (tab filtering, tab counts, and which
  card offers the "Mark as Claimed" button).
- **Across both.** Module `Sync` relates the two sides. The slice's list
  *mirrors* the server's collection when it holds every stored report
  exactly once and nothing else. The list route's answer, fed through
  `fetchItems` and the reducer, makes the slice's list a mirror. A
  successful create, mark, unmark or delete answer, fed through its thunk
  and the reducer, keeps a mirror a mirror. The page's
  button, the client's admin check and the route guard are compared with
  the server's decisions.

Some things are parameters, because their definitions lie outside the
model:

- the clock and fresh document ids;
- token decoding (`decode`) and the password comparison
  (`passwordMatches`);
- the validator library's `isEmail`, `normalizeEmail`, `isISO8601` and
  `isURL` (`Validators.Library`);
- `JSON.parse` of the stored user (`parse`).

Quirks of the code are stated as lemmas rather than hidden:

- mark-claimed trusts the `userId` the body names;
- the button rule is narrower than the server rule;
- the admin bypass answers with role `admin` whatever the stored role, and
  its tokens never expire;
- the item thunks read `message` while `auth` and the validators answer
  with `error`;
- the two route-guard sources can vouch for each other.

The server routes answer either `{ message }` or `{ error }`. The model's
`Reply` keeps the status and the text. The client side keeps both fields
(`Responses.ErrorBody`), because the thunks read only one of them.

Where the code departs from the documented design, the model follows the
code:

- mark-claimed compares the reporter with the body's `userId` (falling
  back to the caller), not with the caller;
- the create route neither checks that the reporter exists nor stores a
  reporter-name snapshot;
- the list route returns the stored documents without filtering or
  populating the reporter;
- admin-bypass tokens carry no expiry;
- errors carry a status and a text, not a machine-readable kind.

The item schema is the one declared in `server/routes/lostFound.js`, which
is the schema the routes use. `server/models/LostFound.js` differs in
two ways: it types `reportedBy` as an ObjectId and it adds
`reporterName`. No route loads that model, so the modelled report has no
`reporterName` field.

## Model

| member | source | states |
|---|---|---|
| Common.OrElse | server/routes/lostFound.js:75 | a non-empty body value wins, an absent or empty one falls back to the caller's id |
| Responses.TextOr | client/src/store/slices/lostFoundSlice.js:25 | the field's text when it is a non-empty string, the fallback otherwise; a non-empty fallback always gives a non-empty text |
| Strings.Trim | server/middleware/validators.js:18 | the result is the infix left after removing JavaScript white space at both ends; it starts and ends with non-space and is empty exactly when the input is all white space |
| Strings.TrimIdempotent | server/middleware/validators.js:18 | trimming a trimmed value changes nothing |
| Strings.ToLower | server/routes/auth.js:87 | same length; each ASCII capital becomes its lower-case letter, every other character is kept |
| Strings.IndexOfFrom | server/middleware/auth.js:13 | the first position at or after the start where the pattern occurs; none exactly when it occurs nowhere there |
| Strings.ReplaceFirst | server/middleware/auth.js:13 | a string without an occurrence of the pattern comes back unchanged |
| Strings.ReplaceLeadingPrefix | server/middleware/auth.js:13 | replacing a leading `"Bearer "` by nothing removes exactly that prefix |
| Sorting.SortDesc | server/routes/lostFound.js:30 | the result is a permutation of the input ordered by non-increasing key |
| ItemModel.ParseType | server/routes/lostFound.js:11 | only the exact strings `lost` and `found` are members of the enumeration, and each reads back to its own name |
| ItemModel.ParseName | server/routes/lostFound.js:11 | every enumeration member is read back from its name |
| ItemModel.NewDocument | server/routes/lostFound.js:8-21 | given fields are stored as given; an omitted image URL becomes `''`, an omitted `claimed` false; `claimedAt` starts null and `createdAt` is the save time |
| UserModel.IndexOfEmail | server/routes/auth.js:37 | the first account holding exactly that email; none exactly when no account holds it |
| UserModel.IndexOfId | server/middleware/auth.js:23 | the first account with that id; none exactly when no account has it |
| Tokens.Sign | server/routes/auth.js:53-57 | the claims bind the user id and the issue second; an expiry is present exactly when a lifetime is given, and is then the issue second plus the lifetime |
| Tokens.NoExpiryNeverExpires | server/routes/auth.js:105 | a token signed without `expiresIn` is never rejected as expired |
| Tokens.OneDayWindow | server/routes/auth.js:130-134 | a 24-hour token is expired exactly when 86400 whole seconds have passed since it was issued |
| AuthMiddleware.BearerToken | server/middleware/auth.js:13 | the token is the header with its 7-character `"Bearer "` prefix removed |
| AuthMiddleware.Authenticate | server/middleware/auth.js:4-42 | a missing or non-Bearer header is refused as "no token", a bare prefix as "invalid format"; the request proceeds exactly when the token is genuine, unexpired and names a stored account, and then carries that stored account; once a token is present, a malformed token is refused as "invalid token", an expired one as "token expired", one naming no account as "user not found" and any other failure with the generic text; every refusal carries one of the six 401 messages |
| AuthMiddleware.RoleChangeTakesEffect | server/middleware/auth.js:23-31 | the caller is re-read from the store, so a token issued before a role change authenticates with the new role |
| AuthMiddleware.RequireAdmin | server/middleware/auth.js:45-61 | 401 without a caller, 403 for a non-admin, and the request proceeds exactly for an admin |
| AuthMiddleware.RequireStudent | server/middleware/auth.js:63-78 | 401 without a caller, 403 for a non-student, and the request proceeds exactly for a student |
| AuthMiddleware.GuardsPartitionCallers | server/middleware/auth.js:45-78 | every caller passes exactly one of the two role gates |
| Validators.TrimmedLengthRule | server/middleware/validators.js:17-20 | no error exactly when the trimmed value's length lies within the bounds; at most two errors |
| Validators.HandleValidationErrors | server/middleware/validators.js:4-13 | the handler runs exactly when no error was recorded, and then with the sanitized body; a refusal carries every recorded error |
| Validators.NameErrors | server/middleware/validators.js:17-20 | no error exactly when the trimmed name has 2 to 50 characters |
| Validators.EmailErrors | server/middleware/validators.js:21-25 | no error exactly when the trimmed email is non-empty and passes `isEmail` |
| Validators.FirstLine | server/middleware/validators.js:29 | the longest prefix without a line terminator: what a `.*` from the start can reach |
| Validators.PasswordErrors | server/middleware/validators.js:26-29 | no error exactly when the untrimmed password has at least 6 characters and its first line holds a lower-case letter, an upper-case letter and a digit |
| Validators.FirstLineEndsAt | server/middleware/validators.js:29 | the first line ends at the first line terminator |
| Validators.PatternStopsAtLineBreak | server/middleware/validators.js:29 | `"abcdef\nA1"` is refused although it contains all three character classes |
| Validators.ValidateRegister | server/middleware/validators.js:16-31 | the handler runs exactly when name, email and password all pass, and reads the trimmed name, the trimmed and normalized email and the password as sent |
| Validators.ValidateLogin | server/middleware/validators.js:34-43 | the handler runs exactly when the email passes and the password is non-empty, and reads the normalized email |
| Validators.ItemErrorsFirst | server/middleware/validators.js:47-57 | no error exactly when title (3-100), description (10-500) and type pass |
| Validators.ItemErrorsRest | server/middleware/validators.js:58-71 | no error exactly when location (3-100), date (ISO 8601), contact (5-50) and the optional image URL pass |
| Validators.ItemErrors | server/middleware/validators.js:46-72 | no error exactly when every item rule passes |
| Validators.SanitizeItem | server/middleware/validators.js:47-71 | the handler reads trimmed title, description, location and contact, the parsed type, and date, image URL and reporter as sent |
| Validators.ValidateItem | server/middleware/validators.js:46-73 | the create handler runs exactly when every rule passes, on the sanitized body; a refusal carries at least one error |
| Validators.TypeIsNotTrimmed | server/middleware/validators.js:55-57 | the type rule does not trim: `" lost"` is refused, `"lost"` accepted |
| ItemRoutes.Collect | server/routes/lostFound.js:30 | the result holds every stored report exactly once and nothing else |
| ItemRoutes.ListItems | server/routes/lostFound.js:27-37 | the answer is newest first and holds every stored report exactly once and nothing else |
| ItemRoutes.Create | server/routes/lostFound.js:46-63 | the new report is filed under the fresh id with the input's fields, unclaimed, `imageUrl` defaulted to `''`, the reporter from the body or else the caller, and nothing else in the collection changes |
| ItemRoutes.CreateItem | server/routes/lostFound.js:40-68 | 401 when `auth` refuses, 400 "Validation failed" when a rule fails, and otherwise the handler on the sanitized body |
| ItemRoutes.AcceptedInputComplete | server/routes/lostFound.js:9-16 | every body the validators accept yields all the fields the schema requires |
| ItemRoutes.CreateKeepsValid | server/routes/lostFound.js:48-62 | filing a complete input keeps every stored report filed under its id, complete and with a consistent claim pair |
| ItemRoutes.CreateKeepsStoreValid | server/routes/lostFound.js:40-68 | the create route keeps the collection valid; a created report is stored trimmed and unclaimed, with an empty image URL when none was sent and the caller as reporter when the body names none |
| ItemRoutes.ReporterIsTakenFromBody | server/routes/lostFound.js:56 | any signed-in caller can file a report under another reporter id |
| ItemRoutes.MarkClaimed | server/routes/lostFound.js:71-116 | 401, then 404 for a missing report, then 403; 200 exactly when an admin or the reporter named by the body asks; on 200 exactly that report becomes claimed at the request time, and nothing else changes |
| ItemRoutes.MarkMissingIsNotFound | server/routes/lostFound.js:83-88 | a missing report is 404 for every signed-in caller, whatever the body says |
| ItemRoutes.MarkTwiceRefreshes | server/routes/lostFound.js:101-103 | re-marking a claimed report succeeds and moves its claim time to the later request |
| ItemRoutes.BodyUserIdDecides | server/routes/lostFound.js:75-98 | a student who is not the reporter is refused when the body names nobody and allowed when the body names the reporter |
| ItemRoutes.UnmarkClaimed | server/routes/lostFound.js:119-155 | 401, then 403 for a non-admin, then 404; 200 exactly for an admin on a stored report, which is then unclaimed with no claim time; nothing else changes |
| ItemRoutes.UnmarkIdempotent | server/routes/lostFound.js:140-142 | unmarking twice leaves the collection as unmarking once |
| ItemRoutes.DeleteItem | server/routes/lostFound.js:158-187 | 401, then 403 for a non-admin, then 404; 200 exactly for an admin on a stored report, which alone is removed |
| ItemRoutes.NonAdminNeverSeesNotFound | server/routes/lostFound.js:126-137 | for a student the id is never looked up: a missing report is 403, not 404, on unmark and delete |
| ItemRoutes.MarkKeepsStoreValid | server/routes/lostFound.js:101-103 | marking keeps every report complete and its claim pair consistent |
| ItemRoutes.UnmarkKeepsStoreValid | server/routes/lostFound.js:140-142 | unmarking keeps every report complete and its claim pair consistent |
| ItemRoutes.DeleteKeepsStoreValid | server/routes/lostFound.js:172-176 | deleting keeps every remaining report complete and its claim pair consistent |
| ItemRoutes.Lifecycle | server/routes/lostFound.js:40-187 | a student's report can be created, marked by its reporter, unmarked and deleted by an admin, each step succeeding, and is gone at the end |
| AuthRoutes.AppendKeepsUnique | server/routes/auth.js:37-50 | adding an account with an unused email and id keeps emails and ids unique |
| AuthRoutes.CreateAdmin | server/routes/auth.js:10-29 | refused with 400 when the admin email is taken; otherwise the admin account is added; afterwards the admin email is in use and uniqueness is kept |
| AuthRoutes.CreateAdminOnce | server/routes/auth.js:12-15 | a second create-admin request is refused and changes nothing |
| AuthRoutes.Register | server/routes/auth.js:36-67 | a taken email is refused with 400; otherwise exactly one student account is added and a one-day token for it is issued; uniqueness is kept |
| AuthRoutes.RegisterEndpoint | server/routes/auth.js:32 | 400 "Validation failed" unless name, email and password all pass; otherwise registration with the sanitized values |
| AuthRoutes.RegisterTwice | server/routes/auth.js:37-40 | the same email registered twice: the first succeeds, the second is refused and stores nothing |
| AuthRoutes.Login | server/routes/auth.js:74-149 | the admin pair always succeeds with role `admin` and a token without expiry, adding the admin account only when missing; its token and answer name the stored admin-email account when there is one, else the new one; any other login changes no account, and succeeds with a one-day token for that account exactly when the email is stored and its password matches, otherwise answers 400 |
| AuthRoutes.LoginEndpoint | server/routes/auth.js:74 | 400 "Validation failed" unless the email passes and a password is given; otherwise login with the normalized email |
| AuthRoutes.AdminBypassCondition | server/routes/auth.js:86-89 | the bypass accepts any capitalisation of the admin email but only the exact admin password |
| AuthRoutes.BypassRoleIsOnlyInTheAnswer | server/routes/auth.js:93-114 | a student account holding the admin email gets an answer saying `admin` while the stored role and the token's account stay a student's |
| AuthRoutes.RegularLoginFailuresAlike | server/routes/auth.js:118-127 | an unknown email and a wrong password get the same 400 answer |
| AuthRoutes.TokenLifetimes | server/routes/auth.js:53-134 | bypass tokens never expire; register and regular-login tokens expire exactly one day after issue |
| AuthRoutes.Me | server/routes/auth.js:152-165 | the public view of the account `auth` loaded, or the 401 |
| AuthRoutes.Row | server/routes/auth.js:179-183 | a list entry keeps the account's id, name, email, role and creation time (the password is dropped), has `lastLogin` equal to its creation time and is always active |
| AuthRoutes.Rows | server/routes/auth.js:179-183 | one entry per account, position by position |
| AuthRoutes.ListUsers | server/routes/auth.js:168-190 | 401, 403 for a non-admin; for an admin every account's entry, newest first |
| AuthRoutes.DeleteUser | server/routes/auth.js:193-219 | 401, then 403 for a non-admin, 400 for the caller's own id, 404 for an unknown id; 200 exactly otherwise, removing the first account with that id |
| AuthRoutes.RemoveAtMembers | server/routes/auth.js:208 | with unique ids, removing one position drops exactly the accounts with that position's id |
| AuthRoutes.RemoveAtUnique | server/routes/auth.js:208 | removing a position keeps ids and emails unique |
| AuthRoutes.DeleteUserRemovesExactly | server/routes/auth.js:207-214 | a successful deletion leaves one account fewer: every account except the named one, with ids and emails still unique |
| ItemLists.Filter | client/src/store/slices/lostFoundSlice.js:193 | an element is kept exactly when it satisfies the predicate, with its multiplicity |
| ItemLists.FilterAppend | client/src/store/slices/lostFoundSlice.js:193 | filtering a concatenation filters each part in place |
| ItemLists.FilterNone | client/src/store/slices/lostFoundSlice.js:208 | filtering keeps nothing when no element qualifies |
| ItemLists.FirstWithId | client/src/store/slices/lostFoundSlice.js:167 | the position of the first report with the id; none exactly when no report has it |
| ItemLists.UpdateFirst | client/src/store/slices/lostFoundSlice.js:166-172 | only the first report with the id is updated; without a match the list is unchanged |
| ItemLists.UpdateFirstAt | client/src/store/slices/lostFoundSlice.js:166-172 | the update replaces exactly the first match's position |
| ItemLists.UpdateAll | client/src/hooks/useLostFound.js:80-90 | every report with the id is updated, every other one kept |
| ItemLists.FirstAgreesWithAll | client/src/hooks/useLostFound.js:80-90 | where the id occurs at most once, the slice's and the hook's updates agree |
| ItemLists.FirstDiffersOnDuplicates | client/src/hooks/useLostFound.js:80-90 | with the same report listed twice, the slice claims one copy and the hook both |
| ItemLists.WithoutId | client/src/store/slices/lostFoundSlice.js:193 | exactly the reports with another id remain, with their multiplicity |
| ItemLists.OfType | client/src/store/slices/lostFoundSlice.js:210-213 | exactly the reports of that type remain; an unknown type keeps nothing |
| ItemLists.OfTypeAppend | client/src/store/slices/lostFoundSlice.js:208 | selecting a type from a concatenation selects from each part in place, so a selection keeps the list's order |
| ItemLists.ByFilter | client/src/hooks/useLostFound.js:153-156 | `all` shows the whole list; any other value shows exactly the reports of that type, and nothing for an unknown value |
| ItemLists.NoneCountsZero | client/src/components/features/lost-found/LostFoundPage.js:149 | a list without reports of a type counts zero of it |
| ItemLists.OneCountsOnce | client/src/components/features/lost-found/LostFoundPage.js:149-159 | a single report counts under exactly one of the two tabs |
| ItemLists.CountsAddUp | client/src/components/features/lost-found/LostFoundPage.js:149-159 | the Lost and Found counts add up to the list's length |
| LostFoundSlice.Reduce | client/src/store/slices/lostFoundSlice.js:120-199 | only `setFilter` moves the tab; the list changes only on a fulfilled fetch, add, mark, unmark or delete, with fetch replacing and add prepending; `loading` follows fetch and add only; a rejection records its text, fetch and add starts and successes and `clearError` clear it, and nothing else touches it |
| LostFoundSlice.MarkUnknownIdIsNoOp | client/src/store/slices/lostFoundSlice.js:166-172 | marking a report that is not listed leaves the whole state unchanged |
| LostFoundSlice.MarkClaimsFirstOnly | client/src/store/slices/lostFoundSlice.js:166-172 | after a fulfilled mark the first report with the id is claimed at the answer's time, and every other position is unchanged |
| LostFoundSlice.DeleteRemovesAll | client/src/store/slices/lostFoundSlice.js:192-194 | no report with the id is left, and the others keep their order |
| LostFoundSlice.FetchSettled | client/src/store/slices/lostFoundSlice.js:13-29 | a success dispatches the fetched reports reordered newest first by the thunk's key; a failure dispatches the answer's `message` or "Failed to load items" |
| LostFoundSlice.AddSettled | client/src/store/slices/lostFoundSlice.js:31-53 | a success dispatches the created report; a failure dispatches the answer's `message` or "Failed to add item" |
| LostFoundSlice.MarkSettled | client/src/store/slices/lostFoundSlice.js:55-74 | a success dispatches the request's id with the answer's claim time; a failure dispatches `message` or its fallback |
| LostFoundSlice.UnmarkSettled | client/src/store/slices/lostFoundSlice.js:76-94 | a success dispatches the request's id; a failure dispatches `message` or its fallback |
| LostFoundSlice.DeleteSettled | client/src/store/slices/lostFoundSlice.js:96-110 | a success dispatches the request's id; a failure dispatches `message` or its fallback |
| LostFoundSlice.FailureKeepsListAndSetsError | client/src/store/slices/lostFoundSlice.js:31-197 | a failed add, mark, unmark or delete leaves the list unchanged and a non-empty error, the fallback when the answer has no `message` |
| LostFoundSlice.SelectFilteredItems | client/src/store/slices/lostFoundSlice.js:205-209 | under `all` the whole list, otherwise exactly the reports of the tab's type, each as often as listed, in list order |
| LostFoundSlice.AddedLeadsItsTab | client/src/store/slices/lostFoundSlice.js:154-157 | on a type tab an added report heads the shown list when it has that type, and the rest of the tab keeps its order |
| LostFoundSlice.SelectOfType | client/src/store/slices/lostFoundSlice.js:210-213 | exactly the reports of the type; its length is that type's count |
| LostFoundSlice.SelectionsPartition | client/src/store/slices/lostFoundSlice.js:205-213 | the lost and found selections split the list, and a type tab's filtered selection is that type's selection |
| LostFoundSlice.FilterAndClearCommute | client/src/store/slices/lostFoundSlice.js:124-129 | `setFilter` and `clearError` commute |
| AuthSlice.InitialState | client/src/store/slices/authSlice.js:75-96 | a non-empty stored token is kept; a stored user that parses is held, authenticated exactly when a token is held, with the admin flag matching its role; an unparsable one leaves the signed-out defaults |
| AuthSlice.NullUserStillAuthenticated | client/src/store/slices/authSlice.js:85-90 | a stored `null` user with a token starts authenticated while holding no user |
| AuthSlice.Reduce | client/src/store/slices/authSlice.js:101-176 | per action: logout clears user, token and flags; success of login or register holds the answer's user and token, authenticated; rejections record the text and drop authentication but keep the user; the admin flag keeps agreeing with the held user's role |
| AuthSlice.Run | client/src/store/slices/authSlice.js:98-177 | any sequence of actions keeps the admin flag in agreement with the held user's role |
| AuthSlice.AdminFlagAlwaysAgrees | client/src/store/slices/authSlice.js:75-176 | from the initial state, the admin flag always agrees with the held user's role |
| AuthSlice.RejectionKeepsUser | client/src/store/slices/authSlice.js:135-175 | a rejected login or current-user check keeps the held user while dropping `isAuthenticated` |
| AuthSlice.LogoutIdempotent | client/src/store/slices/authSlice.js:102-110 | logging out twice is logging out once |
| AuthSlice.LoginSettled | client/src/store/slices/authSlice.js:7-27 | a success dispatches the answer's user and token; a failure dispatches the answer's `error` or "Login failed" |
| AuthSlice.RegisterSettled | client/src/store/slices/authSlice.js:29-50 | a success dispatches the answer's user and token; a failure dispatches `error` or "Registration failed" |
| AuthSlice.CurrentSettled | client/src/store/slices/authSlice.js:52-72 | without a stored token the check is rejected; with one it is rejected exactly when the request fails, and otherwise holds the answer's user |
| AuthSlice.ValidationRefusalShowsSummary | client/src/store/slices/authSlice.js:21-24 | a validation refusal shows "Validation failed", never a field's message; a text only under `message` shows the fallback |
| UseLostFound.AddItem | client/src/hooks/useLostFound.js:35-61 | without a token nothing is sent and the generic text returned; success exactly with a token and a 2xx answer, prepending the created report; otherwise the list is kept and a non-empty error returned |
| UseLostFound.ClaimStep | client/src/hooks/useLostFound.js:63-98 | refused without a token or user; success exactly on a 2xx answer with `success`, updating every report with the id; a 2xx answer without it returns nothing and keeps the list |
| UseLostFound.MarkAsClaimed | client/src/hooks/useLostFound.js:63-98 | on success every report with the id becomes claimed at the answer's time and every other is kept; otherwise the list is unchanged |
| UseLostFound.UnmarkClaimed | client/src/hooks/useLostFound.js:116-151 | on success every report with the id becomes unclaimed with no claim time; otherwise the list is unchanged |
| UseLostFound.DeleteItem | client/src/hooks/useLostFound.js:100-114 | a 2xx answer removes every report with the id; a failure keeps the list and returns `message` or the generic text |
| UseLostFound.UnmarkTwiceIsOnce | client/src/hooks/useLostFound.js:131-143 | unmarking twice leaves the list as unmarking once |
| UseLostFound.DeleteWithoutTokenIsGeneric | client/src/hooks/useLostFound.js:100-114 | a guard refusal, whose text is under `error`, returns the generic text and keeps the list |
| ProtectedRoute.EffectiveUser | client/src/components/auth/ProtectedRoute.js:14 | the slice's user when it holds one, else the context's |
| ProtectedRoute.Guard | client/src/components/auth/ProtectedRoute.js:6-33 | loading when either source loads; login redirect exactly when neither is loading nor authenticated; children exactly when one source is authenticated and the merged user's role is allowed |
| ProtectedRoute.AdminPagesNeedAdmin | client/src/components/auth/ProtectedRoute.js:27-32 | an admin-only page renders only for a held admin user |
| ProtectedRoute.MixedSourcesRender | client/src/components/auth/ProtectedRoute.js:14-16 | a signed-out slice still holding an admin renders an admin page when only the context is authenticated |
| AdminConfig.FindAdmin | client/src/config/adminConfig.js:16 | the first listed credential whose email matches ignoring case; none exactly when no email matches |
| AdminConfig.IsAdminEmail | client/src/config/adminConfig.js:10-12 | true exactly when some listed email matches ignoring case |
| AdminConfig.VerifyAdminPassword | client/src/config/adminConfig.js:15-18 | true exactly when a listed credential matches the email ignoring case and the password exactly; never true for a non-admin email |
| AdminConfig.VerifyIsTheAdminPair | client/src/config/adminConfig.js:2-18 | with the one listed credential, the check is "lowercases to the admin email and is the admin password" |
| LostFoundPage.Foot | client/src/components/features/lost-found/LostFoundPage.js:269-298 | the badge exactly for a claimed report, with its claim time; the button exactly for an unclaimed found report whose non-empty reporter is the signed-in user |
| LostFoundPage.LostNeverOffersButton | client/src/components/features/lost-found/LostFoundPage.js:286-289 | a lost report never offers the button, even to its reporter |
| LostFoundPage.Cards | client/src/components/features/lost-found/LostFoundPage.js:181-298 | one card per shown report, in order, each with its foot |
| LostFoundPage.ShownComeFromList | client/src/components/features/lost-found/LostFoundPage.js:35-37 | every shown report is in the list, and under a type tab has that type |
| LostFoundPage.Render | client/src/components/features/lost-found/LostFoundPage.js:35-37 | one card per report of the tab (every report under `all`), in list order, each with its own foot and of the tab's type under a type tab; the Lost and Found counts are the numbers of reports of each type and add up to the list |
| LostFoundPage.EveryReportOfTabShown | client/src/components/features/lost-found/LostFoundPage.js:35-37 | every listed report of the tab's type, and under `all` every listed report, has a card |
| LostFoundPage.TabCountsMatchCards | client/src/components/features/lost-found/LostFoundPage.js:149-159 | the count on the Lost or Found tab equals the number of cards that tab shows, and under `all` the two counts add up to the cards shown |
| Sync.SliceFollowsList | client/src/store/slices/lostFoundSlice.js:13-22 | the list route's answer through `fetchItems` and the reducer leaves a mirror of the collection, reordered newest first by the thunk's `date || createdAt` key rather than the route's `createdAt` order, with loading over and no error |
| Sync.MirrorIdsUnique | client/src/store/slices/lostFoundSlice.js:167 | a list mirroring the collection holds each id at most once |
| Sync.MirrorInsert | client/src/store/slices/lostFoundSlice.js:154-158 | prepending a new report to a mirror mirrors the collection with that report added |
| Sync.MirrorReplace | client/src/store/slices/lostFoundSlice.js:166-172 | updating a mirror's first report with an id mirrors the collection with that report updated |
| Sync.MirrorRemove | client/src/store/slices/lostFoundSlice.js:192-194 | removing an id from a mirror mirrors the collection without it |
| Sync.SliceFollowsCreate | client/src/store/slices/lostFoundSlice.js:154-158 | a created report, dispatched through `addItem`, keeps the slice mirroring the collection |
| Sync.SliceFollowsMark | client/src/store/slices/lostFoundSlice.js:166-172 | a successful mark, dispatched through `markAsClaimed`, keeps the slice mirroring the collection |
| Sync.SliceFollowsUnmark | client/src/store/slices/lostFoundSlice.js:179-185 | a successful unmark, dispatched through `unmarkClaimed`, keeps the mirror |
| Sync.SliceFollowsDelete | client/src/store/slices/lostFoundSlice.js:192-194 | a successful delete, dispatched through `deleteItem`, keeps the mirror |
| Sync.HookFollowsMark | client/src/hooks/useLostFound.js:63-98 | on a mirror the hook's mark succeeds and keeps its list mirroring the collection |
| Sync.ButtonMeansServerAllows | client/src/components/features/lost-found/LostFoundPage.js:286-289 | where the card offers the button, the mark route answers 200, whether the body names the user or nobody |
| Sync.ServerAllowsBeyondButton | server/routes/lostFound.js:91 | the route lets a reporter mark their own lost report and an admin any report, though neither card shows the button |
| Sync.AdminEmailIsLowercase | server/routes/auth.js:79-84 | the built-in admin email is already lower case |
| Sync.AdminChecksAgree | client/src/config/adminConfig.js:15-18 | on the same email string, the client's credential check and the server's bypass accept exactly the same pairs (the server checks the trimmed, normalized email, so at the endpoint it also accepts raw inputs the client refuses) |
| Sync.BypassOpensAdminPages | server/routes/auth.js:91-114 | a bypass login leaves the slice holding an authenticated admin session that opens admin-only pages, whatever the stored role |

## Left out

- JWT signing and verification. Token decoding is the `decode` parameter of `AuthMiddleware.Authenticate`, and a token is modelled as its claim set.
- Password hashing and `comparePassword`: the user schema is not part of this model, and the comparison is the `passwordMatches` parameter.
- `isEmail`, `normalizeEmail`, `isISO8601` and `isURL`: library routines whose definitions lie outside the model; they are parameters (`Validators.Library`).
- The MongoDB store: the collections are a map (reports) and a sequence (accounts). `findOne` is "first in store order".
- The `updatedAt` timestamps.
- Mongoose's casting of `date` to a `Date`: `date` is kept as the text sent.
- The 500 answers: malformed ObjectIds (`CastError`), store failures and "Server error" replies.
- The rate limiter, CORS, helmet and `server/server.js` bootstrapping: they sit outside the routes' logic.
- Console logging, and writes to `localStorage` (`setItem`/`removeItem`): side effects with no bearing on the returned values. The stored token and user are inputs of `AuthSlice.InitialState` and of the hook's actions.
- The request bodies the thunks and the hook build (`reportedBy: auth.user?.id`, `userId: user.id`). The route models take the body's `reportedBy` and `userId` as parameters. `Sync.ButtonMeansServerAllows` covers the two values the clients send.
- The hook's own `fetchItems` and its `loading`/`error` state: they are component state with no effect on the list actions modelled.
- The other components: `App.js`, `Home.js`, the report form, the admin dashboard and `LostFoundManagement.js`, the login and register pages, and the page's layout, styling and date formatting. Their logic is navigation, event wiring, or dispatches of actions the slice model already covers.
- `client/src/store/store.js` and `client/src/store/hooks.js`: store wiring with no logic of its own.
- Concurrent requests on the same report. Every route is modelled as one atomic transition. The store's last-writer-wins ordering involves no logic in this code.
- `server/models/LostFound.js` and the User schema beyond the fields the routes read and write: the routes use the schema declared in `server/routes/lostFound.js`.
- LostFoundSlice.FetchSettled: the thunk's sort key, `new Date(date || createdAt)`, needs JavaScript `Date` parsing. It is the parameter `when`, an integer time per report, and the order among reports with equal keys is not fixed. `Sync.SliceFollowsList` inherits the same key.
- LostFoundSlice.Reduce: its contract does not state the list after a fulfilled mark, unmark or delete. Those are stated by `LostFoundSlice.MarkUnknownIdIsNoOp`, `LostFoundSlice.MarkClaimsFirstOnly`, `LostFoundSlice.DeleteRemovesAll` and the `Sync` lemmas, to keep each proof small.
- ItemRoutes.ListItems: the order among reports with the same `createdAt` is not fixed, because the store does not fix it either.
- Strings.ToLower: lowercases ASCII letters only. The one text it is compared with, the admin email, is ASCII.
- Validators.TrimmedLengthRule: lengths count Unicode code points. The library's handling of combining and variation-selector sequences is not modelled.
- Validators.PasswordErrors: the six-character minimum counts Unicode code points. The library's `isLength` discounts variation selectors, and that is not modelled.
- Request-body fields that are not strings. Every body field is an optional string (`Validators.ItemBody`, `Validators.RegisterBody`, `Validators.LoginBody`, and the `userId` of `ItemRoutes.MarkClaimed`). JSON `null`, numbers, arrays and objects, which the routes read through `||` and `.toString()`, are not modelled.
- AuthSlice.InitialState: `JSON.parse` results other than a user record or `null` (a number, a string) are not modelled.
- ProtectedRoute.Guard: `allowedRoles` is a list of role names compared with the user's role name. A user record without a role is not modelled.
