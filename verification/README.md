# rsrcx opportunities directory — a Dafny model of its core logic

rsrcx is a public directory of opportunities (grants, fellowships, programmes) with an admin back office, built on Next.js and Convex. Most of the repository is React view code. This project models the parts that hold logic, as pure functions over immutable data:

- **Convex stores.** The `opportunities`, `submissions`, `admins` and `auditLog` record shapes and enumerations. The admin registry is keyed by email: `add` reactivates a known email and, for a new one, fails schema validation (a corrected add with a role is modelled beside it), and `deactivate` clears the active flag. The submission queue supports create-as-pending, a filtered newest-first listing and a status update that stamps `reviewedAt`. Each table is a map from id to record plus the insertion order, with fresh ids drawn from a counter. `Date.now()` is a parameter.
- **Public submission.** The `POST /api/submit-opportunity` handler returns 400, 200 or 500 and persists nothing. The public submit modal checks the same four fields, sends the form, shows a success banner and resets when its timer fires; its controls are disabled while a submission is marked in progress.
- **Favicon helpers.** Domain extraction: a first-occurrence `www.` removal on the parsed host name, with a regular-expression fallback. Also the SVG placeholder as a `data:` URL, and the synchronous Google favicon-service URL.
- **Comma lists.** The admin forms show list fields as `items.join(", ")` and save them as `text.split(",").map(trim)`. The model states exactly which lists survive that round trip.
- **Public table.** Case-insensitive search over title, description and provider, combined with exact category membership. Also the sorted, duplicate-free category index and the result-count line.
- **Deadline countdown.** Whole days to the deadline, rounded up, and the "N days remaining" / "Deadline passed" line, both as written (it needs a `Date`) and corrected (it reads the stored number).
- **Admin auth provider.** `checkAuth`, `login` and `logout` over a key-value storage map. The build-time credentials are `Option<string>`.
- **Admin forms and list glue.** The create form, the edit dialog and the reusable opportunity form. Also the admin list's query arguments, its count line and the duplicate/archive handlers.

Modules: `Wrappers` (Option/Result), `Strings` (search, replace, case mapping, decimal rendering, code-point order), `CommaList`, `UriEncoding` (`encodeURIComponent`), `Favicon`, `Schema`, `Tables`, `Sequences` (order-preserving subsequences), `Admins`, `Submissions`, `SubmitRoute`, `SubmitModal`, `PublicTable`, `Deadline`, `Auth`, `Forms` (shared form types), `CreateForm`, `EditDialog`, `OpportunityForm` and `Management`.

## Model

| member | source | states |
|---|---|---|
| Schema.ParseOpportunityStatus | convex/schema.ts:15 | an opportunity status is accepted exactly when it is one of "active", "inactive", "archived" |
| Schema.OpportunityStatusRoundTrip | convex/schema.ts:15 | each status literal parses back to the status it names |
| Schema.ParseSubmissionStatus | convex/schema.ts:39 | a submission status is accepted exactly when it is "pending", "approved" or "rejected" |
| Schema.SubmissionStatusRoundTrip | convex/schema.ts:39 | each submission status literal parses back to its status |
| Schema.ParseRole | convex/schema.ts:49 | a role is accepted exactly when it is "editor", "manager" or "admin" |
| Schema.RoleRoundTrip | convex/schema.ts:49 | each role literal parses back to its role |
| Tables.Insert | convex/admins.ts:35-41 | an insert stores the record under an id not used before and appends that id to the insertion order |
| Tables.Collect | convex/admins.ts:49 | `collect()` yields one record per id, in insertion order, and every stored record appears |
| Admins.FindByEmail | convex/admins.ts:8-11 | the by-email lookup finds nothing exactly when no record has that email; a hit is the earliest inserted record with that email |
| Admins.FindByEmailUnique | convex/admins.ts:8-11 | with unique emails the lookup returns the one record with that email |
| Admins.IsAdmin | convex/admins.ts:5-14 | `isAdmin` holds exactly when the earliest inserted record with that email is active, whatever later duplicates say; with unique emails, exactly when an active record with that email exists |
| Admins.Add | convex/admins.ts:17-43 | `add` succeeds exactly when the email is already registered: that record is reactivated in place, nothing else changes, and its id is returned; for a new email the role-less insert fails schema validation and the registry is unchanged |
| Admins.AddKeepsEmailsUnique | convex/admins.ts:24-33 | a successful `add` keeps at most one record per email, and afterwards the email is an admin |
| Admins.AddExistingKeepsName | convex/admins.ts:29-33 | re-adding a known email keeps its name and creation time and inserts nothing |
| Admins.AddNeverRegistersNew | convex/admins.ts:35-40 | as written, adding an email that is not registered always fails with the schema error, so no new admin can be created |
| Admins.AddWithRole | convex/admins.ts:17-43 | with a role supplied, a known email behaves exactly as in `add`; a new email gets one new active record with that role, created now, under a fresh id appended to the order |
| Admins.AddWithRoleKeepsEmailsUnique | convex/admins.ts:24-41 | adding with a role keeps at most one record per email, and afterwards the email is an admin |
| Admins.AddWithRoleConforms | convex/admins.ts:35-40 | adding with a role keeps every record conforming to the admins schema |
| Admins.List | convex/admins.ts:46-51 | `list` returns every record, unfiltered, one entry per stored id in insertion order |
| Admins.Deactivate | convex/admins.ts:54-63 | an unknown id fails with "Admin not found"; otherwise only `isActive` becomes false and the id is returned |
| Admins.DeactivateIdempotent | convex/admins.ts:60-61 | deactivating twice equals deactivating once |
| Admins.DeactivateRevokes | convex/admins.ts:60-61 | after deactivation `isAdmin` is false for that record's email |
| Admins.ReAddReactivates | convex/admins.ts:29-33 | adding a deactivated email again restores the same record, active, under the same id |
| Submissions.Create | convex/submissions.ts:5-23 | `create` inserts one record with the given fields, status pending, created now and not reviewed, under a fresh id |
| Submissions.FilterStatus | convex/submissions.ts:33-35 | the filter is an order-preserving subsequence that keeps every selected record as often as it occurs and drops every other one |
| Submissions.SortNewestFirst | convex/submissions.ts:37 | the sort is a permutation ordered by non-increasing `createdAt` |
| Submissions.List | convex/submissions.ts:26-39 | `list` is newest first, a permutation of the selected records, and holds exactly the stored records the status selects |
| Submissions.ListByStatus | convex/submissions.ts:33-34 | a named status lists exactly the records with that status |
| Submissions.ListAll | convex/submissions.ts:33 | an absent or empty status lists a reordering of the whole table |
| Submissions.UpdateStatus | convex/submissions.ts:42-54 | an unknown id or a status outside the schema is an error; otherwise the status is set and `reviewedAt` stamped with now, nothing else changes, and the id is returned |
| Submissions.ReviewedStaysReviewed | convex/submissions.ts:48-51 | an update never clears any record's `reviewedAt` |
| SubmitRoute.Post | app/api/submit-opportunity/route.ts:3-39 | 200 with the fixed acknowledgement exactly when the body is an object whose four required fields are truthy; 500 exactly when the body does not parse (or is null); otherwise 400 "Missing required fields"; the queue is never changed |
| SubmitRoute.UserFieldsIrrelevant | app/api/submit-opportunity/route.ts:8 | `userName` and `userTwitter` never affect the response |
| SubmitRoute.WhitespaceFieldsAccepted | app/api/submit-opportunity/route.ts:8 | any four non-empty strings in the required fields get 200, white space alone included, since validation tests truthiness only |
| SubmitRoute.MissingLinkRejected | app/api/submit-opportunity/route.ts:8-10 | a body without `link` gets 400 "Missing required fields" |
| SubmitModal.HandleChange | components/submit-opportunity-modal.tsx:38-44 | only the named field changes, to the new value |
| SubmitModal.ClientServerAgree | components/submit-opportunity-modal.tsx:49 | the modal's required check accepts a form exactly when the route accepts the body sent for it |
| SubmitModal.HandleSubmit | components/submit-opportunity-modal.tsx:46-86 | an incomplete form sends nothing and changes nothing; a sent form stays as typed; success shows the banner and arms the timer; failure resets `isSubmitting` |
| SubmitModal.TimerFires | components/submit-opportunity-modal.tsx:69-80 | the timer clears all six fields, hides the banner and closes the modal |
| SubmitModal.SentFormsAccepted | components/submit-opportunity-modal.tsx:49-62 | whatever the modal sends, the route answers 200 |
| SubmitModal.SuccessLeavesSubmitting | components/submit-opportunity-modal.tsx:54-80 | after success and the timer, `isSubmitting` is still true |
| SubmitModal.Input | components/submit-opportunity-modal.tsx:135-227 | typing changes only the typed field, and only while the form is shown and not disabled by `isSubmitting` |
| SubmitModal.CloseButton | components/submit-opportunity-modal.tsx:118-124 | the header button closes the modal exactly when the form is shown and `isSubmitting` is false; nothing else changes |
| SubmitModal.Backdrop | components/submit-opportunity-modal.tsx:93-99 | a backdrop click closes the open modal exactly when `isSubmitting` is false; nothing else changes |
| SubmitModal.PressSubmit | components/submit-opportunity-modal.tsx:128-234 | a disabled submit button, or a non-empty link that the `type="url"` input's validation rejects (line 189), sends nothing and changes nothing; otherwise the form is sent exactly when the required fields are filled, and it is sent as typed |
| SubmitModal.ReopenedAfterSuccessIsStuck | components/submit-opportunity-modal.tsx:54-232 | as written, after a successful submission (with a valid link) and the timer, the reopened modal ignores typing, both close paths and the submit button |
| SubmitModal.TimerFiresCorrected | components/submit-opportunity-modal.tsx:69-80 | the corrected timer also clears `isSubmitting`, besides resetting the form, hiding the banner and closing |
| SubmitModal.CorrectedReopenIsUsable | components/submit-opportunity-modal.tsx:69-232 | with the corrected timer, the reopened modal is empty and usable: typing sets the field, and both the close button and the backdrop close it |
| SubmitModal.CorrectedReopenSubmits | components/submit-opportunity-modal.tsx:46-232 | with the corrected timer, a filled form with a valid link in the reopened modal is sent |
| UriEncoding.Encode | lib/favicon.ts:12 | `encodeURIComponent` output uses only unreserved characters and upper-case percent escapes, and is never shorter than its input |
| UriEncoding.DecodeEncodeAscii | lib/favicon.ts:12 | decoding undoes the encoding on ASCII text |
| UriEncoding.EncodeCancel | lib/favicon.ts:12 | two ASCII strings in the same context encode alike only if they are equal |
| Favicon.GeneratePlaceholderFavicon | lib/favicon.ts:4-13 | the call throws (`None`) exactly when the domain starts with a character outside the Basic Multilingual Plane, whose `charAt(0)` is a lone surrogate that `encodeURIComponent` rejects; otherwise it is the `data:image/svg+xml;charset=utf-8,` prefix followed by encoded text |
| Favicon.PlaceholderDependsOnlyOnInitial | lib/favicon.ts:6 | domains with the same upper-cased first character, both inside the Basic Multilingual Plane, get the same placeholder |
| Favicon.PlaceholderDistinguishesInitials | lib/favicon.ts:6-12 | different ASCII initials give different placeholders |
| Favicon.RegexFallback | lib/favicon.ts:23-24 | the fallback yields null exactly when the input has no character other than `/`; a result is non-empty and has no `/` |
| Favicon.FallbackSkipsSchemeAndWww | lib/favicon.ts:23 | after `http://` or `https://` and `www.`, the capture is the following run of non-`/` characters |
| Favicon.FallbackSkipsScheme | lib/favicon.ts:23 | after a scheme not followed by `www.`, the capture starts right after the scheme |
| Favicon.FallbackSkipsWww | lib/favicon.ts:23 | without a scheme, a leading `www.` is skipped when a non-`/` character follows it, and the capture is the next run of non-`/` characters |
| Favicon.FallbackKeepsBareWww | lib/favicon.ts:23 | a leading `www.` followed by nothing or by `/` is captured itself |
| Favicon.FallbackPlainHost | lib/favicon.ts:23 | input with no scheme and no leading `www.` yields its first run of non-`/` characters |
| Favicon.ExtractDomain | lib/favicon.ts:18-26 | a parsed host always yields a domain; a failed parse falls back to the regular expression, null exactly for all-`/` input |
| Favicon.ExtractDomainKeepsPlainHost | lib/favicon.ts:21 | a host name without `www.` is returned unchanged |
| Favicon.ExtractDomainRemovesFirstWww | lib/favicon.ts:21 | the first `www.` of the host name is cut out, wherever it occurs |
| Favicon.ExtractDomainRemovesInnerWww | lib/favicon.ts:21 | a `www.` inside the host name is removed too, not only a prefix |
| Favicon.FaviconUrlRecoversDomain | lib/favicon.ts:66-72 | the result is a `data:` URL exactly when no domain was found, and otherwise the domain can be read back from it |
| CommaList.Split | components/admin/create-opportunity-form.tsx:58-61 | `split(",")` gives one piece per comma plus one, none containing a comma |
| CommaList.JoinSplit | components/admin/create-opportunity-form.tsx:58-61 | joining the pieces with the separator rebuilds the text |
| CommaList.TrimStart | components/admin/create-opportunity-form.tsx:58 | the leading part `trim` removes is exactly the run of ECMAScript white space at the start |
| CommaList.TrimEnd | components/admin/create-opportunity-form.tsx:58 | the trailing part `trim` removes is exactly the run of ECMAScript white space at the end |
| CommaList.Trim | components/admin/create-opportunity-form.tsx:58 | the trimmed text is a contiguous part of the input with no white space at either end, and everything cut off on either side is white space |
| CommaList.SplitTrim | components/admin/create-opportunity-form.tsx:58-61 | the parsed list has one item per comma plus one, with nothing dropped, and item i is the trim of the i-th comma-separated piece |
| CommaList.Display | components/admin/edit-opportunity-dialog.tsx:32-35 | a missing or empty list shows as `""`; a single item shows as itself |
| CommaList.RoundTrip | components/admin/edit-opportunity-dialog.tsx:32-58 | a list survives show-then-save exactly when it is non-empty and its items are comma-free and trimmed |
| CommaList.EmptyListSavedAsBlank | components/admin/edit-opportunity-dialog.tsx:34-57 | an empty or missing list is saved back as `[""]` |
| PublicTable.FilteredOpportunities | components/opportunities-table.tsx:25-38 | empty while loading; otherwise an order-preserving subsequence keeping each item exactly when it matches the search and the category, with multiplicities kept |
| PublicTable.EmptyFilterKeepsAll | components/opportunities-table.tsx:29-34 | an empty query with no category keeps every item in order |
| PublicTable.CategoryIsCaseSensitive | components/opportunities-table.tsx:34 | category matching is exact: a non-empty category that is not literally among an item's tags drops it, even when a tag differs only in case ("Grant" against "grant") |
| PublicTable.AllCategories | components/opportunities-table.tsx:41-44 | the index is empty while loading, strictly increasing, and its elements are exactly the tags of all items |
| PublicTable.StrictlyIncreasingUnique | components/opportunities-table.tsx:43 | a strictly increasing listing is determined by its elements, so the index is the unique sorted, duplicate-free listing of the tags |
| PublicTable.CountLabelMeaning | components/opportunities-table.tsx:82-83 | the count line starts with the count in decimal and uses "opportunities" exactly when the count exceeds one, so zero reads "0 opportunity" |
| Deadline.DaysUntilDeadline | components/opportunity-modal.tsx:24 | the day count is the ceiling of the remaining milliseconds over 86 400 000, and it is positive exactly when the deadline is in the future |
| Deadline.DaysUnique | components/opportunity-modal.tsx:24 | the ceiling is the only integer with that property |
| Deadline.WithinADayShowsOne | components/opportunity-modal.tsx:24-90 | any positive remaining time up to one day shows one day |
| Deadline.DaysMonotone | components/opportunity-modal.tsx:24 | a later deadline never shows fewer days |
| Deadline.CountdownLabelMeaning | components/opportunity-modal.tsx:90-92 | a positive count reads "N day remaining" for one and "N days remaining" otherwise, with N in decimal; a non-positive count reads "Deadline passed" |
| Deadline.ModalLinePassed | components/opportunity-modal.tsx:24-92 | the modal says "Deadline passed" exactly when the deadline is not in the future |
| Deadline.ModalLineAsWritten | components/opportunity-modal.tsx:24 | as written, the modal renders only for a `Date` deadline, and then says "Deadline passed" exactly when it is not in the future |
| Deadline.StoredDeadlineBreaksModal | components/opportunity-modal.tsx:24 | as written, a stored opportunity, whose deadline is a number or absent, never renders |
| Deadline.ModalLineCorrected | components/opportunity-modal.tsx:24 | the corrected modal renders for every deadline that is present, numeric or `Date` |
| Deadline.CorrectedShowsStoredDeadline | components/opportunity-modal.tsx:24-92 | the corrected modal shows a stored numeric deadline, saying "Deadline passed" exactly when it is not in the future |
| Auth.CheckAuth | components/admin/auth-provider.tsx:27-43 | the session is restored exactly when both keys hold non-empty values, whatever the token is; otherwise the flags stay as they were; loading ends on every path |
| Auth.Login | components/admin/auth-provider.tsx:45-63 | empty input fails first with "Username and password are required"; with both given, "Invalid credentials" exactly when either value differs from its configured credential (or that is unset); any failure changes neither state nor storage; success stores a token and the username and signs the user in |
| Auth.Logout | components/admin/auth-provider.tsx:65-71 | both keys are removed, every other key keeps its value, the user is cleared and both flags are reset |
| Auth.ConsistentInvariant | components/admin/auth-provider.tsx:18-70 | `isAuthenticated == isAdmin`, and both hold exactly when a user is set, initially and after every operation |
| Auth.UnsetEnvBlocksLogin | components/admin/auth-provider.tsx:46-55 | with either credential unset, every login fails |
| Auth.LoginToken | components/admin/auth-provider.tsx:57 | the stored token is `temp_token_` followed by the login time in decimal: digits whose value is the time, or `-` and the digits of its magnitude when negative |
| Strings.IntToStringReadsBack | components/admin/auth-provider.tsx:57 | the decimal rendering a template literal gives an integer reads back as that integer, with `-` before the digits of a negative one |
| Auth.LoginSurvivesReload | components/admin/auth-provider.tsx:29-62 | after a successful login, a fresh provider's check restores the same user |
| Auth.LogoutSurvivesReload | components/admin/auth-provider.tsx:29-67 | after logout, a fresh provider's check finds no session |
| Forms.PayloadOf | components/admin/edit-opportunity-dialog.tsx:45-60 | the scalar fields pass through as typed, the deadline is parsed, and each of the four lists is its field split at commas with every piece trimmed |
| Forms.Settle | components/admin/create-opportunity-form.tsx:49-70 | after the awaited mutation the spinner is off; success runs the callback and leaves no error; a thrown `Error` shows its message, anything else the fallback |
| CreateForm.HandleSubmit | components/admin/create-opportunity-form.tsx:39-71 | the handler calls the mutation exactly when title, provider, apply URL and deadline are non-empty; otherwise the error is "Please fill in all required fields"; the status sent is always active; the lists are split and trimmed; success runs only after the mutation resolves and leaves no error; a thrown `Error` shows its message, anything else "Failed to create opportunity" |
| CreateForm.DescriptionsNotChecked | components/admin/create-opportunity-form.tsx:45 | the handler's own check ignores both descriptions: neither affects whether the mutation is called |
| CreateForm.ListsKeepEveryPiece | components/admin/create-opportunity-form.tsx:58-61 | a list has one item per comma plus one, and an empty field is sent as `[""]` |
| EditDialog.Open | components/admin/edit-opportunity-dialog.tsx:22-37 | the dialog cannot open exactly when the deadline is missing or outside the `Date` range (`toISOString` throws); otherwise the fields are copied, the deadline shown as its calendar day, the lists joined with `", "`, a missing list and a missing eligibility shown as `""` |
| EditDialog.HandleSubmit | components/admin/edit-opportunity-dialog.tsx:39-68 | the update carries the original id and logo, every text field as typed, the parsed deadline and each list split and trimmed; the spinner ends on both outcomes; success only when the mutation resolves, and it leaves no error; a thrown `Error` shows its message, anything else "Failed to update opportunity" |
| EditDialog.ResavePreserves | components/admin/edit-opportunity-dialog.tsx:24-60 | opening and saving unchanged returns every field, lists included, when each list is non-empty, comma-free and trimmed; a missing eligibility comes back as `""`; the deadline comes back as the parse of its calendar day, so the time of day is lost |
| EditDialog.ResaveTagsIff | components/admin/edit-opportunity-dialog.tsx:32-55 | the tag list survives open-then-save exactly when it is non-empty and representable |
| EditDialog.ResaveBlankRegions | components/admin/edit-opportunity-dialog.tsx:34-57 | a missing or empty regions list is saved back as `[""]` |
| OpportunityForm.Init | components/admin/opportunity-form.tsx:19-33 | without defaults every text is `""` and the status is active; with defaults every text field and the status are taken over, the lists joined with `", "` (a missing one as `""`), a missing eligibility shown as `""`, and the deadline text is `""` when the deadline is absent or zero and its calendar day otherwise; a non-zero deadline outside the `Date` range makes initialisation throw |
| OpportunityForm.Submit | components/admin/opportunity-form.tsx:35-45 | every field passes through except the four lists, each split at commas with every piece trimmed, and the deadline, which is parsed; the handler does no validation of its own |
| OpportunityForm.DefaultsReproduced | components/admin/opportunity-form.tsx:28-42 | submitting the defaults unchanged reproduces the default record, lists included, when each list is non-empty, comma-free and trimmed; the deadline comes back as the parse of its calendar day (or of `""`), so the time of day is lost |
| OpportunityForm.BlankFormSubmitted | components/admin/opportunity-form.tsx:19-44 | the handler, when invoked on a blank form, produces blank text, the active status and one empty item per list |
| Management.ParseFilter | components/admin/opportunities-management.tsx:20-91 | the status filter takes only the four button values |
| Management.FilterRoundTrip | components/admin/opportunities-management.tsx:86-91 | each button label parses back to its filter |
| Management.Query | components/admin/opportunities-management.tsx:25-29 | the status and search go through verbatim, and archived records are requested exactly under the archived filter |
| Management.AsWrittenMisspellsPlural | components/admin/opportunities-management.tsx:102 | as written, every count other than one, zero included, is followed by " opportunityies" |
| Management.AsWrittenTwo | components/admin/opportunities-management.tsx:102 | as written, two results read "2 opportunityies" |
| Management.CountLabelMeaning | components/admin/opportunities-management.tsx:102 | the corrected line is "Loading..." until data arrives, then the count in decimal with "opportunity" for one and "opportunities" otherwise |
| Management.HandleAction | components/admin/opportunities-management.tsx:34-56 | duplicate and archive send the id with the admin id "current-user"; success refreshes once and leaves the error as it was; failure shows the fixed message and does not refresh |
| Management.FailureIgnoresThrown | components/admin/opportunities-management.tsx:41-55 | the failure outcome does not depend on what was thrown, and the two actions' messages differ |

## Left out

- `getFaviconUrl` and `getFaviconUrlWithFallback` (lib/favicon.ts:32-98) are left out: they race a `fetch`, an `Image` load and a timeout.
- The Cloudinary upload widget is left out: it is third-party UI with no logic of its own.
- URL parsing (`new URL(...)`, section 4.4 "URL parsing" of the WHATWG URL Standard) is an input: `ExtractDomain` receives the parsed host name, or `None` when parsing throws.
- `toLowerCase` and `toUpperCase` are modelled on ASCII letters only. Other characters are left as they are, so Unicode case mappings are not modelled.
- `encodeURIComponent` is modelled on Unicode scalar values. Its `URIError` arises only from the lone surrogate that `charAt(0)` makes of a character outside the Basic Multilingual Plane, and `GeneratePlaceholderFavicon` models that case as `None`.
- The category sort compares code points, whereas JavaScript compares UTF-16 code units. The two orders agree inside the Basic Multilingual Plane.
- `Math.ceil` of a floating-point quotient is modelled as exact integer ceiling division.
- Stored timestamps are integers. A fractional, NaN or infinite `number` deadline is not modelled.
- Date conversions are parameters:
  - `new Date(text).getTime()` is `parseDate`, and it may give NaN;
  - `toISOString().split("T")[0]` is `isoDay`.
- The detail modal's `updatedAt.toLocaleDateString()` is left out: it is locale formatting, and it fails on a stored number just as `.getTime()` does (see Findings).
- The server operations `api.opportunities.list/create/update/duplicate/archive` are left out: their module is not part of this model. Only the arguments sent to them and the handling of their outcome are modelled.
- The `auditLog` table has a shape only; no operation reads or writes it.
- Submissions.SortNewestFirst: order among equal `createdAt` values is not stated. The model's insertion sort is stable, and so is `Array.prototype.sort`.
- Submissions.UpdateStatus: the handler's argument is any string and it passes it to `patch` unchecked. Convex's schema validation then throws, so the model returns an error for a status outside the schema's three literals.
- The admin `lastLogin` field is never written by any modelled operation.
- `alert` and `console` calls are left out. The modal's alert text is returned as a value.
- Pure rendering and routing files are left out because they hold no logic:
  - app/layout.tsx, app/page.tsx and app/admin/page.tsx;
  - components/ui/button.tsx and components/convex.tsx;
  - the admin header, logout button, dashboard and redirect;
  - components/admin/opportunities-table.tsx, whose buttons have no handlers;
  - proxy.ts, an unconditional pass-through.
- Field-by-field `onChange` handling in the admin forms is left out. The submit handlers take any form contents as input.
- HTML constraint validation in the three admin forms is not modelled. Those forms mark title, provider, both descriptions, apply URL and deadline `required`, with `type="url"` and `type="date"`, so the browser blocks some submissions before the handler runs. Their handlers are modelled as if invoked. The public submit modal's one constraint, its `type="url"` link, is modelled as the parameter `urlValid`.

## Findings

| source | as written | input that shows it | evidently intended | confidence | as-written member | corrected member |
|---|---|---|---|---|---|---|
| components/admin/opportunities-management.tsx:102 | the count line appends `"ies"` to `"opportunity"` for every count other than one | two results: "2 opportunityies" (also "0 opportunityies") | "2 opportunities" | high, not executed | Management.AsWrittenMisspellsPlural | Management.CountLabelMeaning |
| convex/admins.ts:35-40 | a new email is inserted without `role`, which the `admins` schema requires, so the insert throws a validation error | `add` of any email not yet registered | the insert supplies a role and creates the admin | high, not executed | Admins.AddNeverRegistersNew | Admins.AddWithRoleKeepsEmailsUnique |
| components/opportunity-modal.tsx:24 | the modal calls `.getTime()` on the deadline, which the page passes as the stored millisecond number (or not at all), so rendering throws a `TypeError` | any opportunity opened from the public table | the stored number is the timestamp, `deadline - Date.now()` | high, not executed | Deadline.StoredDeadlineBreaksModal | Deadline.CorrectedShowsStoredDeadline |
| components/submit-opportunity-modal.tsx:69-80 | the success timer never clears `isSubmitting`, so every control stays disabled and the backdrop ignores clicks | submit a filled form successfully, wait for the timer, open the modal again | the timer resets `isSubmitting` with the rest of the form | high, not executed | SubmitModal.ReopenedAfterSuccessIsStuck | SubmitModal.CorrectedReopenIsUsable |
